// The table of contents built from the schema (USLM) XML edition of the
// Code: tasks/structure_xml.py. A title element is walked recursively; each
// structural element yields one entry (or, with sections_only, its
// children), headings lose their footnotes first, phantom headings are
// dropped with everything beneath them.

module XmlToc {
  import opened Wrappers
  import opened Strings
  import opened Toc

  const SectionSign := '\U{A7}'
  const NarrowNbsp := '\U{202F}'
  const Nbsp := '\U{A0}'
  const SoftHyphen := '\U{AD}'
  const EnDash := '\U{2013}'

  const NoHeading := "IndexError: list index out of range"
  const NoTitleNumber := "TypeError: 'NoneType' object has no attribute '__getitem__'"

  // ---------------------------------------------------------------------------
  // Headings and their footnotes
  // ---------------------------------------------------------------------------

  datatype InlineKind = NoteElement | FootnoteRef | OtherInline

  /** A child element of a heading: what it is, its own string value, and the
      text that follows it up to the next sibling (its tail). */
  datatype Inline = Inline(kind: InlineKind, content: string, tail: string)

  /** A heading element: the text before its first child, then its children. */
  datatype HeadingMarkup = HeadingMarkup(text: string, kids: seq<Inline>)

  /** `uslm:note` and `uslm:ref[@class='footnoteRef']`. */
  predicate IsFootnote(k: Inline)
  {
    k.kind == NoteElement || k.kind == FootnoteRef
  }

  /** The string value the children and their tails contribute. */
  function KidsValue(kids: seq<Inline>): string
  {
    if kids == [] then [] else kids[0].content + kids[0].tail + KidsValue(kids[1..])
  }

  /** `filter_nbsp`: a missing text becomes empty, one trailing no-break or
      narrow no-break space is dropped. */
  function FilterNbsp(t: string): (r: string)
    ensures t == [] || (t[|t| - 1] != Nbsp && t[|t| - 1] != NarrowNbsp) ==> r == t
    ensures t != [] && (t[|t| - 1] == Nbsp || t[|t| - 1] == NarrowNbsp) ==> r == t[..|t| - 1]
  {
    if t == [] then []
    else if t[|t| - 1] == Nbsp || t[|t| - 1] == NarrowNbsp then t[..|t| - 1]
    else t
  }

  /** The removal loop over the children still to visit: a footnote's tail
      moves onto the nearest kept child before it, or onto the heading's text,
      and the footnote goes. */
  function DropNotes(text: string, kept: seq<Inline>, rest: seq<Inline>): (string, seq<Inline>)
    decreases |rest|
  {
    if rest == [] then (text, kept)
    else
      var n := rest[0];
      if !IsFootnote(n) then DropNotes(text, kept + [n], rest[1..])
      else if n.tail == [] then DropNotes(text, kept, rest[1..])
      else if kept == [] then DropNotes(FilterNbsp(text) + n.tail, kept, rest[1..])
      else
        var p := kept[|kept| - 1];
        DropNotes(text, kept[..|kept| - 1] + [p.(tail := FilterNbsp(p.tail) + n.tail)], rest[1..])
  }

  /** `remove_footnotes` on a heading's text and children. */
  function WithoutFootnotes(h: HeadingMarkup): HeadingMarkup
  {
    var (text, kids) := DropNotes(h.text, [], h.kids);
    HeadingMarkup(text, kids)
  }

  /** A heading element of the parsed document, changed in place. */
  class HeadingElement {
    var text: string
    var kids: seq<Inline>

    constructor (h: HeadingMarkup)
      ensures text == h.text && kids == h.kids
    {
      text := h.text;
      kids := h.kids;
    }

    /** `string(uslm:heading)`. */
    function Value(): string
      reads this
    {
      text + KidsValue(kids)
    }

    /** `remove_footnotes`: every footnote child is removed, its tail kept. */
    method RemoveFootnotes()
      modifies this
      ensures HeadingMarkup(text, kids) == WithoutFootnotes(HeadingMarkup(old(text), old(kids)))
    {
      var j := 0;
      while j < |kids|
        invariant 0 <= j <= |kids|
        invariant DropNotes(old(text), [], old(kids)) == DropNotes(text, kids[..j], kids[j..])
        decreases |kids| - j
      {
        var n := kids[j];
        var rest := kids[j + 1..];
        assert kids[j..] == [n] + rest;
        if IsFootnote(n) {
          if n.tail != [] {
            if j > 0 {
              var p := kids[j - 1];
              var kept := kids[..j - 1] + [p.(tail := FilterNbsp(p.tail) + n.tail)];
              assert kids[..j][..j - 1] == kids[..j - 1];
              kids := kept + [n] + rest;
              assert kids[..j] == kept && kids[j + 1..] == rest;
            } else {
              text := FilterNbsp(text) + n.tail;
            }
          }
          var kept := kids[..j];
          kids := kept + rest;
          assert kids[..j] == kept && kids[j..] == rest;
        } else {
          assert kids[..j + 1] == kids[..j] + [n];
          j := j + 1;
        }
      }
      assert kids[..j] == kids && kids[j..] == [];
    }
  }

  /** The children other than footnotes, in order. */
  function Others(kids: seq<Inline>): seq<Inline>
  {
    if kids == [] then []
    else (if IsFootnote(kids[0]) then [] else [kids[0]]) + Others(kids[1..])
  }

  /** A child with its tail blanked out: what it is and what it holds. */
  function Untailed(kids: seq<Inline>): (r: seq<Inline>)
    ensures |r| == |kids|
  {
    if kids == [] then [] else [kids[0].(tail := [])] + Untailed(kids[1..])
  }

  lemma {:induction false} UntailedAppend(a: seq<Inline>, b: seq<Inline>)
    ensures Untailed(a + b) == Untailed(a) + Untailed(b)
    decreases |a|
  {
    if a != [] {
      UntailedAppend(a[1..], b);
      assert (a + b)[1..] == a[1..] + b;
    } else {
      assert a + b == b;
    }
  }

  /** Removing footnotes keeps exactly the other children, in order and with
      their contents; only their tails can change. */
  lemma {:induction false} DropNotesKeepsOthers(text: string, kept: seq<Inline>, rest: seq<Inline>)
    ensures Untailed(DropNotes(text, kept, rest).1) == Untailed(kept + Others(rest))
    decreases |rest|
  {
    if rest == [] {
      assert kept + [] == kept;
    } else {
      var n := rest[0];
      if !IsFootnote(n) {
        assert Others(rest) == [n] + Others(rest[1..]);
        assert DropNotes(text, kept, rest) == DropNotes(text, kept + [n], rest[1..]);
        DropNotesKeepsOthers(text, kept + [n], rest[1..]);
        assert kept + [n] + Others(rest[1..]) == kept + Others(rest);
      } else {
        assert Others(rest) == Others(rest[1..]);
        if n.tail == [] || kept == [] {
          var text' := if n.tail == [] then text else FilterNbsp(text) + n.tail;
          assert DropNotes(text, kept, rest) == DropNotes(text', kept, rest[1..]);
          DropNotesKeepsOthers(text', kept, rest[1..]);
        } else {
          var p := kept[|kept| - 1];
          var front := kept[..|kept| - 1];
          var p' := p.(tail := FilterNbsp(p.tail) + n.tail);
          assert DropNotes(text, kept, rest) == DropNotes(text, front + [p'], rest[1..]);
          DropNotesKeepsOthers(text, front + [p'], rest[1..]);
          RetailedLast(kept, p'.tail, Others(rest[1..]));
        }
      }
    }
  }

  /** Changing the tail of the last kept child changes nothing once tails
      are blanked out. */
  lemma RetailedLast(kept: seq<Inline>, tail: string, others: seq<Inline>)
    requires kept != []
    ensures var p := kept[|kept| - 1];
      Untailed(kept[..|kept| - 1] + [p.(tail := tail)] + others) == Untailed(kept + others)
  {
    var p := kept[|kept| - 1];
    var front := kept[..|kept| - 1];
    var p' := p.(tail := tail);
    LastSplit(kept);
    UntailedOne(p);
    UntailedOne(p');
    assert p'.(tail := []) == p.(tail := []);
    calc {
      Untailed(front + [p'] + others);
      { UntailedAppend(front + [p'], others); }
      Untailed(front + [p']) + Untailed(others);
      { UntailedAppend(front, [p']); }
      Untailed(front) + Untailed([p']) + Untailed(others);
      Untailed(front) + Untailed([p]) + Untailed(others);
      { UntailedAppend(front, [p]); }
      Untailed(kept) + Untailed(others);
      { UntailedAppend(kept, others); }
      Untailed(kept + others);
    }
  }

  lemma UntailedOne(x: Inline)
    ensures Untailed([x]) == [x.(tail := [])]
  {
    assert [x][1..] == [];
  }

  /** The state after the first remaining child has been visited. */
  function NextState(text: string, kept: seq<Inline>, n: Inline): (string, seq<Inline>)
  {
    if !IsFootnote(n) then (text, kept + [n])
    else if n.tail == [] then (text, kept)
    else if kept == [] then (FilterNbsp(text) + n.tail, kept)
    else (text, kept[..|kept| - 1] + [kept[|kept| - 1].(tail := FilterNbsp(kept[|kept| - 1].tail) + n.tail)])
  }

  lemma DropNotesUnfold(text: string, kept: seq<Inline>, rest: seq<Inline>)
    requires rest != []
    ensures var (text', kept') := NextState(text, kept, rest[0]);
      DropNotes(text, kept, rest) == DropNotes(text', kept', rest[1..])
  {
  }

  /** After removal no footnote is left among the children. */
  lemma {:induction false} DropNotesLeavesNoFootnote(text: string, kept: seq<Inline>, rest: seq<Inline>)
    requires forall k :: 0 <= k < |kept| ==> !IsFootnote(kept[k])
    ensures var kids := DropNotes(text, kept, rest).1; forall k :: 0 <= k < |kids| ==> !IsFootnote(kids[k])
    decreases |rest|
  {
    if rest != [] {
      var (text', kept') := NextState(text, kept, rest[0]);
      DropNotesUnfold(text, kept, rest);
      forall k | 0 <= k < |kept'| ensures !IsFootnote(kept'[k]) {
        if k < |kept| { assert kept'[k].kind == kept[k].kind; }
      }
      DropNotesLeavesNoFootnote(text', kept', rest[1..]);
    }
  }

  /** The string value of the children with every footnote's own text
      deleted and its tail kept. */
  function NotesDeleted(kids: seq<Inline>): string
  {
    if kids == [] then []
    else (if IsFootnote(kids[0]) then kids[0].tail else kids[0].content + kids[0].tail) + NotesDeleted(kids[1..])
  }

  /** No text piece ends in a space that `filter_nbsp` would drop. */
  predicate NoTrailingNbsp(t: string)
  {
    t == [] || (t[|t| - 1] != Nbsp && t[|t| - 1] != NarrowNbsp)
  }

  predicate TailsClean(kids: seq<Inline>)
  {
    forall k :: 0 <= k < |kids| ==> NoTrailingNbsp(kids[k].tail)
  }

  lemma {:induction false} KidsValueAppend(a: seq<Inline>, b: seq<Inline>)
    ensures KidsValue(a + b) == KidsValue(a) + KidsValue(b)
    decreases |a|
  {
    if a != [] {
      KidsValueAppend(a[1..], b);
      assert (a + b)[1..] == a[1..] + b;
    } else {
      assert a + b == b;
    }
  }

  lemma TailsCleanRest(rest: seq<Inline>)
    requires rest != [] && TailsClean(rest)
    ensures TailsClean(rest[1..]) && NoTrailingNbsp(rest[0].tail)
  {
    forall k | 0 <= k < |rest[1..]| ensures NoTrailingNbsp(rest[1..][k].tail) {
      assert rest[1..][k] == rest[k + 1];
    }
  }

  /** Moving a clean tail onto the last kept child keeps the tails clean and
      adds the tail to the string value. */
  lemma MoveTail(kept: seq<Inline>, t: string)
    requires kept != [] && TailsClean(kept) && t != [] && NoTrailingNbsp(t)
    ensures var p := kept[|kept| - 1];
      var kept' := kept[..|kept| - 1] + [p.(tail := FilterNbsp(p.tail) + t)];
      TailsClean(kept') && KidsValue(kept') == KidsValue(kept) + t
  {
    var p := kept[|kept| - 1];
    var front := kept[..|kept| - 1];
    var p' := p.(tail := FilterNbsp(p.tail) + t);
    assert NoTrailingNbsp(p.tail);
    assert FilterNbsp(p.tail) == p.tail;
    assert TailsClean(front) by {
      forall k | 0 <= k < |front| ensures NoTrailingNbsp(front[k].tail) {
        assert front[k] == kept[k];
      }
    }
    TailsCleanAppend(front, p');
    KidsValueOne(p);
    KidsValueOne(p');
    calc {
      KidsValue(front + [p']);
      { KidsValueAppend(front, [p']); }
      KidsValue(front) + (p.content + p.tail + t);
      KidsValue(front) + KidsValue([p]) + t;
      { KidsValueAppend(front, [p]); LastSplit(kept); }
      KidsValue(kept) + t;
    }
  }

  lemma KidsValueOne(x: Inline)
    ensures KidsValue([x]) == x.content + x.tail
  {
    assert [x][1..] == [];
  }

  lemma TailsCleanAppend(kept: seq<Inline>, n: Inline)
    requires TailsClean(kept) && NoTrailingNbsp(n.tail)
    ensures TailsClean(kept + [n])
  {
    forall k | 0 <= k < |kept + [n]| ensures NoTrailingNbsp((kept + [n])[k].tail) {
      if k < |kept| { assert (kept + [n])[k] == kept[k]; }
    }
  }

  /** One visit keeps the pieces clean and the value, footnote text aside. */
  lemma NextStateValue(text: string, kept: seq<Inline>, n: Inline)
    requires NoTrailingNbsp(text) && TailsClean(kept) && NoTrailingNbsp(n.tail)
    ensures NoTrailingNbsp(NextState(text, kept, n).0) && TailsClean(NextState(text, kept, n).1)
    ensures NextState(text, kept, n).0 + KidsValue(NextState(text, kept, n).1)
         == text + KidsValue(kept) + (if IsFootnote(n) then n.tail else n.content + n.tail)
  {
    if !IsFootnote(n) {
      assert NextState(text, kept, n) == (text, kept + [n]);
      TailsCleanAppend(kept, n);
      KidsValueAppend(kept, [n]);
      KidsValueOne(n);
      ConcatAssoc(text, KidsValue(kept), n.content + n.tail);
    } else if n.tail == [] {
      assert NextState(text, kept, n) == (text, kept);
    } else if kept == [] {
      assert NextState(text, kept, n) == (FilterNbsp(text) + n.tail, kept);
      assert FilterNbsp(text) == text;
      assert (text + n.tail)[|text + n.tail| - 1] == n.tail[|n.tail| - 1];
    } else {
      MoveTail(kept, n.tail);
    }
  }

  /** Where no text piece ends in a no-break space, the heading reads after
      removal exactly as before with every footnote's own text cut out. */
  lemma {:induction false} DropNotesValue(text: string, kept: seq<Inline>, rest: seq<Inline>)
    requires NoTrailingNbsp(text) && TailsClean(kept) && TailsClean(rest)
    ensures DropNotes(text, kept, rest).0 + KidsValue(DropNotes(text, kept, rest).1)
         == text + KidsValue(kept) + NotesDeleted(rest)
    decreases |rest|
  {
    if rest != [] {
      var n := rest[0];
      var (text', kept') := NextState(text, kept, n);
      TailsCleanRest(rest);
      DropNotesUnfold(text, kept, rest);
      NextStateValue(text, kept, n);
      DropNotesValue(text', kept', rest[1..]);
      assert NotesDeleted(rest) == (if IsFootnote(n) then n.tail else n.content + n.tail) + NotesDeleted(rest[1..]);
    }
  }

  /** A heading without footnotes is left as it was. */
  lemma {:induction false} DropNotesNoFootnotes(text: string, kept: seq<Inline>, rest: seq<Inline>)
    requires forall k :: 0 <= k < |rest| ==> !IsFootnote(rest[k])
    ensures DropNotes(text, kept, rest) == (text, kept + rest)
    decreases |rest|
  {
    if rest == [] {
      assert kept + rest == kept;
    } else {
      DropNotesNoFootnotes(text, kept + [rest[0]], rest[1..]);
      assert kept + [rest[0]] + rest[1..] == kept + rest;
    }
  }

  // ---------------------------------------------------------------------------
  // One entry's fields
  // ---------------------------------------------------------------------------

  /** The element of the document tree that proc_node reads: its tag, the
      `value` attribute of its first `num` child ("" when absent), its first
      `heading` child, and its child elements in document order. */
  datatype Tag = Structural(level: Level) | OtherTag(name: string)
  datatype XmlNode = XmlNode(tag: Tag, numValue: string, heading: Option<HeadingMarkup>, children: seq<XmlNode>)

  /** The number: `§` plus narrow no-break space removed, stripped, en dashes
      made hyphens, and empty meaning none. */
  function NumberOf(raw: string): (r: Option<string>)
  {
    var n := Replace(Strip(Replace(raw, [SectionSign, NarrowNbsp], [])), [EnDash], "-");
    if n == [] then None else Some(n)
  }

  /** A number, when present, is non-empty, has no en dash and no surrounding
      whitespace. */
  lemma NumberOfShape(raw: string)
    ensures var r := NumberOf(raw);
      r.Some? ==> (EnDash !in r.value && !IsSpace(r.value[0]) && !IsSpace(r.value[|r.value| - 1]))
  {
    DashesReplaced(Strip(Replace(raw, [SectionSign, NarrowNbsp], [])));
  }

  /** Turning en dashes into hyphens leaves none, and keeps a text that
      neither starts nor ends with whitespace that way. */
  lemma DashesReplaced(s: string)
    requires s == [] || (!IsSpace(s[0]) && !IsSpace(s[|s| - 1]))
    ensures var n := Replace(s, [EnDash], "-");
      EnDash !in n && (n != [] ==> !IsSpace(n[0]) && !IsSpace(n[|n| - 1]))
  {
    var n := Replace(s, [EnDash], "-");
    if s != [] { ReplaceCharAt(s, EnDash, '-', 0); }
    forall k | 0 <= k < |s| ensures n[k] != EnDash && (n[k] == s[k] || n[k] == '-') {
      ReplaceCharAt(s, EnDash, '-', k);
    }
    if n != [] {
      ReplaceCharAt(s, EnDash, '-', 0);
      ReplaceCharAt(s, EnDash, '-', |s| - 1);
    }
  }

  /** The name: the heading's text stripped, soft hyphens removed. */
  function NameOf(value: string): (r: string)
    ensures SoftHyphen !in r
  {
    RemoveCharGone(Strip(value), SoftHyphen);
    Replace(Strip(value), [SoftHyphen], [])
  }

  /** The name of the heading once its footnotes are gone. */
  function HeadingName(h: HeadingMarkup): string
  {
    var g := WithoutFootnotes(h);
    NameOf(g.text + KidsValue(g.kids))
  }

  /** The fixed names of phantom levels. */
  predicate IsPhantomListed(name: string)
  {
    name in ["]", "Repealed", "Reserved", "Reserved]", "Omitted", "Omitted]", "Transferred", "Transferred]",
             "Omitted or Transferred", "Vacant]"]
  }

  /** `(\.|$)` after a match ending at `p`. */
  predicate EndsOrDot(name: string, p: nat)
  {
    p == |name| || (p < |name| && name[p] == '.')
  }

  /** `re.match(r"(Repealed.*|Transferred|Omitted|Renumbered .*\])(\.|$)")`:
      `.*` after "Repealed" reaches the end, where `$` matches; after
      "Renumbered " it backtracks to some `]` that ends the name or precedes
      a period. */
  predicate MatchesPhantomPattern(name: string)
  {
    StartsWith(name, "Repealed")
    || (StartsWith(name, "Transferred") && EndsOrDot(name, 11))
    || (StartsWith(name, "Omitted") && EndsOrDot(name, 7))
    || (StartsWith(name, "Renumbered ") &&
        exists p :: 11 <= p < |name| && name[p] == ']' && EndsOrDot(name, p + 1))
  }

  predicate IsPhantomName(name: string)
  {
    IsPhantomListed(name) || MatchesPhantomPattern(name)
  }

  /** One step of the path: the level and its number, or None for an
      unnumbered level. */
  type PathStep = Option<(Level, string)>

  function Extended(path: seq<PathStep>, level: Level, number: Option<string>): (r: seq<PathStep>)
    ensures |r| == |path| + 1 && r[..|path|] == path
  {
    path + [if number.Some? then Some((level, number.value)) else None]
  }

  /** `%s` of a number: `None` when there is none. */
  function Shown(number: Option<string>): string
  {
    if number.Some? then number.value else "None"
  }

  /** `"%s/%s" % p` for every step of a path without an unnumbered level. */
  function StepTexts(path: seq<PathStep>): (r: seq<string>)
    requires None !in path
    ensures |r| == |path|
  {
    if path == [] then []
    else [LevelName(path[0].value.0) + "/" + path[0].value.1] + StepTexts(path[1..])
  }

  /** The citation of an entry whose extended path is `path`: sections and
      chapters are cited under the title's number alone, other levels by the
      whole path when every level on it is numbered. Reading the title's
      number fails when the title itself has none. */
  function CitationOf(level: Level, number: Option<string>, path: seq<PathStep>): (r: Result<Option<string>>)
    requires |path| >= 1
    ensures r.Err? <==> (level == Section || level == Chapter) && path[0].None?
    ensures r.Ok? && (level == Section || level == Chapter) ==> r.value.Some?
    ensures r.Ok? && level != Section && level != Chapter ==> (r.value.Some? <==> None !in path)
  {
    if level == Section || level == Chapter then
      if path[0].None? then Err(NoTitleNumber)
      else if level == Section then Ok(Some(SectionCitation(path[0].value.1, number)))
      else Ok(Some(ChapterCitation(path[0].value.1, number)))
    else if None in path then Ok(None)
    else Ok(Some(PathCitation(path)))
  }

  /** A section is cited by the title's number and its own. */
  function SectionCitation(title: string, number: Option<string>): string
  {
    "usc/" + title + "/" + Shown(number)
  }

  /** A chapter is cited by the title's number and its own, whatever lies
      between them. */
  function ChapterCitation(title: string, number: Option<string>): string
  {
    "usc/title/" + title + "/chapter/" + Shown(number)
  }

  /** `usc/` and then `level/number` for every step, joined by slashes. */
  function PathCitation(path: seq<PathStep>): string
    requires None !in path
  {
    "usc/" + Join(StepTexts(path), "/")
  }

  // ---------------------------------------------------------------------------
  // proc_node
  // ---------------------------------------------------------------------------

  /** A result's list with `front` put before it; errors pass through. */
  function Prepend(front: seq<Entry>, r: Result<seq<Entry>>): Result<seq<Entry>>
  {
    match r
    case Err(e) => Err(e)
    case Ok(es) => Ok(front + es)
  }

  /** What proc_node adds to its parent's list for one structural element. */
  function Proc(node: XmlNode, path: seq<PathStep>, sectionsOnly: bool): Result<seq<Entry>>
    requires node.tag.Structural?
    decreases node
  {
    match node.heading
    case None => Err(NoHeading)
    case Some(h) =>
      var level := node.tag.level;
      var number := NumberOf(node.numValue);
      var name := HeadingName(h);
      if IsPhantomName(name) then Ok([])
      else
        var steps := Extended(path, level, number);
        match CitationOf(level, number, steps)
        case Err(e) => Err(e)
        case Ok(citation) =>
          match (if level == Section then Ok([]) else ProcChildren(node.children, steps, sectionsOnly))
          case Err(e) => Err(e)
          case Ok(children) =>
            if sectionsOnly && level != Title && level != Section then Ok(children)
            else Ok([Entry(level, number, name, citation, children)])
  }

  /** `Proc` of a named element, its error cases and its two outcomes. */
  lemma ProcNamed(node: XmlNode, path: seq<PathStep>, sectionsOnly: bool)
    requires node.tag.Structural? && node.heading.Some?
    requires !IsPhantomName(HeadingName(node.heading.value))
    ensures var level, number := node.tag.level, NumberOf(node.numValue);
      var steps := Extended(path, level, number);
      var citation := CitationOf(level, number, steps);
      var children := if level == Section then Ok([]) else ProcChildren(node.children, steps, sectionsOnly);
      Proc(node, path, sectionsOnly) ==
        if citation.Err? then Err(citation.error)
        else if children.Err? then Err(children.error)
        else if sectionsOnly && level != Title && level != Section then Ok(children.value)
        else Ok([Entry(level, number, HeadingName(node.heading.value), citation.value, children.value)])
  {
  }

  /** The structural children, in document order, each added in turn. */
  function ProcChildren(cs: seq<XmlNode>, path: seq<PathStep>, sectionsOnly: bool): Result<seq<Entry>>
    decreases cs
  {
    if cs == [] then Ok([])
    else if !cs[0].tag.Structural? then ProcChildren(cs[1..], path, sectionsOnly)
    else Then(Proc(cs[0], path, sectionsOnly), ProcChildren(cs[1..], path, sectionsOnly))
  }

  /** The first child's entries before the rest's; the first error wins. */
  function Then(first: Result<seq<Entry>>, rest: Result<seq<Entry>>): Result<seq<Entry>>
  {
    match first
    case Err(e) => Err(e)
    case Ok(es) => Prepend(es, rest)
  }

  /** `proc_node`: adds the element's entry (or its flattened children) to
      the end of the parent's list. */
  method ProcNode(node: XmlNode, parent: seq<Entry>, path: seq<PathStep>, sectionsOnly: bool)
    returns (r: Result<seq<Entry>>)
    requires node.tag.Structural?
    ensures r == Prepend(parent, Proc(node, path, sectionsOnly))
    decreases node
  {
    if node.heading.None? {
      return Err(NoHeading);
    }
    var h := node.heading.value;
    var heading := new HeadingElement(h);
    heading.RemoveFootnotes();
    var level := node.tag.level;
    var number := NumberOf(node.numValue);
    var name := NameOf(heading.Value());
    assert name == HeadingName(h);
    if IsPhantomName(name) {
      assert parent + [] == parent;
      return Ok(parent);
    }
    var steps := Extended(path, level, number);
    var citation := CitationOf(level, number, steps);
    if citation.Err? {
      return Err(citation.error);
    }
    var children: seq<Entry> := [];
    if level != Section {
      var res := ProcChildrenInto(node.children, [], steps, sectionsOnly);
      var spec := ProcChildren(node.children, steps, sectionsOnly);
      assert spec.Ok? ==> [] + spec.value == spec.value;
      if res.Err? {
        return Err(res.error);
      }
      children := res.value;
    }
    if sectionsOnly && level != Title && level != Section {
      r := Ok(parent + children);
    } else {
      r := Ok(parent + [Entry(level, number, name, citation.value, children)]);
    }
  }

  /** The loop over the structural children: each adds to the list in turn. */
  method ProcChildrenInto(cs: seq<XmlNode>, parent: seq<Entry>, path: seq<PathStep>, sectionsOnly: bool)
    returns (r: Result<seq<Entry>>)
    ensures r == Prepend(parent, ProcChildren(cs, path, sectionsOnly))
    decreases cs
  {
    var acc := parent;
    var i := 0;
    while i < |cs|
      invariant 0 <= i <= |cs|
      invariant Prepend(parent, ProcChildren(cs, path, sectionsOnly)) == Prepend(acc, ProcChildren(cs[i..], path, sectionsOnly))
    {
      if cs[i].tag.Structural? {
        var res := ProcNode(cs[i], acc, path, sectionsOnly);
        assert cs[i..][1..] == cs[i + 1..];
        assert ProcChildren(cs[i..], path, sectionsOnly) ==
          Then(Proc(cs[i], path, sectionsOnly), ProcChildren(cs[i + 1..], path, sectionsOnly));
        PrependThen(acc, Proc(cs[i], path, sectionsOnly), ProcChildren(cs[i + 1..], path, sectionsOnly));
        if res.Err? {
          return Err(res.error);
        }
        acc := res.value;
      } else {
        assert cs[i..][1..] == cs[i + 1..];
      }
      i := i + 1;
    }
    assert cs[i..] == [];
    assert acc + [] == acc;
    r := Ok(acc);
  }

  /** One child of the loop: an error ends it, a result extends the list. */
  lemma PrependThen(acc: seq<Entry>, first: Result<seq<Entry>>, rest: Result<seq<Entry>>)
    ensures first.Err? ==> Prepend(acc, Then(first, rest)) == Err(first.error)
    ensures first.Ok? ==> Prepend(acc, Then(first, rest)) == Prepend(acc + first.value, rest)
  {
    if first.Ok? && rest.Ok? {
      assert acc + (first.value + rest.value) == acc + first.value + rest.value;
    }
  }

  // ---------------------------------------------------------------------------
  // What every emitted entry satisfies
  // ---------------------------------------------------------------------------

  /** `ok` holds of every entry at every depth. */
  predicate AllEntries(es: seq<Entry>, ok: Entry -> bool)
    decreases es
  {
    forall k :: 0 <= k < |es| ==> ok(es[k]) && AllEntries(es[k].subparts, ok)
  }

  lemma AllEntriesAppend(a: seq<Entry>, b: seq<Entry>, ok: Entry -> bool)
    requires AllEntries(a, ok) && AllEntries(b, ok)
    ensures AllEntries(a + b, ok)
  {
    forall k | 0 <= k < |a + b| ensures ok((a + b)[k]) && AllEntries((a + b)[k].subparts, ok) {
      if k < |a| { assert (a + b)[k] == a[k]; } else { assert (a + b)[k] == b[k - |a|]; }
    }
  }

  lemma AllEntriesOne(e: Entry, ok: Entry -> bool)
    requires ok(e) && AllEntries(e.subparts, ok)
    ensures AllEntries([e], ok)
  {
    assert [e][0] == e;
  }

  /** An emitted entry: never a phantom, a clean name and number, sections
      without subparts, sections and chapters always cited; with
      sections_only, only titles and sections. */
  predicate EntryOk(e: Entry, sectionsOnly: bool)
  {
    !IsPhantomName(e.name) && SoftHyphen !in e.name &&
    (e.number.Some? ==> e.number.value != [] && EnDash !in e.number.value) &&
    (e.level == Section ==> e.subparts == []) &&
    (e.level == Section || e.level == Chapter ==> e.citation.Some?) &&
    (sectionsOnly ==> e.level == Title || e.level == Section)
  }

  lemma {:induction false} ProcEntriesOk(node: XmlNode, path: seq<PathStep>, sectionsOnly: bool)
    requires node.tag.Structural?
    ensures var r := Proc(node, path, sectionsOnly);
      r.Ok? ==> AllEntries(r.value, e => EntryOk(e, sectionsOnly))
    decreases node
  {
    if node.heading.Some? && !IsPhantomName(HeadingName(node.heading.value)) {
      var level := node.tag.level;
      var number := NumberOf(node.numValue);
      NumberOfShape(node.numValue);
      var name := HeadingName(node.heading.value);
      var steps := Extended(path, level, number);
      var citation := CitationOf(level, number, steps);
      var children := if level == Section then Ok([]) else ProcChildren(node.children, steps, sectionsOnly);
      if level != Section {
        ProcChildrenEntriesOk(node.children, steps, sectionsOnly);
      }
      ProcNamed(node, path, sectionsOnly);
      if citation.Ok? && children.Ok? && !(sectionsOnly && level != Title && level != Section) {
        var e := Entry(level, number, name, citation.value, children.value);
        assert EntryOk(e, sectionsOnly);
        AllEntriesOne(e, e => EntryOk(e, sectionsOnly));
      }
    }
  }

  lemma {:induction false} ProcChildrenEntriesOk(cs: seq<XmlNode>, path: seq<PathStep>, sectionsOnly: bool)
    ensures var r := ProcChildren(cs, path, sectionsOnly);
      r.Ok? ==> AllEntries(r.value, e => EntryOk(e, sectionsOnly))
    decreases cs
  {
    if cs != [] {
      ProcChildrenEntriesOk(cs[1..], path, sectionsOnly);
      if cs[0].tag.Structural? {
        ProcEntriesOk(cs[0], path, sectionsOnly);
        var first := Proc(cs[0], path, sectionsOnly);
        var more := ProcChildren(cs[1..], path, sectionsOnly);
        if first.Ok? && more.Ok? {
          AllEntriesAppend(first.value, more.value, e => EntryOk(e, sectionsOnly));
        }
      }
    }
  }

  /** Without sections_only an element adds one entry or none. */
  lemma ProcAtMostOne(node: XmlNode, path: seq<PathStep>)
    requires node.tag.Structural?
    ensures var r := Proc(node, path, false); r.Ok? ==> |r.value| <= 1
  {
  }

  // ---------------------------------------------------------------------------
  // sections_only flattening
  // ---------------------------------------------------------------------------

  /** The section entries of a forest, in document order. */
  function SectionsOf(es: seq<Entry>): seq<Entry>
    decreases es
  {
    if es == [] then []
    else (if es[0].level == Section then [es[0]] else []) + SectionsOf(es[0].subparts) + SectionsOf(es[1..])
  }

  lemma {:induction false} SectionsOfAppend(a: seq<Entry>, b: seq<Entry>)
    ensures SectionsOf(a + b) == SectionsOf(a) + SectionsOf(b)
    decreases |a|
  {
    if a == [] {
      assert a + b == b;
    } else {
      SectionsOfAppend(a[1..], b);
      assert (a + b)[1..] == a[1..] + b;
      assert (a + b)[0] == a[0];
      var h := if a[0].level == Section then [a[0]] else [];
      var x := SectionsOf(a[0].subparts);
      assert SectionsOf(a + b) == h + x + (SectionsOf(a[1..]) + SectionsOf(b));
      ConcatAssoc(h + x, SectionsOf(a[1..]), SectionsOf(b));
    }
  }

  /** Flattening loses no section: with and without sections_only the same
      errors arise, and the same section entries come out in the same order. */
  lemma {:induction false} FlattenKeepsSections(node: XmlNode, path: seq<PathStep>)
    requires node.tag.Structural?
    ensures var flat, full := Proc(node, path, true), Proc(node, path, false);
      flat.Ok? == full.Ok? && (flat.Err? ==> flat == full) &&
      (flat.Ok? ==> SectionsOf(flat.value) == SectionsOf(full.value))
    decreases node
  {
    if node.heading.Some? && !IsPhantomName(HeadingName(node.heading.value)) {
      var level := node.tag.level;
      var number := NumberOf(node.numValue);
      var steps := Extended(path, level, number);
      var name := HeadingName(node.heading.value);
      var citation := CitationOf(level, number, steps);
      ProcNamed(node, path, true);
      ProcNamed(node, path, false);
      if level != Section && citation.Ok? {
        ChildrenFlattenKeepsSections(node.children, steps);
        var flat := ProcChildren(node.children, steps, true);
        var full := ProcChildren(node.children, steps, false);
        if flat.Ok? {
          SectionsOfOne(Entry(level, number, name, citation.value, full.value));
          SectionsOfOne(Entry(level, number, name, citation.value, flat.value));
        }
      }
    }
  }

  /** The sections under one entry that is not itself a section. */
  lemma SectionsOfOne(e: Entry)
    requires e.level != Section
    ensures SectionsOf([e]) == SectionsOf(e.subparts)
  {
    assert [e][1..] == [];
    assert SectionsOf(e.subparts) + [] == SectionsOf(e.subparts);
  }

  lemma {:induction false} ChildrenFlattenKeepsSections(cs: seq<XmlNode>, path: seq<PathStep>)
    ensures var flat, full := ProcChildren(cs, path, true), ProcChildren(cs, path, false);
      flat.Ok? == full.Ok? && (flat.Err? ==> flat == full) &&
      (flat.Ok? ==> SectionsOf(flat.value) == SectionsOf(full.value))
    decreases cs
  {
    if cs != [] {
      ChildrenFlattenKeepsSections(cs[1..], path);
      if cs[0].tag.Structural? {
        FlattenKeepsSections(cs[0], path);
        var a, b := Proc(cs[0], path, true), Proc(cs[0], path, false);
        var c, d := ProcChildren(cs[1..], path, true), ProcChildren(cs[1..], path, false);
        if a.Ok? && c.Ok? {
          SectionsOfAppend(a.value, c.value);
          SectionsOfAppend(b.value, d.value);
        }
      }
    }
  }

  // ---------------------------------------------------------------------------
  // Citations read back
  // ---------------------------------------------------------------------------

  lemma LevelNameNoSlash(l: Level)
    ensures '/' !in LevelName(l)
  {
  }

  /** The level names and numbers of a path, alternating. */
  function Flat(path: seq<PathStep>): (r: seq<string>)
    requires None !in path
    ensures |r| == 2 * |path|
  {
    if path == [] then [] else [LevelName(path[0].value.0), path[0].value.1] + Flat(path[1..])
  }

  lemma {:induction false} StepTextsFlat(path: seq<PathStep>)
    requires None !in path && path != []
    ensures Join(StepTexts(path), "/") == Join(Flat(path), "/")
    decreases |path|
  {
    var f := Flat(path);
    assert f[1..][1..] == Flat(path[1..]);
    if |path| == 1 {
      assert f[1..] == [path[0].value.1];
    } else {
      StepTextsFlat(path[1..]);
    }
  }

  /** A section's citation reads back as `usc`, the title's number and its own. */
  lemma SectionCitationParts(title: string, number: Option<string>)
    requires '/' !in title && '/' !in Shown(number)
    ensures Split(SectionCitation(title, number), "/") == ["usc", title, Shown(number)]
  {
    var parts := ["usc", title, Shown(number)];
    assert Join(parts, "/") == SectionCitation(title, number) by {
      assert parts[1..][1..] == [Shown(number)];
      assert Join(parts[1..][1..], "/") == Shown(number);
      assert parts[1..] == [title, Shown(number)];
      assert Join(parts[1..], "/") == title + "/" + Shown(number);
    }
    JoinSplit(parts, '/');
  }

  /** A chapter's citation reads back as `usc`, `title`, the title's number,
      `chapter` and its own number. */
  lemma ChapterCitationParts(title: string, number: Option<string>)
    requires '/' !in title && '/' !in Shown(number)
    ensures Split(ChapterCitation(title, number), "/") == ["usc", "title", title, "chapter", Shown(number)]
  {
    ChapterCitationJoin(title, Shown(number));
    JoinSplit(["usc", "title", title, "chapter", Shown(number)], '/');
  }

  lemma ChapterCitationJoin(title: string, n: string)
    ensures Join(["usc", "title", title, "chapter", n], "/") == "usc/title/" + title + "/chapter/" + n
  {
    var parts := ["usc", "title", title, "chapter", n];
    assert parts[1..][1..][1..][1..] == [n];
    assert Join(parts[1..][1..][1..][1..], "/") == n;
    assert parts[1..][1..][1..] == ["chapter", n];
    assert Join(parts[1..][1..][1..], "/") == "chapter/" + n;
    assert parts[1..][1..] == [title, "chapter", n];
    assert Join(parts[1..][1..], "/") == title + "/chapter/" + n;
    assert parts[1..] == ["title", title, "chapter", n];
    assert Join(parts[1..], "/") == "title/" + title + "/chapter/" + n;
  }

  /** Another level's citation reads back as `usc` and then the level names
      and numbers of the path, alternating. */
  lemma PathCitationSplit(path: seq<PathStep>)
    requires |path| >= 1 && None !in path
    requires forall k :: 0 <= k < |path| ==> '/' !in path[k].value.1
    ensures Split(PathCitation(path), "/") == ["usc"] + Flat(path)
  {
    PathCitationJoin(path);
    FlatSplitBack(path);
  }

  lemma FlatSplitBack(path: seq<PathStep>)
    requires None !in path
    requires forall k :: 0 <= k < |path| ==> '/' !in path[k].value.1
    ensures Split(Join(["usc"] + Flat(path), "/"), "/") == ["usc"] + Flat(path)
  {
    var parts := ["usc"] + Flat(path);
    PartsNoSlash(parts, path);
    JoinSplit(parts, '/');
  }

  lemma PathCitationJoin(path: seq<PathStep>)
    requires |path| >= 1 && None !in path
    ensures PathCitation(path) == Join(["usc"] + Flat(path), "/")
  {
    var flat := Flat(path);
    var parts := ["usc"] + flat;
    StepTextsFlat(path);
    assert parts[1..] == flat;
    assert |parts| >= 2;
    assert Join(parts, "/") == parts[0] + "/" + Join(parts[1..], "/");
    assert "usc" + "/" == "usc/";
  }

  lemma PartsNoSlash(parts: seq<string>, path: seq<PathStep>)
    requires None !in path && parts == ["usc"] + Flat(path)
    requires forall k :: 0 <= k < |path| ==> '/' !in path[k].value.1
    ensures forall k :: 0 <= k < |parts| ==> '/' !in parts[k]
  {
    var flat := Flat(path);
    forall k | 0 <= k < |parts| ensures '/' !in parts[k] {
      if k > 0 {
        FlatNoSlash(path, k - 1);
        assert parts[k] == flat[k - 1];
      }
    }
  }

  lemma {:induction false} FlatNoSlash(path: seq<PathStep>, k: nat)
    requires None !in path && k < 2 * |path|
    requires forall j :: 0 <= j < |path| ==> '/' !in path[j].value.1
    ensures '/' !in Flat(path)[k]
    decreases |path|
  {
    LevelNameNoSlash(path[0].value.0);
    if k >= 2 {
      assert Flat(path)[k] == Flat(path[1..])[k - 2];
      FlatNoSlash(path[1..], k - 2);
    }
  }

  // ---------------------------------------------------------------------------
  // run
  // ---------------------------------------------------------------------------

  function EntryNumber(e: Entry): Option<string>
  {
    e.number
  }

  /** `run`: every title element in turn, then the titles sorted by number.
      The titles reach here as the `main/title` element of each file. */
  method Run(titles: seq<XmlNode>, sectionsOnly: bool) returns (r: Result<seq<Entry>>)
    requires forall k :: 0 <= k < |titles| ==> titles[k].tag == Structural(Title)
    ensures var spec := ProcChildren(titles, [], sectionsOnly);
      (spec.Err? ==> r == Err(spec.error)) &&
      (spec.Ok? ==> (r.Ok? <==> forall k :: 0 <= k < |spec.value| ==> SortKey(spec.value[k].number).Some?)) &&
      (r.Ok? ==> spec.Ok? && multiset(r.value) == multiset(spec.value) && SortedBy(r.value, TitleKeyOf(EntryNumber)) &&
                 forall k :: WithKey(r.value, TitleKeyOf(EntryNumber), k) == WithKey(spec.value, TitleKeyOf(EntryNumber), k))
  {
    var res := ProcChildrenInto(titles, [], [], sectionsOnly);
    var spec := ProcChildren(titles, [], sectionsOnly);
    assert spec.Ok? ==> [] + spec.value == spec.value;
    if res.Err? {
      return Err(res.error);
    }
    var toc := res.value;
    var a := new Entry[|toc|](k requires 0 <= k < |toc| => toc[k]);
    assert a[..] == toc;
    var ok := SortTitles(a, EntryNumber);
    if !ok {
      return Err("ValueError: title number is not an integer");
    }
    r := Ok(a[..]);
  }
}
