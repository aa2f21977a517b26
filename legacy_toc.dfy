// The table of contents extracted from the legacy XHTML edition of the Code
// (tasks/structure.py). Each section heading is preceded by an `expcite`
// comment naming its location ("TITLE 5-...!@!CHAPTER 3-...!@!Sec. 301");
// the location plus the section form a path that is merged into a forest of
// titles.

module LegacyToc {
  import opened Wrappers
  import opened Strings
  import opened Toc

  /** One step of a location path. Components of an `expcite` comment carry no
      citation (Python's 3-tuples); a section carries one (the 4-tuple). */
  datatype Segment = Segment(level: Level, number: Option<string>, name: string, citation: Option<string>)

  /** A TOC entry under construction: `(segment, [children])`. */
  datatype TocNode = TocNode(seg: Segment, children: seq<TocNode>)

  const Separator: string := "!@!"
  const SectionSign: char := '\U{A7}'
  const EnDash: char := '\U{2013}'

  // ---------------------------------------------------------------------------
  // parse_expcite: one component at a time
  // ---------------------------------------------------------------------------

  /** `s` ends with the lower-case word `w`, ignoring ASCII case. */
  predicate EndsWithIgnoreCase(s: string, w: string)
  {
    |w| <= |s| && Lower(s[|s| - |w|..]) == w
  }

  /** `[...-REPEALED]`, `[...-RESERVED]`, `[...-OMITTED]` or `[...-TRANSFERRED]`,
      in any case, possibly followed by whitespace. */
  predicate IsPhantomComponent(c: string)
  {
    var t := RStrip(c);
    |t| >= 2 && t[0] == '[' && t[|t| - 1] == ']' &&
    var mid := t[1..|t| - 1];
    EndsWithIgnoreCase(mid, "-repealed") || EndsWithIgnoreCase(mid, "-reserved") ||
    EndsWithIgnoreCase(mid, "-omitted") || EndsWithIgnoreCase(mid, "-transferred")
  }

  /** `c` begins with the level's word (any case) and a space. */
  predicate LabelledBy(c: string, l: Level)
  {
    var w := LevelName(l);
    |c| > |w| && Lower(c[..|w|]) == w && c[|w|] == ' '
  }

  /** The level word a component starts with, trying the alternatives in the
      pattern's order. */
  function LevelLabel(c: string): (r: Option<Level>)
    ensures r.Some? ==> LabelledBy(c, r.value) && r.value in {Title, Subtitle, Chapter, Subchapter, Part, Subpart, Division}
  {
    if LabelledBy(c, Title) then Some(Title)
    else if LabelledBy(c, Subtitle) then Some(Subtitle)
    else if LabelledBy(c, Chapter) then Some(Chapter)
    else if LabelledBy(c, Subchapter) then Some(Subchapter)
    else if LabelledBy(c, Part) then Some(Part)
    else if LabelledBy(c, Subpart) then Some(Subpart)
    else if LabelledBy(c, Division) then Some(Division)
    else None
  }

  /** `LEVELWORD NUMBER-NAME`: the level, the (non-empty) text before the
      first hyphen, and everything after it. */
  function LevelMatch(c: string): (r: Option<(Level, string, string)>)
    ensures r.Some? ==> var (l, num, name) := r.value;
      LabelledBy(c, l) && num != [] && '-' !in num &&
      c == c[..|LevelName(l)|] + " " + num + "-" + name
  {
    match LevelLabel(c)
    case None => None
    case Some(l) =>
      var rest := c[|LevelName(l)| + 1..];
      match Find(rest, "-")
      case None => None
      case Some(k) =>
        if k == 0 then None
        else
          HyphenSplit(c, |LevelName(l)|, k);
          Some((l, rest[..k], rest[k + 1..]))
  }

  /** Splitting the text after a level word at its first hyphen gives back
      the whole component. */
  lemma HyphenSplit(c: string, w: nat, k: nat)
    requires w < |c| && c[w] == ' '
    requires Find(c[w + 1..], "-") == Some(k)
    ensures '-' !in c[w + 1..][..k]
    ensures c == c[..w] + " " + c[w + 1..][..k] + "-" + c[w + 1..][k + 1..]
  {
    var rest := c[w + 1..];
    forall j | 0 <= j < k ensures rest[j] != '-' {
      assert !OccursAt(rest, "-", j);
    }
    assert rest[k] == '-';
    SplitAround(rest, k);
    SplitAround(c, w);
    Rejoin(c[..w], " ", rest[..k], "-", rest[k + 1..]);
  }

  /** `Sec. REST` or `Secs. REST` (any case): the rest. */
  function SecRest(c: string): Option<string>
  {
    if |c| >= 6 && Lower(c[..6]) == "secs. " then Some(c[6..])
    else if |c| >= 5 && Lower(c[..5]) == "sec. " then Some(c[5..])
    else None
  }

  /** The rewrite of appendix titles, applied to the first component only:
      `5, APPENDIX` becomes `5a` (with " (APPENDIX)" added to the name), and a
      title whose name is `APPENDIX` gets an `a` added to its number. */
  function TitleAppendix(i: nat, seg: Segment): (r: Segment)
    requires seg.number.Some?
    ensures r.level == seg.level && r.citation == seg.citation && r.number.Some?
    ensures i != 0 || seg.level != Title ==> r == seg
  {
    var n := seg.number.value;
    if i == 0 && seg.level == Title && Contains(n, ", APPENDIX") then
      seg.(number := Some(Replace(n, ", APPENDIX", "a")), name := seg.name + " (APPENDIX)")
    else if i == 0 && seg.level == Title && seg.name == "APPENDIX" then
      seg.(number := Some(n + "a"))
    else
      seg
  }

  /** What happens to the `i`-th of `n` components. */
  datatype ComponentParse = Phantom | Keep(seg: Segment) | DropSections | Invalid

  function ParseComponent(c: string, i: nat, n: nat): ComponentParse
  {
    if IsPhantomComponent(c) then Phantom
    else
      match LevelMatch(c)
      case Some((l, num, name)) =>
        Keep(TitleAppendix(i, Segment(l, Some(Replace(num, [EnDash], "-")), name, None)))
      case None =>
        match SecRest(c)
        case None => Keep(Segment(Heading, None, c, None))
        case Some(rest) => if rest != [] && i + 1 == n then DropSections else Invalid
  }

  /** The fate of every component of a split expcite, in order. */
  function Outcomes(parts: seq<string>): (r: seq<ComponentParse>)
    ensures |r| == |parts|
    ensures forall k :: 0 <= k < |parts| ==> r[k] == ParseComponent(parts[k], k, |parts|)
  {
    OutcomesBy(parts, ParseComponent)
  }

  /** The loop of `parse_expcite` from component `i` on, with `acc` the
      segments so far. */
  function Collect(outs: seq<ComponentParse>, i: nat, acc: seq<Segment>): Result<Option<seq<Segment>>>
    requires i <= |outs|
    decreases |outs| - i
  {
    if i == |outs| then Ok(Some(acc))
    else
      match outs[i]
      case Phantom => Ok(None)
      case Invalid => Err("Invalid expcite?")
      case DropSections => Ok(Some(acc))
      case Keep(seg) => Collect(outs, i + 1, acc + [seg])
  }

  /** `parse_expcite`: Ok(None) for a path through a phantom component,
      Ok(Some(path)) otherwise, or the exception it raises. */
  function ParseExpcite(expcite: string): Result<Option<seq<Segment>>>
  {
    Collect(Outcomes(Split(expcite, Separator)), 0, [])
  }

  /** The outcomes before `j` all keep their component. */
  predicate KeptBefore(outs: seq<ComponentParse>, j: nat)
    requires j <= |outs|
  {
    forall k :: 0 <= k < j ==> outs[k].Keep?
  }

  /** The segments of the first `j` outcomes, all kept. */
  function Kept(outs: seq<ComponentParse>, j: nat): (r: seq<Segment>)
    requires j <= |outs| && KeptBefore(outs, j)
    ensures |r| == j
    ensures forall k :: 0 <= k < j ==> r[k] == outs[k].seg
  {
    if j == 0 then [] else Kept(outs, j - 1) + [outs[j - 1].seg]
  }

  /** The outcome of a whole path is decided by its first component that is
      not kept: a phantom one voids the path, a `Sec.` one (necessarily the
      last) is dropped, anything else raises; when every component is kept the
      path is their segments in order. */
  lemma {:induction false} CollectFirstStop(outs: seq<ComponentParse>, i: nat, j: nat)
    requires i <= j <= |outs| && KeptBefore(outs, j)
    requires j < |outs| ==> !outs[j].Keep?
    ensures Collect(outs, i, Kept(outs, i)) ==
      if j == |outs| then Ok(Some(Kept(outs, j)))
      else match outs[j]
        case Phantom => Ok(None)
        case DropSections => Ok(Some(Kept(outs, j)))
        case _ => Err("Invalid expcite?")
    decreases j - i
  {
    if i < j {
      assert Kept(outs, i) + [outs[i].seg] == Kept(outs, i + 1);
      CollectFirstStop(outs, i + 1, j);
    }
  }

  /** The first outcome from `i` on that does not keep its component, or the
      number of outcomes. */
  function FirstStop(outs: seq<ComponentParse>, i: nat): (j: nat)
    requires i <= |outs| && KeptBefore(outs, i)
    ensures i <= j <= |outs| && KeptBefore(outs, j)
    ensures j < |outs| ==> !outs[j].Keep?
    decreases |outs| - i
  {
    if i == |outs| || !outs[i].Keep? then i else FirstStop(outs, i + 1)
  }

  /** A path through a phantom component is void, unless an earlier
      component stops the loop first; a path that is returned has no phantom. */
  lemma CollectPhantom(outs: seq<ComponentParse>)
    requires forall k :: 0 <= k < |outs| && outs[k] == DropSections ==> k == |outs| - 1
    ensures var r := Collect(outs, 0, []);
      (r.Ok? && r.value.Some? ==> forall k :: 0 <= k < |outs| ==> outs[k] != Phantom) &&
      (r == Ok(None) <==> exists k :: 0 <= k < |outs| && outs[k] == Phantom && KeptBefore(outs, k))
  {
    var j := FirstStop(outs, 0);
    CollectFirstStop(outs, 0, j);
    assert Kept(outs, 0) == [];
    forall k | 0 <= k < |outs| && outs[k] == Phantom && KeptBefore(outs, k)
      ensures j == k
    {
    }
  }

  /** An expcite yields a path only if none of its components is a phantom,
      and a phantom component voids the path unless an earlier component
      raises first. (`parts` are the components of the split expcite.) */
  lemma ExpcitePhantom(parts: seq<string>)
    ensures var r := Collect(Outcomes(parts), 0, []);
      (r.Ok? && r.value.Some? ==> forall k :: 0 <= k < |parts| ==> !IsPhantomComponent(parts[k])) &&
      (r == Ok(None) <==> exists k :: 0 <= k < |parts| && IsPhantomComponent(parts[k]) && KeptBefore(Outcomes(parts), k))
  {
    var outs := Outcomes(parts);
    forall k | 0 <= k < |parts|
      ensures outs[k] == Phantom <==> IsPhantomComponent(parts[k])
      ensures outs[k] == DropSections ==> k == |outs| - 1
    {
      PhantomOutcome(parts[k], k, |parts|);
    }
    CollectPhantom(outs);
    var r := Collect(outs, 0, []);
    if r == Ok(None) {
      var k :| 0 <= k < |outs| && outs[k] == Phantom && KeptBefore(outs, k);
      assert IsPhantomComponent(parts[k]);
    }
  }

  /** Exactly the phantom components are reported as such. */
  lemma PhantomOutcome(c: string, i: nat, n: nat)
    ensures ParseComponent(c, i, n) == Phantom <==> IsPhantomComponent(c)
    ensures ParseComponent(c, i, n) == DropSections ==> i + 1 == n
  {
  }

  /** The path of an expcite lists its kept components in order, one segment
      each, without citations and never at section level; only a last `Sec.`
      component may be missing from it. */
  lemma ExpcitePath(expcite: string)
    ensures var parts := Split(expcite, Separator); var r := ParseExpcite(expcite);
      r.Ok? && r.value.Some? ==>
        var segs := r.value.value;
        (|segs| == |parts| || (|segs| == |parts| - 1 && ParseComponent(parts[|segs|], |segs|, |parts|) == DropSections)) &&
        (forall k :: 0 <= k < |segs| ==> ParseComponent(parts[k], k, |parts|) == Keep(segs[k])) &&
        (forall k :: 0 <= k < |segs| ==> segs[k].citation == None && segs[k].level != Section)
  {
    var parts := Split(expcite, Separator);
    var outs := Outcomes(parts);
    CollectShape(outs);
    var r := Collect(outs, 0, []);
    if r.Ok? && r.value.Some? {
      var segs := r.value.value;
      if |segs| < |parts| {
        PhantomOutcome(parts[|segs|], |segs|, |parts|);
      }
      forall k | 0 <= k < |segs| ensures segs[k].citation == None && segs[k].level != Section {
        KeptSegmentShape(parts[k], k, |parts|);
      }
    }
  }

  /** A path that is returned is the segments of its leading kept outcomes:
      all of them, or those before a dropped one. */
  lemma CollectShape(outs: seq<ComponentParse>)
    ensures var r := Collect(outs, 0, []);
      r.Ok? && r.value.Some? ==>
        var segs := r.value.value;
        (|segs| == |outs| || (|segs| < |outs| && outs[|segs|] == DropSections)) &&
        (forall k :: 0 <= k < |segs| ==> outs[k] == Keep(segs[k]))
  {
    var j := FirstStop(outs, 0);
    CollectFirstStop(outs, 0, j);
    assert Kept(outs, 0) == [];
  }

  /** A kept component never carries a citation and is never a section. */
  lemma KeptSegmentShape(c: string, i: nat, n: nat)
    requires ParseComponent(c, i, n).Keep?
    ensures ParseComponent(c, i, n).seg.citation == None
    ensures ParseComponent(c, i, n).seg.level != Section
  {
  }

  /** The level words have no space and no upper-case letter. */
  lemma LevelNamePlain(l: Level, k: nat)
    requires k < |LevelName(l)|
    ensures LevelName(l)[k] != ' ' && !IsUpperAscii(LevelName(l)[k])
  {
  }

  /** At most one level word labels a component. */
  lemma LabelUnique(c: string, l: Level, m: Level)
    requires LabelledBy(c, l) && LabelledBy(c, m)
    ensures l == m
  {
    var w, v := LevelName(l), LevelName(m);
    SpaceAfterLabel(c, l);
    SpaceAfterLabel(c, m);
    assert |w| == |v|;
    assert w == Lower(c[..|w|]) == v;
    LevelNameInjective(l, m);
  }

  /** A label's word is followed by the first space of the component. */
  lemma SpaceAfterLabel(c: string, l: Level)
    requires LabelledBy(c, l)
    ensures c[|LevelName(l)|] == ' '
    ensures forall k :: 0 <= k < |LevelName(l)| ==> c[k] != ' '
  {
    var w := LevelName(l);
    forall k | 0 <= k < |w| ensures c[k] != ' ' {
      LevelNamePlain(l, k);
      assert w[k] == Lower(c[..|w|])[k] == LowerChar(c[k]);
    }
  }

  /** A component labelled by a level word is recognised as that level. */
  lemma LevelLabelOf(c: string, l: Level)
    requires l in {Title, Subtitle, Chapter, Subchapter, Part, Subpart, Division}
    requires LabelledBy(c, l)
    ensures LevelLabel(c) == Some(l)
  {
    forall m | LabelledBy(c, m) ensures m == l { LabelUnique(c, l, m); }
  }

  /** `LEVELWORD NUMBER-NAME` (the word in lower case) with a non-empty,
      hyphen-free number splits into level, number and name. */
  lemma LevelMatchOf(l: Level, num: string, name: string)
    requires l in {Title, Subtitle, Chapter, Subchapter, Part, Subpart, Division}
    requires num != [] && '-' !in num
    ensures LevelMatch(LevelName(l) + " " + num + "-" + name) == Some((l, num, name))
  {
    var rest := num + "-" + name;
    var c := LevelName(l) + " " + rest;
    WordThenRest(LevelName(l), num, name);
    LabelledByName(l, rest);
    LevelLabelOf(c, l);
    FindFirstHyphen(num, name);
    LevelMatchFrom(c, l, |num|);
  }

  /** The slices `LevelMatch` takes of a well-formed component. */
  lemma WordThenRest(w: string, num: string, name: string)
    ensures var rest := num + "-" + name;
      w + " " + rest == w + " " + num + "-" + name &&
      (w + " " + rest)[|w| + 1..] == rest &&
      rest[..|num|] == num && rest[|num| + 1..] == name
  {
  }

  /** `LevelMatch` once the level and the hyphen are found. */
  lemma LevelMatchFrom(c: string, l: Level, k: nat)
    requires LevelLabel(c) == Some(l) && k > 0
    requires Find(c[|LevelName(l)| + 1..], "-") == Some(k)
    ensures var rest := c[|LevelName(l)| + 1..];
      LevelMatch(c) == Some((l, rest[..k], rest[k + 1..]))
  {
  }

  /** A level word, a space and any text is labelled by that level. */
  lemma LabelledByName(l: Level, rest: string)
    ensures LabelledBy(LevelName(l) + " " + rest, l)
  {
    var w := LevelName(l);
    var c := w + " " + rest;
    assert c[..|w|] == w;
    forall k | 0 <= k < |w| ensures !IsUpperAscii(w[k]) { LevelNamePlain(l, k); }
    LowerOfLower(w);
  }

  /** The first hyphen of `num-name`, when `num` has none, follows `num`. */
  lemma FindFirstHyphen(num: string, name: string)
    requires '-' !in num
    ensures Find(num + "-" + name, "-") == Some(|num|)
  {
    var rest := num + "-" + name;
    assert OccursAt(rest, "-", |num|);
    forall k: nat | k < |num| ensures !OccursAt(rest, "-", k) {
      assert rest[k] == num[k];
    }
    assert Find(rest, "-") == Some(|num|);
  }

  /** A labelled component gives (level, number with en-dashes made hyphens,
      name) - except for a title in first position, which may be an appendix. */
  lemma LevelComponent(l: Level, num: string, name: string, i: nat, n: nat)
    requires l in {Title, Subtitle, Chapter, Subchapter, Part, Subpart, Division}
    requires num != [] && '-' !in num
    requires i > 0 || l != Title
    requires !IsPhantomComponent(LevelName(l) + " " + num + "-" + name)
    ensures ParseComponent(LevelName(l) + " " + num + "-" + name, i, n) ==
      Keep(Segment(l, Some(Replace(num, [EnDash], "-")), name, None))
  {
    LevelMatchOf(l, num, name);
  }

  /** The level words are already lower case. */
  lemma LowerOfLower(w: string)
    requires forall k :: 0 <= k < |w| ==> !IsUpperAscii(w[k])
    ensures Lower(w) == w
  {
  }

  /** A pattern whose first character does not appear before it is
      replaced at the end only. */
  lemma {:induction false} ReplaceAtEnd(head: string, pat: string, rep: string)
    requires pat != [] && forall k :: 0 <= k < |head| ==> head[k] != pat[0]
    ensures Replace(head + pat, pat, rep) == head + rep
    decreases |head|
  {
    var s := head + pat;
    if head == [] {
      assert s == pat;
      ReplaceAtFront(s, pat, rep);
      assert s[|pat|..] == [];
    } else {
      NoMatchAtFront(head, pat);
      ReplaceKeepsHead(s, pat, rep);
      ReplaceAtEnd(head[1..], pat, rep);
      ConsTail(head, rep);
    }
  }

  lemma NoMatchAtFront(head: string, pat: string)
    requires head != [] && pat != [] && head[0] != pat[0]
    ensures var s := head + pat;
      !OccursAt(s, pat, 0) && s[0] == head[0] && s[1..] == head[1..] + pat
  {
    var s := head + pat;
    assert s[..|pat|][0] == head[0];
  }

  lemma ConsTail(head: string, rep: string)
    requires head != []
    ensures [head[0]] + (head[1..] + rep) == head + rep
  {
  }

  lemma AppendixReplace()
    ensures Replace("11, APPENDIX", ", APPENDIX", "a") == "11a"
  {
    assert "11, APPENDIX" == "11" + ", APPENDIX";
    ReplaceAtEnd("11", ", APPENDIX", "a");
  }

  /** `11, APPENDIX` names the appendix of title 11: number `11a`, and the
      name is marked ` (APPENDIX)`. */
  lemma AppendixNumberForm(name: string)
    ensures TitleAppendix(0, Segment(Title, Some("11, APPENDIX"), name, None)) ==
      Segment(Title, Some("11a"), name + " (APPENDIX)", None)
  {
    AppendixReplace();
    AppendixContains();
  }

  lemma AppendixContains()
    ensures Contains("11, APPENDIX", ", APPENDIX")
  {
    assert OccursAt("11, APPENDIX", ", APPENDIX", 2);
  }

  /** A title named `APPENDIX` gets an `a` added to its number, but only as
      the first component. */
  lemma AppendixNameForm(num: string)
    requires !Contains(num, ", APPENDIX")
    ensures TitleAppendix(0, Segment(Title, Some(num), "APPENDIX", None)) == Segment(Title, Some(num + "a"), "APPENDIX", None)
    ensures TitleAppendix(1, Segment(Title, Some(num), "APPENDIX", None)) == Segment(Title, Some(num), "APPENDIX", None)
  {
  }

  /** A `Sec.` component is dropped when it is last and raises anywhere else;
      any text that is neither labelled nor a phantom becomes a heading. */
  lemma SectionAndHeadingComponents(c: string, i: nat, n: nat)
    requires !IsPhantomComponent(c) && LevelMatch(c).None?
    ensures SecRest(c).Some? && SecRest(c).value != [] ==>
      (ParseComponent(c, i, n) == DropSections <==> i + 1 == n) &&
      (ParseComponent(c, i, n) == Invalid <==> i + 1 != n)
    ensures SecRest(c).None? ==> ParseComponent(c, i, n) == Keep(Segment(Heading, None, c, None))
    ensures SecRest(c) == Some([]) ==> ParseComponent(c, i, n) == Invalid
  {
  }

  // ---------------------------------------------------------------------------
  // The in-place rewriting loop of parse_expcite
  // ---------------------------------------------------------------------------

  /** An entry of the list being rewritten: still text, or already parsed. */
  datatype Component = Raw(text: string) | Parsed(seg: Segment)

  function Segments(path: seq<Component>): (r: seq<Segment>)
    requires forall k :: 0 <= k < |path| ==> path[k].Parsed?
    ensures |r| == |path| && forall k :: 0 <= k < |path| ==> r[k] == path[k].seg
  {
    if path == [] then [] else Segments(path[..|path| - 1]) + [path[|path| - 1].seg]
  }

  /** Only the last component can be a dropped `Sec.` entry. */
  lemma DropSectionsLast(c: string, i: nat, n: nat)
    requires ParseComponent(c, i, n) == DropSections
    ensures i + 1 == n
  {
  }

  /** `parse_expcite` as written: each component is replaced by its tuple in
      place, a trailing `Sec.` entry is popped, a phantom voids the path. */
  method ParseExpciteInPlace(expcite: string) returns (r: Result<Option<seq<Segment>>>)
    ensures r == ParseExpcite(expcite)
  {
    var parts := Split(expcite, Separator);
    forall c, i, n | ParseComponent(c, i, n) == DropSections ensures i + 1 == n {
      DropSectionsLast(c, i, n);
    }
    r := RewritePath(parts, ParseComponent);
  }

  /** The fate of every component under the component parser `parse`. */
  function OutcomesBy(parts: seq<string>, parse: (string, nat, nat) -> ComponentParse): (r: seq<ComponentParse>)
    ensures |r| == |parts|
    ensures forall k :: 0 <= k < |parts| ==> r[k] == parse(parts[k], k, |parts|)
  {
    seq(|parts|, k requires 0 <= k < |parts| => parse(parts[k], k, |parts|))
  }

  /** The loop of `parse_expcite` over the split components, rewriting the
      list in place with the parser `parse`, which drops only the last one. */
  method RewritePath(parts: seq<string>, parse: (string, nat, nat) -> ComponentParse)
    returns (r: Result<Option<seq<Segment>>>)
    requires forall c, i, n :: parse(c, i, n) == DropSections ==> i + 1 == n
    ensures r == Collect(OutcomesBy(parts, parse), 0, [])
  {
    ghost var outs := OutcomesBy(parts, parse);
    var path: seq<Component> := seq(|parts|, k requires 0 <= k < |parts| => Raw(parts[k]));
    var n := |path|;
    var i := 0;
    while i < n
      invariant 0 <= i <= n == |parts| == |path| == |outs|
      invariant forall k :: 0 <= k < i ==> path[k].Parsed?
      invariant Collect(outs, 0, []) == Collect(outs, i, Segments(path[..i]))
    {
      var o := parse(parts[i], i, n);
      assert o == outs[i];
      match o {
        case Phantom =>
          return Ok(None);
        case Invalid =>
          return Err("Invalid expcite?");
        case DropSections =>
          path := path[..n - 1];
          assert path == path[..i];
          return Ok(Some(Segments(path)));
        case Keep(seg) =>
          path := path[i := Parsed(seg)];
          assert Segments(path[..i + 1]) == Segments(path[..i]) + [seg];
      }
      i := i + 1;
    }
    assert path[..i] == path;
    r := Ok(Some(Segments(path)));
  }

  // ---------------------------------------------------------------------------
  // parse_h3: the section heading
  // ---------------------------------------------------------------------------

  /** What may follow `. ` in a placeholder heading. */
  predicate PlaceholderTail(t: string)
  {
    StartsWith(t, "Repealed") ||
    t == "Transferred" || StartsWith(t, "Transferred.") ||
    t == "Omitted" || StartsWith(t, "Omitted.")
  }

  /** `§`/`§§`, then text, then `. Repealed...`, `. Transferred` or
      `. Omitted` (each at the end or followed by a period). */
  predicate IsPlaceholderHeading(h3: string)
  {
    |h3| >= 1 && h3[0] == SectionSign &&
    exists j: nat | 1 <= j <= |h3| :: OccursAt(h3, ". ", j) && PlaceholderTail(h3[j + 2..])
  }

  /** A section number can end at `k`: the heading continues with ` ` or `. `. */
  predicate NumberEndsAt(h: string, k: nat)
  {
    k < |h| && (h[k] == ' ' || (h[k] == '.' && k + 1 < |h| && h[k + 1] == ' '))
  }

  /** The first position from `k` on where a section number can end. */
  function FirstNumberEnd(h: string, k: nat): (r: Option<nat>)
    requires k <= |h|
    ensures r.Some? ==> k <= r.value && NumberEndsAt(h, r.value) &&
                        forall m :: k <= m < r.value ==> !NumberEndsAt(h, m)
    ensures r.None? ==> forall m :: k <= m < |h| ==> !NumberEndsAt(h, m)
    decreases |h| - k
  {
    if k == |h| then None
    else if NumberEndsAt(h, k) then Some(k)
    else FirstNumberEnd(h, k + 1)
  }

  /** `§(.*?)\.? (.*)`: the shortest number after the section sign that is
      followed by ` ` or `. `, and the rest as the name. */
  function SplitHeading(h: string): (r: Option<(string, string)>)
    ensures r.Some? ==> |h| >= 1 && h[0] == SectionSign &&
                        (h == [SectionSign] + r.value.0 + " " + r.value.1 || h == [SectionSign] + r.value.0 + ". " + r.value.1)
  {
    if |h| == 0 || h[0] != SectionSign then None
    else
      match FirstNumberEnd(h, 1)
      case None => None
      case Some(k) =>
        if h[k] == ' ' then
          assert h == [h[0]] + h[1..k] + " " + h[k + 1..];
          Some((h[1..k], h[k + 1..]))
        else
          assert h == [h[0]] + h[1..k] + ". " + h[k + 2..];
          Some((h[1..k], h[k + 2..]))
  }

  /** A heading `§NUMBER. NAME` or `§NUMBER NAME` whose number has no space
      (and, in the second form, does not end with a period) splits back into
      that number and name. */
  lemma SplitHeadingRoundTrip(num: string, name: string, dotted: bool)
    requires ' ' !in num
    requires !dotted ==> num == [] || num[|num| - 1] != '.'
    ensures SplitHeading([SectionSign] + num + (if dotted then ". " else " ") + name) == Some((num, name))
  {
    var h := [SectionSign] + num + (if dotted then ". " else " ") + name;
    forall m | 1 <= m < |num| + 1 ensures !NumberEndsAt(h, m) {
      assert h[m] == num[m - 1];
      if m < |num| { assert h[m + 1] == num[m]; }
    }
    assert NumberEndsAt(h, |num| + 1);
    var r := FirstNumberEnd(h, 1);
    assert r == Some(|num| + 1);
    assert h[1..|num| + 1] == num;
    if dotted { assert h[|num| + 3..] == name; } else { assert h[|num| + 2..] == name; }
  }

  /** `citation_for`: `usc/<title without one leading 0>/<number>`. */
  function CitationFor(title: string, number: string): (r: string)
    ensures StartsWith(title, "0") ==> r == "usc/" + title[1..] + "/" + number
    ensures !StartsWith(title, "0") ==> r == "usc/" + title + "/" + number
  {
    var t := if StartsWith(title, "0") then title[1..] else title;
    "usc/" + t + "/" + number
  }

  /** A citation splits back into its parts at the slashes. */
  lemma CitationParts(title: string, number: string)
    requires '/' !in title && '/' !in number && !StartsWith(title, "0")
    ensures Split(CitationFor(title, number), "/") == ["usc", title, number]
  {
    var parts := ["usc", title, number];
    assert Join(parts, "/") == CitationFor(title, number) by {
      assert parts[1..][1..] == [number];
      assert Join(parts[1..][1..], "/") == number;
      assert parts[1..] == [title, number];
      assert Join(parts[1..], "/") == title + "/" + number;
    }
    JoinSplit(parts, '/');
  }

  // ---------------------------------------------------------------------------
  // Inserting a path into the TOC forest
  // ---------------------------------------------------------------------------

  /** The path with, under `sections_only`, every level other than title and
      section skipped. */
  function Filtered(path: seq<Segment>, sectionsOnly: bool): (r: seq<Segment>)
    ensures |r| <= |path|
    ensures !sectionsOnly ==> r == path
    ensures forall k :: 0 <= k < |r| ==> r[k] in path
    ensures sectionsOnly ==> forall k :: 0 <= k < |r| ==> r[k].level == Title || r[k].level == Section
    ensures forall k :: 0 <= k < |path| && (!sectionsOnly || path[k].level == Title || path[k].level == Section) ==> path[k] in r
  {
    if path == [] then []
    else
      var keep := !sectionsOnly || path[0].level == Title || path[0].level == Section;
      var rest := Filtered(path[1..], sectionsOnly);
      assert forall k :: 1 <= k < |path| ==> path[k] == path[1..][k - 1];
      (if keep then [path[0]] else []) + rest
  }

  /** The walk down the last entries: append a new entry where the list is
      empty or its last segment differs, else descend into the last entry. */
  function InsertPath(forest: seq<TocNode>, ps: seq<Segment>): seq<TocNode>
    decreases ps
  {
    if ps == [] then forest
    else if forest == [] || forest[|forest| - 1].seg != ps[0] then
      forest + [TocNode(ps[0], InsertPath([], ps[1..]))]
    else
      forest[..|forest| - 1] + [TocNode(ps[0], InsertPath(forest[|forest| - 1].children, ps[1..]))]
  }

  /** The segments along the last entry at every depth. */
  function Spine(forest: seq<TocNode>): seq<Segment>
    decreases forest
  {
    if forest == [] then [] else [forest[|forest| - 1].seg] + Spine(forest[|forest| - 1].children)
  }

  /** `n` grows `o`: every old entry is still there, in place, and only the
      last one at each depth may have gained entries after its old ones. */
  predicate Extends(n: seq<TocNode>, o: seq<TocNode>)
    decreases o
  {
    o == [] ||
    (|o| <= |n| && n[..|o| - 1] == o[..|o| - 1] && n[|o| - 1].seg == o[|o| - 1].seg &&
     Extends(n[|o| - 1].children, o[|o| - 1].children))
  }

  function CountAll(ns: seq<TocNode>): nat
    decreases ns
  {
    if ns == [] then 0 else 1 + CountAll(ns[0].children) + CountAll(ns[1..])
  }

  /** After insertion the path is the start of the last-entry spine. */
  lemma {:induction false} InsertPathSpine(forest: seq<TocNode>, ps: seq<Segment>)
    ensures ps <= Spine(InsertPath(forest, ps))
    decreases ps
  {
    if ps != [] {
      var r := InsertPath(forest, ps);
      if forest == [] || forest[|forest| - 1].seg != ps[0] {
        InsertPathSpine([], ps[1..]);
      } else {
        InsertPathSpine(forest[|forest| - 1].children, ps[1..]);
      }
      assert Spine(r) == [ps[0]] + Spine(r[|r| - 1].children);
    }
  }

  /** Insertion never removes or reorders an existing entry. */
  lemma {:induction false} InsertPathExtends(forest: seq<TocNode>, ps: seq<Segment>)
    ensures Extends(InsertPath(forest, ps), forest)
    decreases ps
  {
    if ps == [] {
      ExtendsReflexive(forest);
    } else if forest == [] || forest[|forest| - 1].seg != ps[0] {
      var r := InsertPath(forest, ps);
      if forest != [] {
        assert r[..|forest|] == forest;
        ExtendsReflexive(forest[|forest| - 1].children);
      }
    } else {
      InsertPathExtends(forest[|forest| - 1].children, ps[1..]);
    }
  }

  lemma {:induction false} ExtendsReflexive(f: seq<TocNode>)
    ensures Extends(f, f)
    decreases f
  {
    if f != [] { ExtendsReflexive(f[|f| - 1].children); }
  }

  /** A path that already lies along the last-entry spine adds nothing. */
  lemma {:induction false} InsertPathPresent(forest: seq<TocNode>, ps: seq<Segment>)
    requires ps <= Spine(forest)
    ensures InsertPath(forest, ps) == forest
    decreases ps
  {
    if ps != [] {
      var last := forest[|forest| - 1];
      assert Spine(forest)[1..] == Spine(last.children);
      InsertPathPresent(last.children, ps[1..]);
      assert forest == forest[..|forest| - 1] + [TocNode(ps[0], last.children)];
    }
  }

  /** Inserting the same path twice is the same as inserting it once. */
  lemma InsertPathIdempotent(forest: seq<TocNode>, ps: seq<Segment>)
    ensures InsertPath(InsertPath(forest, ps), ps) == InsertPath(forest, ps)
  {
    InsertPathSpine(forest, ps);
    InsertPathPresent(InsertPath(forest, ps), ps);
  }

  lemma {:induction false} CountAllAppend(a: seq<TocNode>, b: seq<TocNode>)
    ensures CountAll(a + b) == CountAll(a) + CountAll(b)
    decreases a
  {
    if a != [] {
      assert (a + b)[0] == a[0];
      assert (a + b)[1..] == a[1..] + b;
      CountAllAppend(a[1..], b);
    } else {
      assert a + b == b;
    }
  }

  lemma CountAllSplitLast(f: seq<TocNode>)
    requires f != []
    ensures CountAll(f) == CountAll(f[..|f| - 1]) + 1 + CountAll(f[|f| - 1].children)
  {
    CountAllAppend(f[..|f| - 1], [f[|f| - 1]]);
    assert f == f[..|f| - 1] + [f[|f| - 1]];
  }

  /** Insertion adds at most one entry per segment of the path. */
  lemma {:induction false} InsertPathCount(forest: seq<TocNode>, ps: seq<Segment>)
    ensures CountAll(forest) <= CountAll(InsertPath(forest, ps)) <= CountAll(forest) + |ps|
    decreases ps
  {
    if ps != [] {
      var r := InsertPath(forest, ps);
      CountAllSplitLast(r);
      if forest == [] || forest[|forest| - 1].seg != ps[0] {
        InsertPathCount([], ps[1..]);
        assert r[..|r| - 1] == forest;
      } else {
        InsertPathCount(forest[|forest| - 1].children, ps[1..]);
        CountAllSplitLast(forest);
        assert r[..|r| - 1] == forest[..|forest| - 1];
      }
    }
  }

  /** Every entry of the forest, at any depth, satisfies `ok`. */
  predicate AllNodes(ns: seq<TocNode>, ok: Segment -> bool)
    decreases ns
  {
    forall k :: 0 <= k < |ns| ==> ok(ns[k].seg) && AllNodes(ns[k].children, ok)
  }

  /** A property of every inserted segment holds of the whole forest after. */
  lemma {:induction false} InsertPathAllNodes(forest: seq<TocNode>, ps: seq<Segment>, ok: Segment -> bool)
    requires AllNodes(forest, ok)
    requires forall k :: 0 <= k < |ps| ==> ok(ps[k])
    ensures AllNodes(InsertPath(forest, ps), ok)
    decreases ps
  {
    if ps != [] {
      assert forall k :: 0 <= k < |ps| - 1 ==> ps[1..][k] == ps[k + 1];
      if forest == [] || forest[|forest| - 1].seg != ps[0] {
        InsertPathAllNodes([], ps[1..], ok);
      } else {
        InsertPathAllNodes(forest[|forest| - 1].children, ps[1..], ok);
      }
    }
  }

  /** `parse_h3`: placeholders change nothing; otherwise the section is added
      to the path and the path merged into the TOC, or the heading does not
      parse. */
  function ParseH3(path: seq<Segment>, h3: string, toc: seq<TocNode>, title: string, sectionsOnly: bool): Result<seq<TocNode>>
  {
    if IsPlaceholderHeading(h3) then Ok(toc)
    else
      var dashed := Replace(h3, [EnDash], "-");
      match SplitHeading(dashed)
      case None => Err("Could not parse: " + dashed)
      case Some((number, name)) =>
        var section := Segment(Section, Some(number), name, Some(CitationFor(title, number)));
        Ok(InsertPath(toc, Filtered(path + [section], sectionsOnly)))
  }

  /** A parsed heading adds its section (with its citation) at the end of the
      spine, below the filtered path, and keeps every entry already there. */
  lemma ParseH3Inserts(path: seq<Segment>, h3: string, toc: seq<TocNode>, title: string, sectionsOnly: bool)
    requires ParseH3(path, h3, toc, title, sectionsOnly).Ok?
    ensures var r := ParseH3(path, h3, toc, title, sectionsOnly).value;
      Extends(r, toc) && CountAll(r) <= CountAll(toc) + |path| + 1 &&
      (IsPlaceholderHeading(h3) ==> r == toc) &&
      (!IsPlaceholderHeading(h3) ==>
        var (number, name) := SplitHeading(Replace(h3, [EnDash], "-")).value;
        Filtered(path, sectionsOnly) + [Segment(Section, Some(number), name, Some(CitationFor(title, number)))] <= Spine(r))
  {
    if IsPlaceholderHeading(h3) {
      ExtendsReflexive(toc);
    } else {
      var (number, name) := SplitHeading(Replace(h3, [EnDash], "-")).value;
      var section := Segment(Section, Some(number), name, Some(CitationFor(title, number)));
      var ps := Filtered(path + [section], sectionsOnly);
      InsertPathExtends(toc, ps);
      InsertPathCount(toc, ps);
      InsertPathSpine(toc, ps);
      FilteredAppend(path, section, sectionsOnly);
    }
  }

  lemma {:induction false} FilteredAppend(path: seq<Segment>, s: Segment, sectionsOnly: bool)
    requires s.level == Section
    ensures Filtered(path + [s], sectionsOnly) == Filtered(path, sectionsOnly) + [s]
    decreases path
  {
    if path == [] {
      assert Filtered([s], sectionsOnly) == [s] + Filtered([], sectionsOnly);
    } else {
      assert (path + [s])[1..] == path[1..] + [s];
      FilteredAppend(path[1..], s, sectionsOnly);
    }
  }

  // ---------------------------------------------------------------------------
  // reformat_structure
  // ---------------------------------------------------------------------------

  /** `reformat_structure` over a list of entries. */
  function ReformatAll(ns: seq<TocNode>): (r: seq<Entry>)
    ensures |r| == |ns|
    decreases ns
  {
    if ns == [] then []
    else
      var n := ns[0];
      var kids := ReformatAll(n.children);
      [Entry(n.seg.level, n.seg.number, n.seg.name,
             if n.seg.level == Section then n.seg.citation else None,
             kids)] + ReformatAll(ns[1..])
  }

  /** Reading an emitted entry back as a TOC entry. */
  function UnformatAll(es: seq<Entry>): (r: seq<TocNode>)
    ensures |r| == |es|
    decreases es
  {
    if es == [] then []
    else
      var e := es[0];
      [TocNode(Segment(e.level, e.number, e.name, e.citation), UnformatAll(e.subparts))] + UnformatAll(es[1..])
  }

  /** A segment carries a citation exactly when it is a section. */
  predicate CitedIffSection(s: Segment)
  {
    s.citation.Some? <==> s.level == Section
  }

  /** Nothing is lost by reformatting: when exactly the sections carry
      citations, reading the output back gives the TOC. */
  lemma {:induction false} ReformatRoundTrip(ns: seq<TocNode>)
    requires AllNodes(ns, CitedIffSection)
    ensures UnformatAll(ReformatAll(ns)) == ns
    decreases ns
  {
    if ns != [] {
      ReformatRoundTrip(ns[0].children);
      assert AllNodes(ns[1..], CitedIffSection) by {
        forall k | 0 <= k < |ns| - 1 ensures ns[1..][k] == ns[k + 1] { }
      }
      ReformatRoundTrip(ns[1..]);
    }
  }

  /** Only sections get a `citation`, and `subparts` appear exactly where
      there are children, one per child. */
  lemma ReformatFields(ns: seq<TocNode>, k: nat)
    requires k < |ns|
    ensures var e := ReformatAll(ns)[k];
      (e.citation.Some? ==> e.level == Section) &&
      |e.subparts| == |ns[k].children| &&
      e.level == ns[k].seg.level && e.number == ns[k].seg.number && e.name == ns[k].seg.name
    decreases k
  {
    if k > 0 { ReformatFields(ns[1..], k - 1); }
  }

  // ---------------------------------------------------------------------------
  // The run over the title files
  // ---------------------------------------------------------------------------

  /** A child of the page's `body/div`: a comment (its text between `<!--`
      and `-->`), or an element with its tag and text content. */
  datatype Node = Comment(text: string) | Element(tag: string, content: string)

  datatype Document = Document(filename: string, nodes: seq<Node>)

  /** The scanning state: the pending path and the TOC so far. */
  datatype ScanState = ScanState(path: Option<seq<Segment>>, toc: seq<TocNode>)

  /** The payload of `<!-- expcite:PAYLOAD -->`: the text after `expcite:`
      without trailing whitespace, which must not be empty. Only whitespace
      follows the payload, and there is none when nothing but whitespace
      follows `expcite:`. */
  function ExpcitePayload(text: string): (r: Option<string>)
    ensures r.Some? ==> r.value != [] && !IsSpace(r.value[|r.value| - 1]) && StartsWith(text, " expcite:" + r.value)
    ensures r.Some? ==> forall k :: 9 + |r.value| <= k < |text| ==> IsSpace(text[k])
    ensures r.None? <==> !StartsWith(text, " expcite:") || forall k :: 9 <= k < |text| ==> IsSpace(text[k])
  {
    var prefix := " expcite:";
    if StartsWith(text, prefix) && RStrip(text[|prefix|..]) != [] then
      var p := RStrip(text[|prefix|..]);
      assert text[..|prefix| + |p|] == prefix + p;
      Some(p)
    else None
  }

  /** The title named by a file `...usc<digits>[a].htm` (any case), if any. */
  function TitleOfFile(fn: string): (r: Option<string>)
    ensures r.Some? ==> |r.value| >= 1 && IsDigit(r.value[0])
  {
    if |fn| < 4 || Lower(fn[|fn| - 4..]) != ".htm" then None
    else TitleOfName(fn[..|fn| - 4])
  }

  /** The title named by a file name without its `.htm`: the digits after
      `usc` at the end, with a final `a` or `A` kept after them. */
  function TitleOfName(body: string): (r: Option<string>)
    ensures r.Some? ==> |r.value| >= 1 && IsDigit(r.value[0])
  {
    var suffix := if body != [] && (body[|body| - 1] == 'a' || body[|body| - 1] == 'A') then 1 else 0;
    var stem := body[..|body| - suffix];
    var d := UscDigits(stem);
    if d == 0 then None
    else
      assert body[|stem| - d..][0] == stem[|stem| - d..][0];
      Some(body[|stem| - d..])
  }

  /** The number of digits ending `stem` when `usc` (any case) comes right
      before them; 0 when they are missing or something else precedes them. */
  function UscDigits(stem: string): (d: nat)
    ensures d <= |stem| && AllDigits(stem[|stem| - d..])
  {
    var d := TrailingDigits(stem);
    if d == 0 || |stem| - d < 3 || Lower(stem[|stem| - d - 3..|stem| - d]) != "usc" then 0
    else d
  }

  /** The length of the run of digits at the end of `s`. */
  function TrailingDigits(s: string): (r: nat)
    ensures r <= |s| && AllDigits(s[|s| - r..])
    ensures r < |s| ==> !IsDigit(s[|s| - r - 1])
  {
    if s == [] || !IsDigit(s[|s| - 1]) then 0
    else
      var r := TrailingDigits(s[..|s| - 1]) + 1;
      assert s[|s| - r..] == s[..|s| - 1][|s| - r..] + [s[|s| - 1]];
      r
  }

  /** The digit run after a non-digit is exactly the digits. */
  lemma TrailingDigitsAfter(head: string, digits: string)
    requires head != [] && !IsDigit(head[|head| - 1]) && AllDigits(digits)
    ensures TrailingDigits(head + digits) == |digits|
  {
    var s := head + digits;
    var d := TrailingDigits(s);
    forall m | |s| - d <= m < |s| ensures IsDigit(s[m]) {
      assert s[m] == s[|s| - d..][m - (|s| - d)];
    }
    forall m | |head| <= m < |s| ensures IsDigit(s[m]) {
      assert s[m] == digits[m - |head|];
    }
    assert s[|head| - 1] == head[|head| - 1];
  }

  /** Reading the title from a file named `...usc<digits>.htm` or
      `...usc<digits>a.htm` gives those digits (and the `a`). */
  lemma TitleOfFileRoundTrip(dir: string, digits: string, appendix: bool)
    requires digits != [] && AllDigits(digits)
    ensures TitleOfFile(dir + "usc" + digits + (if appendix then "a" else "") + ".htm") ==
      Some(digits + (if appendix then "a" else ""))
  {
    var a := if appendix then "a" else "";
    var fn := dir + "usc" + digits + a + ".htm";
    var stem := dir + "usc" + digits;
    assert fn[|fn| - 4..] == ".htm" && fn[..|fn| - 4] == stem + a;
    LowerOfLower(".htm");
    UscStem(dir, digits);
    TitleOfNameOf(stem, |digits|, a);
    assert stem[|stem| - |digits|..] == digits;
  }

  /** A stem ending in `usc` and `d` digits, with an optional `a`, names
      those digits (and the `a`). */
  lemma TitleOfNameOf(stem: string, d: nat, a: string)
    requires 0 < d <= |stem| && UscDigits(stem) == d
    requires a == [] || a == "a"
    ensures TitleOfName(stem + a) == Some(stem[|stem| - d..] + a)
  {
    var body := stem + a;
    assert stem[|stem| - d..][d - 1] == stem[|stem| - 1];
    if a == [] {
      assert body[..|body| - 0] == stem;
    } else {
      assert body[|body| - 1] == 'a';
      assert body[..|body| - 1] == stem;
    }
    assert body[|stem| - d..] == stem[|stem| - d..] + a;
  }

  /** In `...usc<digits>` the trailing digits are exactly `digits`, preceded
      by `usc`. */
  lemma UscStem(dir: string, digits: string)
    requires digits != [] && AllDigits(digits)
    ensures UscDigits(dir + "usc" + digits) == |digits|
  {
    var stem := dir + "usc" + digits;
    TrailingDigitsAfter(dir + "usc", digits);
    assert stem[|stem| - |digits| - 3..|stem| - |digits|] == "usc";
    LowerOfLower("usc");
  }

  /** What one node does to the scanning state. */
  function ScanNode(st: ScanState, node: Node, title: string, unescape: string -> string, sectionsOnly: bool): Result<ScanState>
  {
    match node
    case Comment(text) =>
      (match ExpcitePayload(text)
       case None => Ok(st)
       case Some(payload) =>
         match ParseExpcite(unescape(Replace(payload, "&nbsp;", " ")))
         case Err(e) => Err(e)
         case Ok(path) => Ok(st.(path := path)))
    case Element(tag, h3) =>
      if tag != "h3" || !StartsWith(h3, [SectionSign]) then Ok(st)
      else if st.path.None? || st.path.value == [] then Err("h3 without path")
      else
        match ParseH3(st.path.value, h3, st.toc, title, sectionsOnly)
        case Err(e) => Err(e)
        case Ok(toc) => Ok(ScanState(None, toc))
  }

  function ScanNodes(st: ScanState, nodes: seq<Node>, title: string, unescape: string -> string, sectionsOnly: bool): Result<ScanState>
    decreases nodes
  {
    if nodes == [] then Ok(st)
    else
      match ScanNode(st, nodes[0], title, unescape, sectionsOnly)
      case Err(e) => Err(e)
      case Ok(s) => ScanNodes(s, nodes[1..], title, unescape, sectionsOnly)
  }

  /** The documents in order; a file whose name carries no title is skipped.
      The pending path is not reset between documents. */
  function ScanDocs(st: ScanState, docs: seq<Document>, unescape: string -> string, sectionsOnly: bool): Result<ScanState>
    decreases docs
  {
    if docs == [] then Ok(st)
    else
      match TitleOfFile(docs[0].filename)
      case None => ScanDocs(st, docs[1..], unescape, sectionsOnly)
      case Some(title) =>
        match ScanNodes(st, docs[0].nodes, title, unescape, sectionsOnly)
        case Err(e) => Err(e)
        case Ok(s) => ScanDocs(s, docs[1..], unescape, sectionsOnly)
  }

  /** A `§` heading with no pending path (none, or an empty one) raises. */
  lemma HeadingWithoutPath(st: ScanState, h3: string, title: string, unescape: string -> string, sectionsOnly: bool)
    requires StartsWith(h3, [SectionSign])
    requires st.path.None? || st.path.value == []
    ensures ScanNode(st, Element("h3", h3), title, unescape, sectionsOnly) == Err("h3 without path")
  {
  }

  /** After a processed `§` heading there is no pending path; other elements
      and headings without the section sign change nothing. */
  lemma HeadingClearsPath(st: ScanState, tag: string, h3: string, title: string, unescape: string -> string, sectionsOnly: bool)
    ensures var r := ScanNode(st, Element(tag, h3), title, unescape, sectionsOnly);
      (tag != "h3" || !StartsWith(h3, [SectionSign]) ==> r == Ok(st)) &&
      (tag == "h3" && StartsWith(h3, [SectionSign]) && r.Ok? ==> r.value.path.None? && Extends(r.value.toc, st.toc))
  {
    var r := ScanNode(st, Element(tag, h3), title, unescape, sectionsOnly);
    if tag == "h3" && StartsWith(h3, [SectionSign]) && r.Ok? {
      ParseH3Inserts(st.path.value, h3, st.toc, title, sectionsOnly);
    }
  }

  /** A pending path holds expcite segments: uncited and never sections. */
  predicate PathUncited(path: Option<seq<Segment>>)
  {
    path.Some? ==> forall k :: 0 <= k < |path.value| ==> path.value[k].citation == None && path.value[k].level != Section
  }

  /** What every entry of the TOC satisfies: a citation exactly on sections,
      and under `sections_only` nothing but titles and sections. */
  function EntryOk(sectionsOnly: bool): Segment -> bool
  {
    s => CitedIffSection(s) && (sectionsOnly ==> s.level == Title || s.level == Section)
  }

  predicate ScanInvariant(st: ScanState, sectionsOnly: bool)
  {
    PathUncited(st.path) && AllNodes(st.toc, EntryOk(sectionsOnly))
  }

  lemma ScanNodeInvariant(st: ScanState, node: Node, title: string, unescape: string -> string, sectionsOnly: bool)
    requires ScanInvariant(st, sectionsOnly)
    requires ScanNode(st, node, title, unescape, sectionsOnly).Ok?
    ensures ScanInvariant(ScanNode(st, node, title, unescape, sectionsOnly).value, sectionsOnly)
  {
    match node
    case Comment(text) =>
      if ExpcitePayload(text).Some? {
        ExpcitePath(unescape(Replace(ExpcitePayload(text).value, "&nbsp;", " ")));
      }
    case Element(tag, h3) =>
      if tag == "h3" && StartsWith(h3, [SectionSign]) && !IsPlaceholderHeading(h3) {
        var path := st.path.value;
        var (number, name) := SplitHeading(Replace(h3, [EnDash], "-")).value;
        var section := Segment(Section, Some(number), name, Some(CitationFor(title, number)));
        var ps := Filtered(path + [section], sectionsOnly);
        forall k | 0 <= k < |ps| ensures EntryOk(sectionsOnly)(ps[k]) {
          assert ps[k] in path + [section];
        }
        InsertPathAllNodes(st.toc, ps, EntryOk(sectionsOnly));
      }
  }

  lemma {:induction false} ScanNodesInvariant(st: ScanState, nodes: seq<Node>, title: string, unescape: string -> string, sectionsOnly: bool)
    requires ScanInvariant(st, sectionsOnly)
    requires ScanNodes(st, nodes, title, unescape, sectionsOnly).Ok?
    ensures ScanInvariant(ScanNodes(st, nodes, title, unescape, sectionsOnly).value, sectionsOnly)
    decreases nodes
  {
    if nodes != [] {
      ScanNodeInvariant(st, nodes[0], title, unescape, sectionsOnly);
      ScanNodesInvariant(ScanNode(st, nodes[0], title, unescape, sectionsOnly).value, nodes[1..], title, unescape, sectionsOnly);
    }
  }

  /** Every TOC the scan builds cites exactly its sections and, under
      `sections_only`, holds only titles and sections; so it survives the
      reformatting unchanged. */
  lemma {:induction false} ScanDocsInvariant(st: ScanState, docs: seq<Document>, unescape: string -> string, sectionsOnly: bool)
    requires ScanInvariant(st, sectionsOnly)
    requires ScanDocs(st, docs, unescape, sectionsOnly).Ok?
    ensures ScanInvariant(ScanDocs(st, docs, unescape, sectionsOnly).value, sectionsOnly)
    ensures UnformatAll(ReformatAll(ScanDocs(st, docs, unescape, sectionsOnly).value.toc)) ==
      ScanDocs(st, docs, unescape, sectionsOnly).value.toc
    decreases docs
  {
    if docs != [] {
      match TitleOfFile(docs[0].filename)
      case None =>
        ScanDocsInvariant(st, docs[1..], unescape, sectionsOnly);
      case Some(title) =>
        ScanNodesInvariant(st, docs[0].nodes, title, unescape, sectionsOnly);
        ScanDocsInvariant(ScanNodes(st, docs[0].nodes, title, unescape, sectionsOnly).value, docs[1..], unescape, sectionsOnly);
    } else {
      AllNodesWeaken(st.toc, EntryOk(sectionsOnly), CitedIffSection);
      ReformatRoundTrip(st.toc);
    }
  }

  lemma {:induction false} AllNodesWeaken(ns: seq<TocNode>, p: Segment -> bool, q: Segment -> bool)
    requires AllNodes(ns, p)
    requires forall s :: p(s) ==> q(s)
    ensures AllNodes(ns, q)
    decreases ns
  {
    forall k | 0 <= k < |ns| ensures AllNodes(ns[k].children, q) {
      AllNodesWeaken(ns[k].children, p, q);
    }
  }

  /** The top-level number the titles are sorted by. */
  function TopNumber(n: TocNode): Option<string>
  {
    n.seg.number
  }

  /** The loop over one page's nodes: expcite comments set the pending
      path, `§` headings consume it. */
  method ScanDocument(path0: Option<seq<Segment>>, toc0: seq<TocNode>, nodes: seq<Node>, title: string,
                      unescape: string -> string, sectionsOnly: bool)
    returns (res: Result<ScanState>)
    ensures res == ScanNodes(ScanState(path0, toc0), nodes, title, unescape, sectionsOnly)
  {
    var path, toc := path0, toc0;
    var i := 0;
    while i < |nodes|
      invariant 0 <= i <= |nodes|
      invariant ScanNodes(ScanState(path0, toc0), nodes, title, unescape, sectionsOnly) ==
        ScanNodes(ScanState(path, toc), nodes[i..], title, unescape, sectionsOnly)
    {
      assert nodes[i..][1..] == nodes[i + 1..];
      match nodes[i] {
        case Comment(text) =>
          var payload := ExpcitePayload(text);
          if payload.Some? {
            var parsed := ParseExpciteInPlace(unescape(Replace(payload.value, "&nbsp;", " ")));
            if parsed.Err? {
              return Err(parsed.error);
            }
            path := parsed.value;
          }
        case Element(tag, h3) =>
          if tag == "h3" && StartsWith(h3, [SectionSign]) {
            if path.None? || path.value == [] {
              return Err("h3 without path");
            }
            var inserted := ParseH3(path.value, h3, toc, title, sectionsOnly);
            if inserted.Err? {
              return Err(inserted.error);
            }
            toc := inserted.value;
            path := None;
          }
      }
      i := i + 1;
    }
    assert nodes[i..] == [];
    res := Ok(ScanState(path, toc));
  }

  /** `run`: scan every title file, sort the titles, reformat. */
  method Run(docs: seq<Document>, unescape: string -> string, sectionsOnly: bool) returns (r: Result<seq<Entry>>)
    ensures var spec := ScanDocs(ScanState(None, []), docs, unescape, sectionsOnly);
      (spec.Err? ==> r == Err(spec.error)) &&
      (spec.Ok? ==> (r.Ok? <==> forall k :: 0 <= k < |spec.value.toc| ==> SortKey(TopNumber(spec.value.toc[k])).Some?)) &&
      (r.Ok? ==> spec.Ok? &&
                 exists s :: (multiset(s) == multiset(spec.value.toc) &&
                              SortedBy(s, TitleKeyOf(TopNumber)) && r.value == ReformatAll(s) &&
                              forall k :: WithKey(s, TitleKeyOf(TopNumber), k) == WithKey(spec.value.toc, TitleKeyOf(TopNumber), k)))
  {
    var st := ScanState(None, []);
    var d := 0;
    while d < |docs|
      invariant 0 <= d <= |docs|
      invariant ScanDocs(ScanState(None, []), docs, unescape, sectionsOnly) ==
        ScanDocs(st, docs[d..], unescape, sectionsOnly)
    {
      assert docs[d..][1..] == docs[d + 1..];
      var title := TitleOfFile(docs[d].filename);
      if title.Some? {
        var res := ScanDocument(st.path, st.toc, docs[d].nodes, title.value, unescape, sectionsOnly);
        if res.Err? {
          return Err(res.error);
        }
        st := res.value;
      }
      d := d + 1;
    }
    assert docs[d..] == [];
    var toc := st.toc;
    var a := new TocNode[|toc|](k requires 0 <= k < |toc| => toc[k]);
    assert a[..] == toc;
    var ok := SortTitles(a, TopNumber);
    if !ok {
      return Err("ValueError: title number is not an integer");
    }
    r := Ok(ReformatAll(a[..]));
  }
}
