// The readers of uscode/models.py over a grouped document: the registry of
// model classes, the number and name of a title or chapter heading, the two
// tables of contents, and a section's number, name and body lines.

module Models {
  import opened Wrappers
  import opened Strings
  import opened GpoLines
  import opened Enums
  import opened Footnotes
  import Grouper
  import EnumTree

  const Unpack := "ValueError: not enough values to unpack (expected 2, got 1)"
  const NotOneBody := "AssertionError"

  /** `KeyError` for a missing code-argument tuple, as Python shows it. */
  function TupleKeyError(c: Grouper.CodeArg): string
  {
    "KeyError: ('" + c.0 + "', " + (if c.1.Some? then "'" + c.1.value + "'" else "None") + ")"
  }

  /** `docs[key]` on the sub-document `defaultdict`: the sub-documents
      filed under the key, in order, and an empty list for a key under which
      nothing was filed. */
  function SubdocsAt(d: Grouper.Document, c: Grouper.CodeArg): (r: seq<Grouper.Subdoc>)
    ensures r == Grouper.FiledUnder(d.docs, Grouper.Opener(c))
    ensures r == [] <==> Grouper.Opener(c) !in Grouper.DocsMap(d.docs)
  {
    Grouper.DocsMapFiled(d.docs, Grouper.Opener(c));
    var docs := Grouper.DocsMap(d.docs);
    if Grouper.Opener(c) in docs then docs[Grouper.Opener(c)] else []
  }

  function DataQualityError(data: string): string
  {
    "DataQualityError: unexpected format: " + data
  }

  /** `dict(...)` given something other than a pair at position `k`. */
  function NotAPair(k: nat): string
  {
    "TypeError: cannot convert dictionary update sequence element #" + DecimalText(k) + " to a sequence"
  }

  const F5800: Grouper.CodeArg := ("F", Some("5800"))
  const R01: Grouper.CodeArg := ("R", Some("01"))
  const R10: Grouper.CodeArg := ("R", Some("10"))
  const I80: Grouper.CodeArg := ("I", Some("80"))
  const I06: Grouper.CodeArg := ("I", Some("06"))
  const I81: Grouper.CodeArg := ("I", Some("81"))
  const I93: Grouper.CodeArg := ("I", Some("93"))
  const I28: Grouper.CodeArg := ("I", Some("28"))
  const I70: Grouper.CodeArg := ("I", Some("70"))
  const I89: Grouper.CodeArg := ("I", Some("89"))

  // ---------------------------------------------------------------------------
  // The registry
  // ---------------------------------------------------------------------------

  /** The model classes, in the order the module defines them. */
  datatype ModelClass = Base | Title | TitleTOC | Subtitle | Chapter | ChapterHeading
                      | Subchapter | Part | Subpart | Section

  const Declared: seq<ModelClass> :=
    [Base, Title, TitleTOC, Subtitle, Chapter, ChapterHeading, Subchapter, Part, Subpart, Section]

  /** The `applies_to` a class defines in its own body; an inherited one
      does not count. */
  function AppliesTo(cls: ModelClass): Option<Grouper.CodeArg>
  {
    match cls
    case Title => Some(F5800)
    case TitleTOC => Some(R01)
    case ChapterHeading => Some(R10)
    case Section => Some(I80)
    case _ => None
  }

  /** `_classes` once the classes of `clss` have been created in order. */
  function Registered(clss: seq<ModelClass>): map<Grouper.CodeArg, ModelClass>
    decreases |clss|
  {
    if clss == [] then map[]
    else
      var prev := Registered(clss[..|clss| - 1]);
      var last := clss[|clss| - 1];
      if AppliesTo(last).Some? then prev[AppliesTo(last).value := last] else prev
  }

  /** Every registered class is filed under its own `applies_to`. */
  lemma {:induction false} RegisteredSound(clss: seq<ModelClass>, c: Grouper.CodeArg)
    requires c in Registered(clss)
    ensures AppliesTo(Registered(clss)[c]) == Some(c) && Registered(clss)[c] in clss
    decreases |clss|
  {
    var prev := clss[..|clss| - 1];
    var last := clss[|clss| - 1];
    if !(AppliesTo(last) == Some(c)) {
      RegisteredSound(prev, c);
      assert Registered(prev)[c] in clss by {
        assert forall x :: x in prev ==> x in clss;
      }
    }
  }

  /** Every created class with an `applies_to` is found under it: no two
      classes share a key. */
  lemma {:induction false} RegisteredComplete(clss: seq<ModelClass>, cls: ModelClass)
    requires cls in clss && AppliesTo(cls).Some?
    ensures AppliesTo(cls).value in Registered(clss) && Registered(clss)[AppliesTo(cls).value] == cls
    decreases |clss|
  {
    var prev := clss[..|clss| - 1];
    var last := clss[|clss| - 1];
    if last != cls {
      assert cls in prev by {
        var k :| 0 <= k < |clss| && clss[k] == cls;
        assert prev[k] == cls;
      }
      RegisteredComplete(prev, cls);
    }
  }

  /** `Registry._classes` and `getclass`. */
  class Registry {
    var classes: map<Grouper.CodeArg, ModelClass>

    constructor ()
      ensures classes == map[]
    {
      classes := map[];
    }

    /** `Registry.__new__`: a class that defines `applies_to` is filed
        under it. */
    method Register(cls: ModelClass)
      modifies this
      ensures classes == if AppliesTo(cls).Some? then old(classes)[AppliesTo(cls).value := cls] else old(classes)
    {
      if AppliesTo(cls).Some? {
        classes := classes[AppliesTo(cls).value := cls];
      }
    }

    /** `getclass`, which is `dict.get` on `_classes`. */
    function GetClass(c: Grouper.CodeArg): (r: Option<ModelClass>)
      reads this
      ensures r.Some? <==> c in classes
      ensures r.Some? ==> r.value == classes[c]
    {
      if c in classes then Some(classes[c]) else None
    }
  }

  /** Creating the module's classes, in order, registers them. */
  method DefineAll(reg: Registry)
    requires reg.classes == map[]
    modifies reg
    ensures reg.classes == Registered(Declared)
  {
    var i := 0;
    while i < |Declared|
      invariant 0 <= i <= |Declared|
      invariant reg.classes == Registered(Declared[..i])
    {
      assert Declared[..i + 1][..i] == Declared[..i];
      reg.Register(Declared[i]);
      i := i + 1;
    }
    assert Declared[..i] == Declared;
  }

  /** After the module is loaded, `getclass` finds exactly the four classes
      that define `applies_to`, each under its own key. */
  lemma GetClassFinds(c: Grouper.CodeArg)
    ensures c in Registered(Declared) <==> exists cls :: AppliesTo(cls) == Some(c)
    ensures c in Registered(Declared) ==> AppliesTo(Registered(Declared)[c]) == Some(c)
  {
    if c in Registered(Declared) {
      RegisteredSound(Declared, c);
    }
    forall cls | AppliesTo(cls) == Some(c)
      ensures c in Registered(Declared)
    {
      assert cls in Declared by {
        match cls
        case Title => assert Declared[1] == cls;
        case TitleTOC => assert Declared[2] == cls;
        case ChapterHeading => assert Declared[5] == cls;
        case Section => assert Declared[9] == cls;
      }
      RegisteredComplete(Declared, cls);
    }
  }

  // ---------------------------------------------------------------------------
  // `enum_title`: re.search(r'\w+ (\d+).(.+)', text)
  // ---------------------------------------------------------------------------

  /** How many `\w` characters start at `i`. */
  function WordsFrom(s: string, i: nat): (n: nat)
    requires i <= |s|
    ensures i + n <= |s| && (forall k {:trigger IsWordChar(s[k])} :: i <= k < i + n ==> IsWordChar(s[k]))
    ensures i + n < |s| ==> !IsWordChar(s[i + n])
    decreases |s| - i
  {
    if i < |s| && IsWordChar(s[i]) then 1 + WordsFrom(s, i + 1) else 0
  }

  /** A character `.` matches. */
  predicate NotNewline(c: char) { c != '\n' }

  /** How many characters that `.` matches (all but a newline) start at `i`. */
  function LineFrom(s: string, i: nat): (n: nat)
    requires i <= |s|
    ensures i + n <= |s| && (forall k {:trigger NotNewline(s[k])} :: i <= k < i + n ==> NotNewline(s[k]))
    ensures i + n < |s| ==> s[i + n] == '\n'
    decreases |s| - i
  {
    if i < |s| && s[i] != '\n' then 1 + LineFrom(s, i + 1) else 0
  }

  /** The match the engine makes from `p` with `num` for `(\d+)`: `\w+`
      takes the whole word (a shorter one is not followed by a space), a
      space, the digits, one character for `.`, and `(.+)` up to the end of
      the line. */
  predicate MatchesAt(s: string, p: nat, num: string, name: string)
  {
    p < |s| &&
    var w := WordsFrom(s, p);
    var start := p + w + 1;
    var q := start + |num| + 1;
    w >= 1 && start <= |s| && s[p + w] == ' ' &&
    |num| >= 1 && |name| >= 1 && q + |name| <= |s| &&
    s[start..start + |num|] == num && AllDigits(num) && s[start + |num|] != '\n' &&
    s[q..q + |name|] == name && (forall k :: 0 <= k < |name| ==> name[k] != '\n') &&
    (q + |name| == |s| || s[q + |name|] == '\n')
  }

  /** `(\d+)` can take `n` digits at `start` and leave a character for `.`
      and at least one for `.+`. */
  predicate DigitsFit(s: string, start: nat, n: nat)
  {
    1 <= n && start + n + 1 < |s| && (forall k {:trigger IsDigit(s[k])} :: start <= k < start + n ==> IsDigit(s[k])) &&
    s[start + n] != '\n' && s[start + n + 1] != '\n'
  }

  /** Greedy `\d+` backing off one digit at a time: the longest fit of at
      most `n` digits. */
  function LongestFit(s: string, start: nat, n: nat): (r: Option<nat>)
    ensures r.Some? ==> r.value <= n && DigitsFit(s, start, r.value)
    ensures forall m :: (if r.Some? then r.value else 0) < m <= n ==> !DigitsFit(s, start, m)
    decreases n
  {
    if n == 0 then None
    else if DigitsFit(s, start, n) then Some(n)
    else LongestFit(s, start, n - 1)
  }

  /** Any match from `p` takes no more digits than there are, and they fit. */
  lemma MatchBounds(s: string, p: nat)
    requires p < |s|
    ensures forall num, name :: MatchesAt(s, p, num, name) ==>
      var start := p + WordsFrom(s, p) + 1;
      |num| <= DigitsFrom(s, start) && DigitsFit(s, start, |num|)
  {
    forall num, name | MatchesAt(s, p, num, name)
      ensures var start := p + WordsFrom(s, p) + 1;
        |num| <= DigitsFrom(s, start) && DigitsFit(s, start, |num|)
    {
      var start := p + WordsFrom(s, p) + 1;
      assert forall k :: start <= k < start + |num| ==> s[k] == num[k - start];
      assert s[start + |num| + 1] == name[0];
    }
  }

  /** Digits that fit give a match, the name running to the end of the line. */
  lemma MatchBuilt(s: string, p: nat, start: nat, n: nat)
    requires p < |s| && WordsFrom(s, p) >= 1 && p + WordsFrom(s, p) < |s| && s[p + WordsFrom(s, p)] == ' '
    requires start == p + WordsFrom(s, p) + 1 && DigitsFit(s, start, n)
    ensures var q := start + n + 1;
      MatchesAt(s, p, s[start..start + n], s[q..q + LineFrom(s, q)])
  {
    var q := start + n + 1;
    var name := s[q..q + LineFrom(s, q)];
    assert name[0] == s[q];
    assert forall k :: 0 <= k < |name| ==> name[k] == s[q + k] && NotNewline(s[q + k]);
  }

  /** The groups of the match starting at `p`, if the pattern matches there. */
  function MatchFrom(s: string, p: nat): Option<(string, string)>
    requires p <= |s|
  {
    if p == |s| then None
    else
      var w := WordsFrom(s, p);
      if w == 0 || p + w >= |s| || s[p + w] != ' ' then None
      else
        var start := p + w + 1;
        var fit := LongestFit(s, start, DigitsFrom(s, start));
        if fit.None? then None
        else
          var q := start + fit.value + 1;
          Some((s[start..start + fit.value], s[q..q + LineFrom(s, q)]))
  }

  /** A word followed by a space starts at `p`. */
  predicate HeadAt(s: string, p: nat)
    requires p < |s|
  {
    WordsFrom(s, p) >= 1 && p + WordsFrom(s, p) < |s| && s[p + WordsFrom(s, p)] == ' '
  }

  /** No word followed by a space at `p`: no match from `p`. */
  lemma NoHeadNoMatch(s: string, p: nat)
    requires p < |s| && !HeadAt(s, p)
    ensures MatchFrom(s, p) == None
    ensures forall num, name :: !MatchesAt(s, p, num, name)
  {
  }

  /** Where the digits after the head start. */
  function DigitsStart(s: string, p: nat): nat
    requires p < |s| && HeadAt(s, p)
  {
    p + WordsFrom(s, p) + 1
  }

  /** No number of digits fits after the head: no match from `p`. */
  lemma HeadNoFit(s: string, p: nat)
    requires p < |s| && HeadAt(s, p)
    requires LongestFit(s, DigitsStart(s, p), DigitsFrom(s, DigitsStart(s, p))).None?
    ensures MatchFrom(s, p) == None
    ensures forall num, name :: !MatchesAt(s, p, num, name)
  {
    MatchBounds(s, p);
  }

  /** The longest fit after the head gives the match with the most digits. */
  lemma HeadFit(s: string, p: nat, n: nat)
    requires p < |s| && HeadAt(s, p)
    requires LongestFit(s, DigitsStart(s, p), DigitsFrom(s, DigitsStart(s, p))) == Some(n)
    ensures var r := MatchFrom(s, p);
      r.Some? && MatchesAt(s, p, r.value.0, r.value.1) && |r.value.0| == n &&
      forall num, name :: MatchesAt(s, p, num, name) ==> |num| <= n
  {
    HeadFitMatch(s, p, n);
    FitMost(s, p, n);
  }

  /** The longest fit after the head gives a match. */
  lemma HeadFitMatch(s: string, p: nat, n: nat)
    requires p < |s| && HeadAt(s, p)
    requires LongestFit(s, DigitsStart(s, p), DigitsFrom(s, DigitsStart(s, p))) == Some(n)
    ensures var r := MatchFrom(s, p);
      r.Some? && MatchesAt(s, p, r.value.0, r.value.1) && |r.value.0| == n
  {
    var start := DigitsStart(s, p);
    var q := start + n + 1;
    assert q <= |s| && MatchFrom(s, p) == Some((s[start..start + n], s[q..q + LineFrom(s, q)])) by {
      MatchFromFit(s, p, start, n);
    }
    assert MatchesAt(s, p, s[start..start + n], s[q..q + LineFrom(s, q)]) by {
      MatchBuilt(s, p, start, n);
    }
  }

  lemma MatchFromFit(s: string, p: nat, start: nat, n: nat)
    requires p < |s| && HeadAt(s, p) && start == DigitsStart(s, p)
    requires LongestFit(s, start, DigitsFrom(s, start)) == Some(n)
    ensures var q := start + n + 1;
      q <= |s| && MatchFrom(s, p) == Some((s[start..start + n], s[q..q + LineFrom(s, q)]))
  {
  }

  /** No match from `p` takes more digits than the longest fit. */
  lemma FitMost(s: string, p: nat, n: nat)
    requires p < |s| && HeadAt(s, p)
    requires LongestFit(s, DigitsStart(s, p), DigitsFrom(s, DigitsStart(s, p))) == Some(n)
    ensures forall num, name :: MatchesAt(s, p, num, name) ==> |num| <= n
  {
    MatchBounds(s, p);
  }

  /** `MatchFrom` finds the match from `p` with the most digits, and finds
      nothing only when there is no match from `p`. */
  lemma MatchFromExact(s: string, p: nat)
    requires p <= |s|
    ensures var r := MatchFrom(s, p);
      (r.Some? ==> MatchesAt(s, p, r.value.0, r.value.1)) &&
      (r.Some? ==> forall num, name :: MatchesAt(s, p, num, name) ==> |num| <= |r.value.0|) &&
      (r.None? ==> forall num, name :: !MatchesAt(s, p, num, name))
  {
    if p < |s| {
      if HeadAt(s, p) {
        var fit := LongestFit(s, DigitsStart(s, p), DigitsFrom(s, DigitsStart(s, p)));
        if fit.Some? {
          HeadFit(s, p, fit.value);
        } else {
          HeadNoFit(s, p);
        }
      } else {
        NoHeadNoMatch(s, p);
      }
    }
  }

  /** `re.search` from `p` on: where the leftmost match starts, and its groups. */
  function SearchFrom(s: string, p: nat): (r: Option<(nat, string, string)>)
    requires p <= |s|
    ensures r.Some? ==> p <= r.value.0 <= |s| && MatchFrom(s, r.value.0) == Some((r.value.1, r.value.2))
    ensures forall q :: p <= q <= |s| && (r.None? || q < r.value.0) ==> MatchFrom(s, q).None?
    decreases |s| - p
  {
    var m := MatchFrom(s, p);
    MatchFromExact(s, p);
    if m.Some? then Some((p, m.value.0, m.value.1))
    else if p == |s| then None
    else SearchFrom(s, p + 1)
  }

  /** The groups of `re.search(r'\w+ (\d+).(.+)', s)`: the match that starts
      leftmost, with the most digits there; none when nothing matches. */
  function TitleSearch(s: string): (r: Option<(string, string)>)
    ensures r.None? <==> forall p: nat, num, name :: !MatchesAt(s, p, num, name)
    ensures r.Some? ==> exists p: nat ::
      MatchesAt(s, p, r.value.0, r.value.1) &&
      (forall q: nat, num, name :: q < p ==> !MatchesAt(s, q, num, name)) &&
      (forall num, name :: MatchesAt(s, p, num, name) ==> |num| <= |r.value.0|)
  {
    var f := SearchFrom(s, 0);
    assert forall p: nat, num, name :: MatchesAt(s, p, num, name) ==> p <= |s| && MatchFrom(s, p).Some? by {
      forall p: nat, num, name | MatchesAt(s, p, num, name)
        ensures p <= |s| && MatchFrom(s, p).Some?
      {
        MatchFromExact(s, p);
      }
    }
    if f.None? then None
    else
      MatchFromExact(s, f.value.0);
      assert MatchesAt(s, f.value.0, f.value.1, f.value.2);
      Some((f.value.1, f.value.2))
  }

  /** With the digits, `.` and the name fixed, the match from `p` is fixed. */
  lemma MatchesAtUnique(s: string, p: nat, num: string, name: string, num': string, name': string)
    requires MatchesAt(s, p, num, name) && MatchesAt(s, p, num', name') && |num| == |num'|
    ensures num == num' && name == name'
  {
  }

  /** `s` is the word, a space, the digits, the separator and the name. */
  predicate Laid(s: string, word: string, num: string, sep: char, name: string)
  {
    |s| == |word| + |num| + |name| + 2 &&
    s[..|word|] == word && s[|word|] == ' ' && s[|word| + 1..|word| + 1 + |num|] == num &&
    s[|word| + 1 + |num|] == sep && s[|word| + 2 + |num|..] == name
  }

  lemma LaidOut(word: string, num: string, sep: char, name: string)
    ensures Laid(word + " " + num + [sep] + name, word, num, sep, name)
  {
    var s := word + " " + num + [sep] + name;
    assert s[..|word|] == word;
    assert s[|word| + 1..|word| + 1 + |num|] == num;
    assert s[|word| + 2 + |num|..] == name;
  }

  /** The parts of a heading, laid out, match from its start. */
  lemma MatchesAtOf(s: string, word: string, num: string, sep: char, name: string)
    requires Laid(s, word, num, sep, name)
    requires |word| >= 1 && forall k :: 0 <= k < |word| ==> IsWordChar(word[k])
    requires |num| >= 1 && AllDigits(num)
    requires sep != '\n' && !IsDigit(sep)
    requires |name| >= 1 && forall k :: 0 <= k < |name| ==> name[k] != '\n'
    ensures WordsFrom(s, 0) == |word| && DigitsFrom(s, |word| + 1) == |num| && MatchesAt(s, 0, num, name)
  {
    var w := |word|;
    assert forall k :: 0 <= k < w ==> s[k] == s[..w][k];
    WordsExact(s, 0, w);
    assert forall k :: w + 1 <= k < w + 1 + |num| ==> s[k] == s[w + 1..w + 1 + |num|][k - w - 1];
    DigitsExact(s, w + 1, |num|);
    MatchesAtIntro(s, w, num, name);
  }

  /** The conditions of `MatchesAt` at the start, one by one. */
  lemma MatchesAtIntro(s: string, w: nat, num: string, name: string)
    requires 1 <= w && WordsFrom(s, 0) == w && w + 2 + |num| + |name| == |s| && s[w] == ' '
    requires |num| >= 1 && s[w + 1..w + 1 + |num|] == num && AllDigits(num) && s[w + 1 + |num|] != '\n'
    requires |name| >= 1 && s[w + 2 + |num|..] == name && forall k :: 0 <= k < |name| ==> name[k] != '\n'
    ensures MatchesAt(s, 0, num, name)
  {
    assert s[w + 2 + |num|..w + 2 + |num| + |name|] == name;
  }

  /** A heading written as a word, a space, the number, one separator that is
      not a digit and the name reads back as (number, name). */
  lemma TitleSearchOf(word: string, num: string, sep: char, name: string)
    requires |word| >= 1 && forall k :: 0 <= k < |word| ==> IsWordChar(word[k])
    requires |num| >= 1 && AllDigits(num)
    requires sep != '\n' && !IsDigit(sep)
    requires |name| >= 1 && forall k :: 0 <= k < |name| ==> name[k] != '\n'
    ensures TitleSearch(word + " " + num + [sep] + name) == Some((num, name))
  {
    var s := word + " " + num + [sep] + name;
    LaidOut(word, num, sep, name);
    MatchesAtOf(s, word, num, sep, name);
    var r := TitleSearch(s);
    var p: nat :| MatchesAt(s, p, r.value.0, r.value.1) &&
      (forall q: nat, num, name :: q < p ==> !MatchesAt(s, q, num, name)) &&
      (forall num', name' :: MatchesAt(s, p, num', name') ==> |num'| <= |r.value.0|);
    assert p == 0;
    MatchBounds(s, 0);
    MatchesAtUnique(s, 0, num, name, r.value.0, r.value.1);
  }

  lemma {:induction false} WordsExact(s: string, i: nat, n: nat)
    requires i + n <= |s| && (forall k :: i <= k < i + n ==> IsWordChar(s[k]))
    requires i + n < |s| ==> !IsWordChar(s[i + n])
    ensures WordsFrom(s, i) == n
    decreases n
  {
    if n > 0 {
      WordsExact(s, i + 1, n - 1);
    }
  }

  // ---------------------------------------------------------------------------
  // Title and chapter headings
  // ---------------------------------------------------------------------------

  /** `codemap[c].first`: the first line filed under `c`. */
  function FirstLine(m: Grouper.CodeMap, c: Grouper.CodeArg): (r: Result<LocatorLine>)
    ensures c !in m ==> r == Err(TupleKeyError(c))
    ensures c in m && m[c] == [] ==> r == Err(EnumTree.IndexError)
    ensures c in m && m[c] != [] ==> r == Ok(m[c][0])
  {
    if c !in m then Err(TupleKeyError(c))
    else if m[c] == [] then Err(EnumTree.IndexError)
    else Ok(m[c][0])
  }

  /** The groups of a heading's stripped text, or the data-quality error
      naming the line's data as given. */
  function HeadingGroups(text: string, data: string): (r: Result<(string, string)>)
    ensures r.Ok? <==> TitleSearch(text).Some?
    ensures r.Ok? ==> r.value == TitleSearch(text).value
    ensures r.Err? ==> r.error == DataQualityError(data)
  {
    match TitleSearch(text)
    case None => Err(DataQualityError(data))
    case Some(g) => Ok(g)
  }

  /** `Title.enum_title`: (number, name) of the first I06 line. */
  function TitleEnumTitle(d: Grouper.Document): (r: Result<(string, string)>)
    ensures I06 !in d.codemap ==> r == Err(TupleKeyError(I06))
    ensures I06 in d.codemap && d.codemap[I06] == [] ==> r == Err(EnumTree.IndexError)
    ensures I06 in d.codemap && d.codemap[I06] != [] && r.Err? ==>
      r.error == DataQualityError(d.codemap[I06][0].data)
  {
    match FirstLine(d.codemap, I06)
    case Err(e) => Err(e)
    case Ok(line) => HeadingGroups(Strip(line.data), line.data)
  }

  /** The marker `re.sub(r'^\x07T2', '', text)` removes. */
  const T2: string := "\U{7}T2"

  /** `ChapterHeading.enum_title`: as for a title, from the first I81 line,
      with a leading "\x07T2" removed after stripping. */
  function ChapterEnumTitle(d: Grouper.Document): (r: Result<(string, string)>)
    ensures I81 !in d.codemap ==> r == Err(TupleKeyError(I81))
    ensures I81 in d.codemap && d.codemap[I81] == [] ==> r == Err(EnumTree.IndexError)
    ensures I81 in d.codemap && d.codemap[I81] != [] && r.Err? ==>
      r.error == DataQualityError(d.codemap[I81][0].data)
  {
    match FirstLine(d.codemap, I81)
    case Err(e) => Err(e)
    case Ok(line) => HeadingGroups(DropMarker(Strip(line.data)), line.data)
  }

  /** `re.sub(r'^\x07T2', '', text)`: the text without a leading marker. */
  function DropMarker(text: string): string
  {
    if StartsWith(text, T2) then text[|T2|..] else text
  }

  /** A title heading fails only when nothing in its stripped first I06
      line matches. */
  lemma TitleEnumTitleFails(d: Grouper.Document)
    requires I06 in d.codemap && d.codemap[I06] != []
    ensures TitleEnumTitle(d).Err? <==>
      forall p: nat, num, name :: !MatchesAt(Strip(d.codemap[I06][0].data), p, num, name)
  {
  }

  /** A chapter heading fails only when nothing in its stripped first I81
      line, marker removed, matches. */
  lemma ChapterEnumTitleFails(d: Grouper.Document)
    requires I81 in d.codemap && d.codemap[I81] != []
    ensures ChapterEnumTitle(d).Err? <==>
      forall p: nat, num, name :: !MatchesAt(DropMarker(Strip(d.codemap[I81][0].data)), p, num, name)
  {
  }

  /** A heading is a word, a space, the number, one separator that is not a
      digit, and the name on one line. */
  predicate HeadingParts(word: string, num: string, sep: char, name: string)
  {
    |word| >= 1 && (forall k :: 0 <= k < |word| ==> IsWordChar(word[k])) &&
    |num| >= 1 && AllDigits(num) && sep != '\n' && !IsDigit(sep) &&
    |name| >= 1 && forall k :: 0 <= k < |name| ==> name[k] != '\n'
  }

  /** A title whose first I06 line strips to a heading yields its number and
      name. */
  lemma TitleEnumTitleOf(d: Grouper.Document, word: string, num: string, sep: char, name: string)
    requires HeadingParts(word, num, sep, name)
    requires I06 in d.codemap && d.codemap[I06] != []
    requires Strip(d.codemap[I06][0].data) == word + " " + num + [sep] + name
    ensures TitleEnumTitle(d) == Ok((num, name))
  {
    TitleSearchOf(word, num, sep, name);
  }

  /** A chapter heading whose first I81 line strips to a heading, with or
      without the "\x07T2" marker in front, yields its number and name. */
  lemma ChapterEnumTitleOf(d: Grouper.Document, marker: string, word: string, num: string, sep: char, name: string)
    requires HeadingParts(word, num, sep, name)
    requires marker == [] || marker == T2
    requires I81 in d.codemap && d.codemap[I81] != []
    requires Strip(d.codemap[I81][0].data) == marker + word + " " + num + [sep] + name
    ensures ChapterEnumTitle(d) == Ok((num, name))
  {
    var line := d.codemap[I81][0];
    var rest := word + " " + num + [sep] + name;
    assert rest[0] == word[0];
    MarkedHeading(marker, word, num, sep, name);
    MarkerDropped(Strip(line.data), marker, rest);
    TitleSearchOf(word, num, sep, name);
    assert ChapterEnumTitle(d) == HeadingGroups(rest, line.data);
  }

  lemma MarkedHeading(marker: string, word: string, num: string, sep: char, name: string)
    ensures marker + word + " " + num + [sep] + name == marker + (word + " " + num + [sep] + name)
  {
  }

  /** Removing a leading marker leaves the heading, whether the marker was
      there or not: a heading starts with a word character. */
  lemma MarkerDropped(text: string, marker: string, rest: string)
    requires marker == [] || marker == T2
    requires text == marker + rest
    requires rest != [] && IsWordChar(rest[0])
    ensures DropMarker(text) == rest
  {
    assert StartsWith(text, T2) ==> text[..|T2|][0] == text[0];
    if marker == T2 {
      assert text[..|T2|] == T2;
    }
  }

  // ---------------------------------------------------------------------------
  // Tables of contents
  // ---------------------------------------------------------------------------

  /** A character `[.\s]` matches. */
  predicate Squeezable(c: char) { c == '.' || IsSpace(c) }

  /** `re.sub(r'[.\s]+', '', s)`: every dot and whitespace character removed. */
  function Squeeze(s: string): (r: string)
    ensures |r| <= |s|
    ensures forall k :: 0 <= k < |r| ==> !Squeezable(r[k])
  {
    if s == [] then []
    else (if Squeezable(s[0]) then [] else [s[0]]) + Squeeze(s[1..])
  }

  /** A string with no dot and no whitespace is left as it is. */
  lemma {:induction false} SqueezeClean(s: string)
    requires forall k :: 0 <= k < |s| ==> !Squeezable(s[k])
    ensures Squeeze(s) == s
  {
    if s != [] {
      SqueezeClean(s[1..]);
    }
  }

  /** Squeezing twice is squeezing once. */
  lemma SqueezeIdempotent(s: string)
    ensures Squeeze(Squeeze(s)) == Squeeze(s)
  {
    SqueezeClean(Squeeze(s));
  }

  /** Squeezing works piece by piece: what is kept keeps its order. */
  lemma {:induction false} SqueezeConcat(a: string, b: string)
    ensures Squeeze(a + b) == Squeeze(a) + Squeeze(b)
  {
    if a != [] {
      assert (a + b)[1..] == a[1..] + b;
      SqueezeConcat(a[1..], b);
    } else {
      assert a + b == b;
    }
  }

  /** Squeezing only removes: a character kept is one that was there. */
  lemma {:induction false} SqueezeKeeps(s: string, k: nat)
    requires k < |Squeeze(s)|
    ensures Squeeze(s)[k] in s
  {
    if !Squeezable(s[0]) && k == 0 {
    } else if Squeezable(s[0]) {
      SqueezeKeeps(s[1..], k);
    } else {
      SqueezeKeeps(s[1..], k - 1);
    }
  }

  /** What `get_notes` yields: each I28 line's footnote number and text, or
      `None` for a line that is not a footnote. */
  function NoteItems(notes: seq<LocatorLine>): (r: seq<Option<(string, string)>>)
    ensures |r| == |notes| && forall k :: 0 <= k < |notes| ==> r[k] == ParseNote(notes[k].data)
  {
    seq(|notes|, k requires 0 <= k < |notes| => ParseNote(notes[k].data))
  }

  /** `dict(self.get_notes())`: each footnote's number mapped to its text, a
      later footnote with the same number winning; the first line that is
      not a footnote makes `dict` fail on it. */
  function NoteDict(notes: seq<LocatorLine>): (r: Result<map<string, string>>)
    ensures r.Ok? <==> forall k :: 0 <= k < |notes| ==> ParseNote(notes[k].data).Some?
    ensures r.Err? ==>
      exists k :: 0 <= k < |notes| && ParseNote(notes[k].data).None? &&
        r.error == NotAPair(k) && forall j :: 0 <= j < k ==> ParseNote(notes[j].data).Some?
  {
    var items := NoteItems(notes);
    DictOk(items, 0, map[]);
    DictErr(items, 0, map[]);
    DictFrom(items, 0, map[])
  }

  /** `dict` over the items from `k` on, added to `acc`. */
  function DictFrom(items: seq<Option<(string, string)>>, k: nat, acc: map<string, string>): Result<map<string, string>>
    requires k <= |items|
    decreases |items| - k
  {
    if k == |items| then Ok(acc)
    else
      match items[k]
      case None => Err(NotAPair(k))
      case Some((key, value)) => DictFrom(items, k + 1, acc[key := value])
  }

  /** The dictionary is built exactly when every item from `k` is a pair. */
  lemma {:induction false} DictOk(items: seq<Option<(string, string)>>, k: nat, acc: map<string, string>)
    requires k <= |items|
    ensures DictFrom(items, k, acc).Ok? <==> forall j :: k <= j < |items| ==> items[j].Some?
    decreases |items| - k
  {
    if k < |items| && items[k].Some? {
      DictOk(items, k + 1, acc[items[k].value.0 := items[k].value.1]);
    }
  }

  /** A failure names the first item from `k` that is not a pair. */
  lemma {:induction false} DictErr(items: seq<Option<(string, string)>>, k: nat, acc: map<string, string>)
    requires k <= |items|
    ensures DictFrom(items, k, acc).Err? ==>
      exists i :: k <= i < |items| && items[i].None? && DictFrom(items, k, acc).error == NotAPair(i) &&
        forall j :: k <= j < i ==> items[j].Some?
    decreases |items| - k
  {
    if k < |items| && items[k].Some? {
      DictErr(items, k + 1, acc[items[k].value.0 := items[k].value.1]);
    }
  }

  /** A key no item from `k` on carries keeps its value from `acc`. */
  lemma {:induction false} DictKeeps(items: seq<Option<(string, string)>>, k: nat, acc: map<string, string>, key: string)
    requires k <= |items| && DictFrom(items, k, acc).Ok?
    requires forall j :: k <= j < |items| && items[j].Some? ==> items[j].value.0 != key
    ensures key in DictFrom(items, k, acc).value <==> key in acc
    ensures key in acc ==> DictFrom(items, k, acc).value[key] == acc[key]
    decreases |items| - k
  {
    if k < |items| {
      DictKeeps(items, k + 1, acc[items[k].value.0 := items[k].value.1], key);
    }
  }

  /** The last item with a key gives that key's value. */
  lemma {:induction false} DictWins(items: seq<Option<(string, string)>>, k: nat, acc: map<string, string>, j: nat)
    requires k <= j < |items| && items[j].Some? && DictFrom(items, k, acc).Ok?
    requires forall i :: j < i < |items| && items[i].Some? ==> items[i].value.0 != items[j].value.0
    ensures items[j].value.0 in DictFrom(items, k, acc).value
    ensures DictFrom(items, k, acc).value[items[j].value.0] == items[j].value.1
    decreases |items| - k
  {
    var next := acc[items[k].value.0 := items[k].value.1];
    if k == j {
      DictKeeps(items, k + 1, next, items[j].value.0);
    } else {
      DictWins(items, k + 1, next, j);
    }
  }

  /** In the footnote dictionary, a number maps to the text of the last
      footnote with that number. */
  lemma NoteDictLast(notes: seq<LocatorLine>, j: nat)
    requires j < |notes| && ParseNote(notes[j].data).Some? && NoteDict(notes).Ok?
    requires forall i :: j < i < |notes| && ParseNote(notes[i].data).Some? ==>
      ParseNote(notes[i].data).value.0 != ParseNote(notes[j].data).value.0
    ensures ParseNote(notes[j].data).value.0 in NoteDict(notes).value
    ensures NoteDict(notes).value[ParseNote(notes[j].data).value.0] == ParseNote(notes[j].data).value.1
  {
    DictWins(NoteItems(notes), 0, map[], j);
  }

  /** Every key of the footnote dictionary is the number of a footnote. */
  lemma NoteDictKeys(notes: seq<LocatorLine>, key: string)
    requires NoteDict(notes).Ok? && key in NoteDict(notes).value
    ensures exists j :: 0 <= j < |notes| && ParseNote(notes[j].data).Some? && ParseNote(notes[j].data).value.0 == key
  {
    var items := NoteItems(notes);
    if forall j :: 0 <= j < |items| && items[j].Some? ==> items[j].value.0 != key {
      DictKeeps(items, 0, map[], key);
      assert false;
    }
  }

  datatype TitleTocRow = TitleTocRow(chapter: string, name: string, section: string)

  /** One row of a title's table of contents from its three lines. */
  function TitleRow(chapter: LocatorLine, name: LocatorLine, section: LocatorLine): TitleTocRow
  {
    TitleTocRow(Squeeze(chapter.data), Strip(name.data), Strip(section.data))
  }

  /** A title row holds no dot or space in its chapter, and no space at
      either end of its name or section. */
  lemma TitleRowClean(chapter: LocatorLine, name: LocatorLine, section: LocatorLine)
    ensures var r := TitleRow(chapter, name, section);
      (forall k :: 0 <= k < |r.chapter| ==> !Squeezable(r.chapter[k])) &&
      (r.name == [] || (!IsSpace(r.name[0]) && !IsSpace(r.name[|r.name| - 1]))) &&
      (r.section == [] || (!IsSpace(r.section[0]) && !IsSpace(r.section[|r.section| - 1])))
  {
  }

  // `list(itertools.islice(lines, k))` unpacked into k names ends the loop
  // as soon as fewer than k lines are left: the loops below read complete
  // groups only. They are written over the row builder `f`.

  /** The values `f` builds from the first `n` groups of three lines. */
  function Triples<R>(f: (LocatorLine, LocatorLine, LocatorLine) -> R, lines: seq<LocatorLine>, n: nat): (r: seq<R>)
    requires 3 * n <= |lines|
    ensures |r| == n
  {
    if n == 0 then []
    else Triples(f, lines, n - 1) + [f(lines[3 * n - 3], lines[3 * n - 2], lines[3 * n - 1])]
  }

  /** Group `k` is built from lines `3k`, `3k + 1` and `3k + 2`. */
  lemma {:induction false} TriplesAt<R>(f: (LocatorLine, LocatorLine, LocatorLine) -> R, lines: seq<LocatorLine>, n: nat, k: nat)
    requires 3 * n <= |lines| && k < n
    ensures Triples(f, lines, n)[k] == f(lines[3 * k], lines[3 * k + 1], lines[3 * k + 2])
  {
    if k < n - 1 {
      TriplesAt(f, lines, n - 1, k);
    }
  }

  /** Three lines at a time while three remain. */
  method TriplesOf<R>(f: (LocatorLine, LocatorLine, LocatorLine) -> R, lines: seq<LocatorLine>) returns (rows: seq<R>)
    ensures 3 * |rows| <= |lines| < 3 * |rows| + 3
    ensures rows == Triples(f, lines, |rows|)
  {
    rows := [];
    while 3 * |rows| + 3 <= |lines|
      invariant 3 * |rows| <= |lines|
      invariant rows == Triples(f, lines, |rows|)
      decreases |lines| - 3 * |rows|
    {
      var i := 3 * |rows|;
      rows := rows + [f(lines[i], lines[i + 1], lines[i + 2])];
    }
  }

  /** The values `f` builds from the first `n` pairs of lines. */
  function Pairs<R>(f: (LocatorLine, LocatorLine) -> R, lines: seq<LocatorLine>, n: nat): (r: seq<R>)
    requires 2 * n <= |lines|
    ensures |r| == n
  {
    if n == 0 then []
    else Pairs(f, lines, n - 1) + [f(lines[2 * n - 2], lines[2 * n - 1])]
  }

  /** Pair `k` is built from lines `2k` and `2k + 1`. */
  lemma {:induction false} PairsAt<R>(f: (LocatorLine, LocatorLine) -> R, lines: seq<LocatorLine>, n: nat, k: nat)
    requires 2 * n <= |lines| && k < n
    ensures Pairs(f, lines, n)[k] == f(lines[2 * k], lines[2 * k + 1])
  {
    if k < n - 1 {
      PairsAt(f, lines, n - 1, k);
    }
  }

  /** Two lines at a time while two remain. */
  method PairsOf<R>(f: (LocatorLine, LocatorLine) -> R, lines: seq<LocatorLine>) returns (rows: seq<R>)
    ensures 2 * |rows| <= |lines| < 2 * |rows| + 2
    ensures rows == Pairs(f, lines, |rows|)
  {
    rows := [];
    while 2 * |rows| + 2 <= |lines|
      invariant 2 * |rows| <= |lines|
      invariant rows == Pairs(f, lines, |rows|)
      decreases |lines| - 2 * |rows|
    {
      var i := 2 * |rows|;
      rows := rows + [f(lines[i], lines[i + 1])];
    }
  }

  /** `s[n:]`: empty when `n` is past the end. */
  function Drop(s: seq<LocatorLine>, n: nat): (r: seq<LocatorLine>)
    ensures |r| == if n <= |s| then |s| - n else 0
    ensures forall k :: 0 <= k < |r| ==> r[k] == s[n + k]
  {
    if n <= |s| then s[n..] else []
  }

  /** `TitleTOC.items`: after the three heading lines of the first I93
      sub-document, each group of three lines is a row; a last group of
      fewer than three lines is dropped. The footnotes of the sub-document
      are read first, and their errors are the errors of the whole. */
  method TitleTocItems(d: Grouper.Document) returns (r: Result<seq<TitleTocRow>>)
    ensures SubdocsAt(d, I93) == [] ==> r == Err(EnumTree.IndexError)
    ensures SubdocsAt(d, I93) != [] ==>
      var sub := SubdocsAt(d, I93)[0];
      (I28 !in sub.codemap ==> r == Err(TupleKeyError(I28))) &&
      (I28 in sub.codemap && NoteDict(sub.codemap[I28]).Err? ==> r == Err(NoteDict(sub.codemap[I28]).error)) &&
      (I28 in sub.codemap && NoteDict(sub.codemap[I28]).Ok? ==>
        var lines := Drop(sub.lines, 3);
        r.Ok? && 3 * |r.value| <= |lines| < 3 * |r.value| + 3 && r.value == Triples(TitleRow, lines, |r.value|))
  {
    var subs := SubdocsAt(d, I93);
    if subs == [] {
      return Err(EnumTree.IndexError);
    }
    var sub: Grouper.Subdoc := subs[0];
    if I28 !in sub.codemap {
      return Err(TupleKeyError(I28));
    }
    var notes := NoteDict(sub.codemap[I28]);
    if notes.Err? {
      return Err(notes.error);
    }
    var rows := TriplesOf(TitleRow, Drop(sub.lines, 3));
    return Ok(rows);
  }

  datatype ChapterTocRow = ChapterTocRow(section: string, name: string)

  /** The row of a chapter's table of contents from its two lines. */
  function ChapterRow(section: LocatorLine, name: LocatorLine): ChapterTocRow
  {
    ChapterTocRow(Squeeze(section.data), Strip(name.data))
  }

  /** A chapter row holds no dot or space in its section, and no space at
      either end of its name. */
  lemma ChapterRowClean(section: LocatorLine, name: LocatorLine)
    ensures var r := ChapterRow(section, name);
      (forall k :: 0 <= k < |r.section| ==> !Squeezable(r.section[k])) &&
      (r.name == [] || (!IsSpace(r.name[0]) && !IsSpace(r.name[|r.name| - 1])))
  {
  }

  /** `ChapterHeading.toc_items`: after the heading line of the first I70
      sub-document, each pair of lines is a (section, name) row; a last lone
      line is dropped. */
  method ChapterTocItems(d: Grouper.Document) returns (r: Result<seq<ChapterTocRow>>)
    ensures SubdocsAt(d, I70) == [] ==> r == Err(EnumTree.IndexError)
    ensures SubdocsAt(d, I70) != [] ==>
      var lines := Drop(SubdocsAt(d, I70)[0].lines, 1);
      r.Ok? && 2 * |r.value| <= |lines| < 2 * |r.value| + 2 && r.value == Pairs(ChapterRow, lines, |r.value|)
  {
    var subs := SubdocsAt(d, I70);
    if subs == [] {
      return Err(EnumTree.IndexError);
    }
    var rows := PairsOf(ChapterRow, Drop(subs[0].lines, 1));
    return Ok(rows);
  }

  // ---------------------------------------------------------------------------
  // Sections
  // ---------------------------------------------------------------------------

  /** `Section.enum`: the first I80 line split once at its first space; the
      part after it, stripped. A line with no space has nothing to unpack. */
  function SectionEnum(d: Grouper.Document): (r: Result<string>)
    ensures I80 !in d.codemap ==> r == Err(TupleKeyError(I80))
    ensures I80 in d.codemap && d.codemap[I80] == [] ==> r == Err(EnumTree.IndexError)
    ensures I80 in d.codemap && d.codemap[I80] != [] ==>
      (r == Err(Unpack) <==> !Contains(d.codemap[I80][0].data, " "))
    ensures r.Ok? ==> r.value == [] || (!IsSpace(r.value[0]) && !IsSpace(r.value[|r.value| - 1]))
  {
    match FirstLine(d.codemap, I80)
    case Err(e) => Err(e)
    case Ok(line) =>
      match Find(line.data, " ")
      case None => Err(Unpack)
      case Some(i) => Ok(Strip(line.data[i + 1..]))
  }

  /** A section line is its code word, a space and the number: the number,
      stripped, is the section's enum. */
  lemma SectionEnumOf(d: Grouper.Document, head: string, id: string)
    requires I80 in d.codemap && d.codemap[I80] != []
    requires d.codemap[I80][0].data == head + " " + id
    requires forall k :: 0 <= k < |head| ==> head[k] != ' '
    ensures SectionEnum(d) == Ok(Strip(id))
  {
    var data := head + " " + id;
    assert OccursAt(data, " ", |head|);
    forall k: nat | k < |head| ensures !OccursAt(data, " ", k) {
      assert data[k] == head[k];
    }
    var f := Find(data, " ");
    assert f.Some? && f.value == |head|;
    assert data[|head| + 1..] == id;
  }

  /** `re.sub(r'^[\s.]+', '', s)`: the leading dots and whitespace removed. */
  function DropLead(s: string): (r: string)
    ensures |r| <= |s| && r == s[|s| - |r|..]
    ensures r == [] || !Squeezable(r[0])
    ensures forall k :: 0 <= k < |s| - |r| ==> Squeezable(s[k])
  {
    if s != [] && Squeezable(s[0]) then DropLead(s[1..]) else s
  }

  /** `DropLead` removes exactly a leading run of dots and whitespace. */
  lemma {:induction false} DropLeadOf(lead: string, rest: string)
    requires forall k :: 0 <= k < |lead| ==> Squeezable(lead[k])
    requires rest == [] || !Squeezable(rest[0])
    ensures DropLead(lead + rest) == rest
  {
    if lead != [] {
      assert (lead + rest)[1..] == lead[1..] + rest;
      DropLeadOf(lead[1..], rest);
    } else {
      assert lead + rest == rest;
    }
  }

  /** Stripping a string with no whitespace at either end leaves it as it is. */
  lemma StripClean(s: string)
    requires s == [] || (!IsSpace(s[0]) && !IsSpace(s[|s| - 1]))
    ensures Strip(s) == s
  {
  }

  /** `Section.name`: the first line of the first I89 sub-document, its
      leading dots and whitespace removed, stripped. */
  function SectionName(d: Grouper.Document): (r: Result<string>)
    ensures SubdocsAt(d, I89) == [] ==> r == Err(EnumTree.IndexError)
    ensures SubdocsAt(d, I89) != [] ==>
      (r.Err? <==> SubdocsAt(d, I89)[0].lines == []) &&
      (r.Err? ==> r.error == EnumTree.IndexError)
    ensures r.Ok? ==> r.value == [] || (!Squeezable(r.value[0]) && !IsSpace(r.value[|r.value| - 1]))
  {
    var subs := SubdocsAt(d, I89);
    if subs == [] then Err(EnumTree.IndexError)
    else
      var lines := subs[0].lines;
      if lines == [] then Err(EnumTree.IndexError)
      else Ok(CleanName(lines[0].data))
  }

  /** A name line with its leading dots and whitespace removed, stripped: it
      starts with neither and ends with no whitespace. */
  function CleanName(data: string): (r: string)
    ensures r == [] || (!Squeezable(r[0]) && !IsSpace(r[|r| - 1]))
  {
    var t := DropLead(data);
    StripKeepsHead(t);
    Strip(t)
  }

  /** Stripping a string that starts with no whitespace keeps its first
      character. */
  lemma StripKeepsHead(s: string)
    requires s == [] || !IsSpace(s[0])
    ensures Strip(s) == [] || Strip(s)[0] == s[0]
  {
    assert LStrip(s) == s;
  }

  /** A name line is a run of dots and whitespace, then the name: the name
      is the section's name. */
  lemma SectionNameOf(d: Grouper.Document, lead: string, name: string)
    requires SubdocsAt(d, I89) != [] && SubdocsAt(d, I89)[0].lines != []
    requires SubdocsAt(d, I89)[0].lines[0].data == lead + name
    requires forall k :: 0 <= k < |lead| ==> Squeezable(lead[k])
    requires name == [] || (!Squeezable(name[0]) && !IsSpace(name[|name| - 1]))
    ensures SectionName(d) == Ok(name)
  {
    DropLeadOf(lead, name);
    StripClean(name);
  }

  // `body_lines`: each I line of the body as (enum, text, line) tokens

  /** The first whitespace character at or after `i`. */
  function SpaceAt(s: string, i: nat): (r: Option<nat>)
    requires i <= |s|
    ensures r.Some? ==>
      i <= r.value < |s| && IsSpace(s[r.value]) && forall k :: i <= k < r.value ==> !IsSpace(s[k])
    ensures r.None? ==> forall k :: i <= k < |s| ==> !IsSpace(s[k])
    decreases |s| - i
  {
    if i == |s| then None
    else if IsSpace(s[i]) then Some(i)
    else SpaceAt(s, i + 1)
  }

  /** `re.split(r'\s+', text, 1)` when it makes two parts: the text before
      the first run of whitespace and the text after the whole run. */
  function SplitOnSpace(text: string): (r: Option<(string, string)>)
    ensures r.None? <==> NoSpace(text)
    ensures r.Some? ==> NoSpace(r.value.0) && (r.value.1 == [] || !IsSpace(r.value.1[0]))
  {
    match SpaceAt(text, 0)
    case None => None
    case Some(i) =>
      var n := SpacesFrom(text, i);
      assert forall k :: 0 <= k < i ==> text[..i][k] == text[k];
      Some((text[..i], text[i + n..]))
  }

  /** The length of `\S+?` before the `\)` that closes it, scanning `t` from
      `j`: the first ')' after at least one character, with no whitespace
      before it. */
  function GroupLength(t: string, j: nat): (r: Option<nat>)
    requires j <= |t|
    ensures r.Some? ==> j <= r.value < |t| && 1 <= r.value && t[r.value] == ')'
    decreases |t| - j
  {
    if j == |t| || IsSpace(t[j]) then None
    else if t[j] == ')' && j >= 1 then Some(j)
    else GroupLength(t, j + 1)
  }

  /** `re.findall(r'\((\S+?)\)', s)`: the text inside each parenthesised
      group, scanning left to right and going on after each match. */
  function FindGroups(s: string): (r: seq<string>)
    ensures forall k :: 0 <= k < |r| ==> r[k] != []
    decreases |s|
  {
    if s == [] then []
    else if s[0] == '(' then
      match GroupLength(s[1..], 0)
      case Some(n) => [s[1..n + 1]] + FindGroups(s[n + 2..])
      case None => FindGroups(s[1..])
    else FindGroups(s[1..])
  }

  /** An enum as it appears in the text: characters that are neither
      whitespace nor ')'. */
  predicate PlainGroup(g: string)
  {
    g != [] && forall k :: 0 <= k < |g| ==> !IsSpace(g[k]) && g[k] != ')'
  }

  /** The enums of a line written one after the other, each in parentheses. */
  function Parenthesized(gs: seq<string>): (r: string)
    ensures gs != [] ==> r != [] && r[0] == '('
  {
    if gs == [] then [] else "(" + gs[0] + ")" + Parenthesized(gs[1..])
  }

  lemma {:induction false} ParenthesizedNoSpace(gs: seq<string>)
    requires forall k :: 0 <= k < |gs| ==> PlainGroup(gs[k])
    ensures NoSpace(Parenthesized(gs))
  {
    if gs != [] {
      ParenthesizedNoSpace(gs[1..]);
      var g, rest := gs[0], Parenthesized(gs[1..]);
      assert PlainGroup(g);
      assert Parenthesized(gs) == "(" + g + ")" + rest;
      forall k | 0 <= k < |Parenthesized(gs)| ensures !IsSpace(Parenthesized(gs)[k]) {
        if 1 <= k <= |g| {
          assert Parenthesized(gs)[k] == g[k - 1];
        } else if k > |g| + 1 {
          assert Parenthesized(gs)[k] == rest[k - |g| - 2];
        }
      }
    }
  }

  /** A plain group followed by ')' is one group, whatever follows. */
  lemma {:induction false} GroupLengthOf(g: string, rest: string, j: nat)
    requires PlainGroup(g) && j <= |g|
    ensures GroupLength(g + ")" + rest, j) == Some(|g|)
    decreases |g| - j
  {
    var t := g + ")" + rest;
    assert t[|g|] == ')';
    if j < |g| {
      assert t[j] == g[j];
      GroupLengthOf(g, rest, j + 1);
    }
  }

  /** `findall` reads back the enums of a line. */
  lemma {:induction false} FindGroupsOf(gs: seq<string>)
    requires forall k :: 0 <= k < |gs| ==> PlainGroup(gs[k])
    ensures FindGroups(Parenthesized(gs)) == gs
  {
    if gs != [] {
      var g, rest := gs[0], Parenthesized(gs[1..]);
      var s := Parenthesized(gs);
      assert s == "(" + (g + ")" + rest);
      assert s[1..] == g + ")" + rest;
      GroupLengthOf(g, rest, 0);
      assert s[1..|g| + 1] == g;
      assert s[|g| + 2..] == rest;
      FindGroupsOf(gs[1..]);
    }
  }

  /** `list(map(Enum, groups))`: each group parsed in turn, the first failure
      raised. */
  function ParseEnums(groups: seq<string>): Result<seq<Enum>>
  {
    var rs := seq(|groups|, k requires 0 <= k < |groups| => ParseEnum(groups[k]));
    Collect(rs)
  }

  /** The values of the results, or the first error among them. */
  function Collect(rs: seq<Result<Enum>>): (r: Result<seq<Enum>>)
    ensures r.Ok? <==> forall k :: 0 <= k < |rs| ==> rs[k].Ok?
    ensures r.Ok? ==>
      |r.value| == |rs| && forall k :: 0 <= k < |rs| ==> r.value[k] == rs[k].value
    ensures r.Err? ==>
      exists k :: 0 <= k < |rs| && rs[k] == Err(r.error) && forall j :: 0 <= j < k ==> rs[j].Ok?
  {
    if rs == [] then Ok([])
    else
      match rs[0]
      case Err(e) => Err(e)
      case Ok(v) =>
        var rest := Collect(rs[1..]);
        if rest.Err? then
          var k :| 0 <= k < |rs| - 1 && rs[1..][k] == Err(rest.error) && forall j :: 0 <= j < k ==> rs[1..][j].Ok?;
          assert rs[k + 1] == Err(rest.error);
          Err(rest.error)
        else Ok([v] + rest.value)
  }

  /** The tokens of a line with enums: one per enum, every one after the
      first nested, and only the last carrying the body and the line. */
  function EnumTokens(enums: seq<Enum>, body: string, line: LocatorLine): (r: seq<EnumTree.Token>)
    ensures |r| == |enums|
  {
    seq(|enums|, k requires 0 <= k < |enums| =>
      EnumTree.Token(Some(enums[k]), k > 0,
        if k == |enums| - 1 then Some(body) else None,
        if k == |enums| - 1 then Some(line) else None))
  }

  /** The tokens `body_lines` yields for one line (none unless its code is
      "I"), or the error that stops it there. */
  function LineTokens(line: LocatorLine): (r: Result<seq<EnumTree.Token>>)
  {
    if line.code != "I" then Ok([])
    else if !StartsWith(line.data, "(") then Ok([EnumTree.Token(None, false, Some(line.data), Some(line))])
    else
      match SplitOnSpace(line.data)
      case None => Err(Unpack)
      case Some((enumText, body)) =>
        LineEnums(ParseEnums(FindGroups(enumText)), body, line)
  }

  /** The tokens of the parsed enums of a line, or the parse error. */
  function LineEnums(enums: Result<seq<Enum>>, body: string, line: LocatorLine): Result<seq<EnumTree.Token>>
  {
    match enums
    case Err(e) => Err(e)
    case Ok(es) => Ok(EnumTokens(es, body, line))
  }

  /** An I line that does not start with '(' is one token: no enum, the
      whole text as body. */
  lemma PlainLineTokens(line: LocatorLine)
    requires line.code == "I" && (line.data == [] || line.data[0] != '(')
    ensures LineTokens(line) == Ok([EnumTree.Token(None, false, Some(line.data), Some(line))])
  {
  }

  /** "(B)(i)(1) blah" gives B and i with no text, then 1 with "blah" and
      the line, i and 1 nested; or the error of the first enum that does
      not parse. */
  lemma NestedLineTokens(line: LocatorLine, gs: seq<string>, gap: string, body: string)
    requires line.code == "I" && NestedText(line.data, gs, gap, body)
    ensures LineTokens(line) == LineEnums(ParseEnums(gs), body, line)
  {
    NestedParts(line.data, gs, gap, body);
    SplitLineTokens(line, Parenthesized(gs), body, gs);
  }

  /** `data` is the parenthesised plain groups `gs`, a run of whitespace
      `gap`, then a `body` that does not start with whitespace. */
  predicate NestedText(data: string, gs: seq<string>, gap: string, body: string)
  {
    && gs != [] && (forall k :: 0 <= k < |gs| ==> PlainGroup(gs[k]))
    && gap != [] && (forall k :: 0 <= k < |gap| ==> IsSpace(gap[k]))
    && (body == [] || !IsSpace(body[0]))
    && data == Parenthesized(gs) + gap + body
  }

  /** Parenthesised groups, a gap and a body split back into the groups'
      text and the body, and the groups are found again in that text. */
  lemma NestedParts(data: string, gs: seq<string>, gap: string, body: string)
    requires NestedText(data, gs, gap, body)
    ensures StartsWith(data, "(")
    ensures SplitOnSpace(data) == Some((Parenthesized(gs), body))
    ensures FindGroups(Parenthesized(gs)) == gs
  {
    ParenthesizedNoSpace(gs);
    NestedSplit(data, Parenthesized(gs), gap, body);
    FindGroupsOf(gs);
  }

  /** An I line starting with '(' and split at its first whitespace gives
      the tokens of the enums found before the split. */
  lemma SplitLineTokens(line: LocatorLine, enumText: string, body: string, gs: seq<string>)
    requires line.code == "I" && StartsWith(line.data, "(")
    requires SplitOnSpace(line.data) == Some((enumText, body))
    requires FindGroups(enumText) == gs
    ensures LineTokens(line) == LineEnums(ParseEnums(gs), body, line)
  {
  }

  /** Enum text with no whitespace comes before the first whitespace, the
      body after the whole run of it. */
  lemma NestedSplit(data: string, p: string, gap: string, body: string)
    requires p != [] && p[0] == '(' && NoSpace(p)
    requires gap != [] && forall k :: 0 <= k < |gap| ==> IsSpace(gap[k])
    requires body == [] || !IsSpace(body[0])
    requires data == p + gap + body
    ensures StartsWith(data, "(")
    ensures var r := SplitOnSpace(data); r.Some? && r.value.0 == p && r.value.1 == body
  {
    assert data[..1] == p[..1];
    assert forall k :: 0 <= k < |p| ==> data[k] == p[k];
    assert data[|p|] == gap[0];
    SpaceAtExact(data, 0, |p|);
    assert forall k :: |p| <= k < |p| + |gap| ==> data[k] == gap[k - |p|];
    assert |p| + |gap| < |data| ==> data[|p| + |gap|] == body[0];
    SpacesExact(data, |p|, |gap|);
    assert data[..|p|] == p;
    assert data[|p| + |gap|..] == body;
  }

  lemma {:induction false} SpaceAtExact(s: string, i: nat, n: nat)
    requires i <= n < |s| && IsSpace(s[n]) && forall k :: i <= k < n ==> !IsSpace(s[k])
    ensures SpaceAt(s, i) == Some(n)
    decreases n - i
  {
    if i < n {
      SpaceAtExact(s, i + 1, n);
    }
  }

  /** What `body_lines` yields: its tokens, then the error that stopped it,
      if any. */
  datatype Yielded = Yielded(tokens: seq<EnumTree.Token>, error: Option<string>)

  /** The tokens of `lines` in order, up to the first line whose tokens fail. */
  function BodyFrom(lines: seq<LocatorLine>): Yielded
  {
    BodyBy(lines, LineTokens)
  }

  /** The tokens `read` gives for each line in order, up to the first line it
      fails on. */
  function BodyBy(lines: seq<LocatorLine>, read: LocatorLine -> Result<seq<EnumTree.Token>>): Yielded
  {
    if lines == [] then Yielded([], None)
    else
      match read(lines[0])
      case Err(e) => Yielded([], Some(e))
      case Ok(ts) =>
        var rest := BodyBy(lines[1..], read);
        Yielded(ts + rest.tokens, rest.error)
  }

  /** One line read: its tokens or its error, then the rest. */
  lemma BodyByStep(ls: seq<LocatorLine>, read: LocatorLine -> Result<seq<EnumTree.Token>>)
    requires ls != []
    ensures read(ls[0]).Err? ==> BodyBy(ls, read) == Yielded([], Some(read(ls[0]).error))
    ensures read(ls[0]).Ok? ==>
      BodyBy(ls, read) == Yielded(read(ls[0]).value + BodyBy(ls[1..], read).tokens, BodyBy(ls[1..], read).error)
  {
  }

  /** Lines read one after another give their tokens one after another. */
  lemma {:induction false} BodyByAppend(a: seq<LocatorLine>, b: seq<LocatorLine>, read: LocatorLine -> Result<seq<EnumTree.Token>>)
    requires BodyBy(a, read).error.None?
    ensures BodyBy(a + b, read) == Yielded(BodyBy(a, read).tokens + BodyBy(b, read).tokens, BodyBy(b, read).error)
  {
    if a != [] {
      assert (a + b)[0] == a[0];
      assert (a + b)[1..] == a[1..] + b;
      BodyByAppend(a[1..], b, read);
      var ts := read(a[0]).value;
      assert ts + (BodyBy(a[1..], read).tokens + BodyBy(b, read).tokens) == (ts + BodyBy(a[1..], read).tokens) + BodyBy(b, read).tokens;
    } else {
      assert a + b == b;
    }
  }

  /** The pop loop of `body_lines`: the enums reversed into a stack and
      popped, the last one popped taking the body and the line. */
  method PopTokens(enums: seq<Enum>, body: string, line: LocatorLine) returns (tokens: seq<EnumTree.Token>)
    ensures tokens == EnumTokens(enums, body, line)
  {
    var stack := seq(|enums|, k requires 0 <= k < |enums| => enums[|enums| - 1 - k]);
    tokens := [];
    while stack != []
      invariant |tokens| + |stack| == |enums|
      invariant forall k :: 0 <= k < |stack| ==> stack[k] == enums[|enums| - 1 - k]
      invariant tokens == EnumTokens(enums, body, line)[..|tokens|]
      decreases |stack|
    {
      var e := stack[|stack| - 1];
      stack := stack[..|stack| - 1];
      var token;
      if stack == [] {
        token := EnumTree.Token(Some(e), |tokens| > 0, Some(body), Some(line));
      } else {
        token := EnumTree.Token(Some(e), |tokens| > 0, None, None);
      }
      assert token == EnumTokens(enums, body, line)[|tokens|];
      tokens := tokens + [token];
    }
  }

  /** `Section.body_lines`: the body is the lines after the heading of the
      only I89 sub-document; each I line gives its tokens. The assertion
      fails, before anything is yielded, unless exactly one I89
      sub-document was filed (a missing key reads as an empty list). */
  method BodyLines(d: Grouper.Document) returns (y: Yielded)
    ensures |SubdocsAt(d, I89)| != 1 ==> y == Yielded([], Some(NotOneBody))
    ensures |SubdocsAt(d, I89)| == 1 ==> y == BodyFrom(Drop(SubdocsAt(d, I89)[0].lines, 1))
  {
    var subs := SubdocsAt(d, I89);
    if |subs| != 1 {
      return Yielded([], Some(NotOneBody));
    }
    y := ReadBody(Drop(subs[0].lines, 1));
  }

  /** The `for line in lines` loop of `body_lines`. */
  method ReadBody(lines: seq<LocatorLine>) returns (y: Yielded)
    ensures y == BodyFrom(lines)
  {
    var tokens: seq<EnumTree.Token> := [];
    var i := 0;
    assert lines[0..] == lines;
    while i < |lines|
      invariant i <= |lines|
      invariant BodyFrom(lines) == Yielded(tokens + BodyBy(lines[i..], LineTokens).tokens, BodyBy(lines[i..], LineTokens).error)
      decreases |lines| - i
    {
      var r := LineStep(lines[i]);
      assert lines[i..][0] == lines[i] && lines[i..][1..] == lines[i + 1..];
      BodyByStep(lines[i..], LineTokens);
      if r.Err? {
        return Yielded(tokens, Some(r.error));
      }
      ConcatAssoc(tokens, r.value, BodyBy(lines[i + 1..], LineTokens).tokens);
      tokens := tokens + r.value;
      i := i + 1;
    }
    assert lines[i..] == [];
    return Yielded(tokens, None);
  }

  /** One turn of the `for line in lines` loop. */
  method LineStep(line: LocatorLine) returns (r: Result<seq<EnumTree.Token>>)
    ensures r == LineTokens(line)
  {
    if line.code != "I" {
      return Ok([]);
    }
    var text := line.data;
    if !StartsWith(text, "(") {
      return Ok([EnumTree.Token(None, false, Some(text), Some(line))]);
    }
    var parts := SplitOnSpace(text);
    if parts.None? {
      return Err(Unpack);
    }
    var (enumText, body) := parts.value;
    var enums := ParseEnums(FindGroups(enumText));
    if enums.Err? {
      return Err(enums.error);
    }
    var tokens := PopTokens(enums.value, body, line);
    return Ok(tokens);
  }
}
