// Compound enumerations such as "(3-a)." of uscode/schemes.py: the format
// characters around them, their tokens, their positions in the schemes,
// their ordering and whether one could directly follow another.

module Enums {
  import opened Wrappers
  import opened Strings
  import opened Schemes

  const UnrecognizedToken := "UnrecognizedTokenError: the enum text holds unrecognized characters"
  const EmptiedText := "IndexError: string index out of range"
  const NoTokens := "TypeError: 'NoneType' object is not iterable"

  // ---------------------------------------------------------------------------
  // Parsing an enum
  // ---------------------------------------------------------------------------

  /** The characters an enum may hold: those of the one-character scheme
      tokens (the ASCII letters and 1-9) and '-', '0', '.', '(' and ')'. */
  predicate Recognized(c: char)
  {
    IsAlphaAscii(c) || IsDigit(c) || c == '-' || c == '.' || c == '(' || c == ')'
  }

  predicate AllRecognized(s: string)
  {
    forall k :: 0 <= k < |s| ==> Recognized(s[k])
  }

  predicate IsClose(c: char) { c == '.' || c == ')' }

  /** How many '(' open the text. */
  function LeadingOpens(s: string): (n: nat)
    ensures n <= |s| && (forall k :: 0 <= k < n ==> s[k] == '(') && (n < |s| ==> s[n] != '(')
  {
    if s != [] && s[0] == '(' then 1 + LeadingOpens(s[1..]) else 0
  }

  /** How many '.' and ')' close the text. */
  function TrailingCloses(s: string): (n: nat)
    ensures n <= |s| && (forall k :: |s| - n <= k < |s| ==> IsClose(s[k]))
    ensures n < |s| ==> !IsClose(s[|s| - n - 1])
  {
    if s != [] && IsClose(s[|s| - 1]) then 1 + TrailingCloses(s[..|s| - 1]) else 0
  }

  function Reverse(s: string): (r: string)
    ensures |r| == |s| && forall k :: 0 <= k < |s| ==> r[k] == s[|s| - 1 - k]
  {
    if s == [] then [] else Reverse(s[1..]) + [s[0]]
  }

  /** The three kinds of token the enum's patterns pick out, and the
      characters none of them matches. */
  datatype Kind = Alpha | Numeral | Connector | Unmatched

  function KindOf(c: char): Kind
  {
    if IsAlphaAscii(c) then Alpha
    else if IsDigit(c) || c == '.' then Numeral
    else if c == '-' then Connector
    else Unmatched
  }

  /** How many leading characters are of kind `k`. */
  function RunLength(s: string, k: Kind): (n: nat)
    ensures n <= |s| && (forall j :: 0 <= j < n ==> KindOf(s[j]) == k) && (n < |s| ==> KindOf(s[n]) != k)
  {
    if s != [] && KindOf(s[0]) == k then 1 + RunLength(s[1..], k) else 0
  }

  /** The matches of the patterns `[A-Z]+` (ignoring case), `[\d.]+` and
      `[-]+`, ordered by where they start: the maximal runs of letters, of
      digits and points, and of hyphens. */
  function Tokenize(s: string): (r: seq<string>)
    ensures forall i :: 0 <= i < |r| ==> Uniform(r[i])
    decreases |s|
  {
    if s == [] then []
    else if KindOf(s[0]) == Unmatched then Tokenize(s[1..])
    else
      var n := RunLength(s, KindOf(s[0]));
      [s[..n]] + Tokenize(s[n..])
  }

  /** `Enum`: the text as given, the '(' in front, the '.' and ')' behind
      (in the order they were removed, last character first), the text
      between them and its tokens. */
  datatype Enum = Enum(original: string, formatLeft: string, formatRight: string, text: string, tokens: seq<string>)

  /** `Enum.__init__`. */
  function ParseEnum(original: string): Result<Enum>
  {
    if !AllRecognized(original) then Err(UnrecognizedToken)
    else ParseStripped(original, Strip(original))
  }

  /** `Enum.__init__` once the text `s` has been stripped. */
  function ParseStripped(original: string, s: string): Result<Enum>
  {
    if s == [] then Ok(Enum(original, [], [], [], []))
    else
      var n := LeadingOpens(s);
      if n == |s| then Err(EmptiedText)
      else
        var rest := s[n..];
        var m := TrailingCloses(rest);
        if m == |rest| then Err(EmptiedText)
        else
          var core := rest[..|rest| - m];
          Ok(Enum(original, s[..n], Reverse(rest[|rest| - m..]), core, Tokenize(core)))
  }

  /** The front loop of `Enum.__init__`: move each leading '(' into the
      left format, failing when nothing is left. */
  method StripOpens(s: string) returns (r: Option<(string, string)>)
    requires s != []
    ensures r.None? <==> LeadingOpens(s) == |s|
    ensures r.Some? ==> r.value == (s[..LeadingOpens(s)], s[LeadingOpens(s)..])
  {
    var left := "";
    var text := s;
    var first := text[0];
    while first == '('
      invariant |left| + |text| == |s| && text != [] && first == text[0]
      invariant left == s[..|left|] && text == s[|left|..]
      invariant forall k :: 0 <= k < |left| ==> s[k] == '('
      decreases |text|
    {
      left := left + [first];
      text := text[1..];
      if text == [] {
        OpensAt(s, |left|);
        return None;
      }
      first := text[0];
    }
    OpensAt(s, |left|);
    return Some((left, text));
  }

  /** The count of leading '(' is the first place that is not one. */
  lemma {:induction false} OpensAt(s: string, n: nat)
    requires n <= |s| && (forall k :: 0 <= k < n ==> s[k] == '(') && (n < |s| ==> s[n] != '(')
    ensures LeadingOpens(s) == n
  {
    if n > 0 {
      OpensAt(s[1..], n - 1);
    }
  }

  /** The back loop of `Enum.__init__`: move each trailing '.' or ')' into
      the right format, failing when nothing is left. */
  method StripCloses(s: string) returns (r: Option<(string, string)>)
    requires s != []
    ensures r.None? <==> TrailingCloses(s) == |s|
    ensures r.Some? ==> var m := TrailingCloses(s);
      r.value == (Reverse(s[|s| - m..]), s[..|s| - m])
  {
    var right := "";
    var text := s;
    var last := text[|text| - 1];
    while IsClose(last)
      invariant |right| + |text| == |s| && text != [] && last == text[|text| - 1]
      invariant text == s[..|text|] && right == Reverse(s[|text|..])
      invariant forall k :: |text| <= k < |s| ==> IsClose(s[k])
      decreases |text|
    {
      assert s[|text| - 1..] == [last] + s[|text|..];
      right := right + [last];
      text := text[..|text| - 1];
      if text == [] {
        ClosesAt(s, |right|);
        return None;
      }
      last := text[|text| - 1];
    }
    ClosesAt(s, |right|);
    return Some((right, text));
  }

  /** The count of trailing closers is the first place from the end that is
      not one. */
  lemma {:induction false} ClosesAt(s: string, m: nat)
    requires m <= |s| && (forall k :: |s| - m <= k < |s| ==> IsClose(s[k]))
    requires m < |s| ==> !IsClose(s[|s| - m - 1])
    ensures TrailingCloses(s) == m
  {
    if m > 0 {
      ClosesAt(s[..|s| - 1], m - 1);
    }
  }

  /** `Enum.__init__` as the source runs it: screen the characters, strip,
      then the two loops over the format characters. */
  method NewEnum(original: string) returns (r: Result<Enum>)
    ensures r == ParseEnum(original)
  {
    if !AllRecognized(original) {
      return Err(UnrecognizedToken);
    }
    var s := Strip(original);
    if s == [] {
      return Ok(Enum(original, [], [], [], []));
    }
    var front := StripOpens(s);
    if front.None? {
      return Err(EmptiedText);
    }
    var (left, rest) := front.value;
    var back := StripCloses(rest);
    if back.None? {
      return Err(EmptiedText);
    }
    var (right, core) := back.value;
    return Ok(Enum(original, left, right, core, Tokenize(core)));
  }

  /** Putting the format characters back around the text gives the text as
      given. */
  lemma ParseRoundTrip(original: string)
    requires ParseEnum(original).Ok?
    ensures var e := ParseEnum(original).value;
      e.formatLeft + e.text + Reverse(e.formatRight) == original
  {
    RecognizedNoSpace(original);
    StripNoSpace(original);
    assert ParseEnum(original) == ParseStripped(original, original);
    if original != [] {
      var n := LeadingOpens(original);
      var rest := original[n..];
      var m := TrailingCloses(rest);
      var e := ParseEnum(original).value;
      assert e.formatLeft == original[..n] && e.text == rest[..|rest| - m];
      assert e.formatRight == Reverse(rest[|rest| - m..]);
      SplitFormat(original, n, m);
    }
  }

  /** Only '(' are in front, only '.' and ')' behind, and the text neither
      starts with '(' nor ends with either. */
  lemma ParseFormats(original: string)
    requires ParseEnum(original).Ok?
    ensures var e := ParseEnum(original).value;
      (forall k :: 0 <= k < |e.formatLeft| ==> e.formatLeft[k] == '(') &&
      (forall k :: 0 <= k < |e.formatRight| ==> IsClose(e.formatRight[k])) &&
      (e.text != [] ==> e.text[0] != '(' && !IsClose(e.text[|e.text| - 1]))
  {
    FormatLeftOpens(original);
    FormatRightCloses(original);
    TextEnds(original);
  }

  lemma FormatLeftOpens(original: string)
    requires ParseEnum(original).Ok?
    ensures var e := ParseEnum(original).value;
      forall k :: 0 <= k < |e.formatLeft| ==> e.formatLeft[k] == '('
  {
  }

  lemma FormatRightCloses(original: string)
    requires ParseEnum(original).Ok?
    ensures var e := ParseEnum(original).value;
      forall k :: 0 <= k < |e.formatRight| ==> IsClose(e.formatRight[k])
  {
  }

  lemma TextEnds(original: string)
    requires ParseEnum(original).Ok?
    ensures var e := ParseEnum(original).value;
      e.text != [] ==> e.text[0] != '(' && !IsClose(e.text[|e.text| - 1])
  {
    var s := Strip(original);
    assert ParseEnum(original) == ParseStripped(original, s);
    CoreEnds(original, s);
  }

  /** What is left between the opening and closing marks neither starts
      with '(' nor ends with '.' or ')'. */
  lemma CoreEnds(original: string, s: string)
    requires ParseStripped(original, s).Ok?
    ensures var e := ParseStripped(original, s).value;
      e.text != [] ==> e.text[0] != '(' && !IsClose(e.text[|e.text| - 1])
  {
  }

  /** The parts cut off the front and back, put back, give the whole. */
  lemma SplitFormat(s: string, n: nat, m: nat)
    requires n <= |s| && m <= |s| - n
    ensures var rest := s[n..];
      s[..n] + rest[..|rest| - m] + Reverse(Reverse(rest[|rest| - m..])) == s
  {
    var rest := s[n..];
    ReverseReverse(rest[|rest| - m..]);
    assert rest[..|rest| - m] + rest[|rest| - m..] == rest;
    assert s[..n] + rest == s;
  }

  lemma RecognizedNoSpace(s: string)
    requires AllRecognized(s)
    ensures NoSpace(s)
  {
  }

  lemma {:induction false} ReverseReverse(s: string)
    ensures Reverse(Reverse(s)) == s
  {
    if s != [] {
      ReverseReverse(s[1..]);
      ReverseAppend(Reverse(s[1..]), [s[0]]);
    }
  }

  lemma ReverseAppend(a: string, b: string)
    ensures Reverse(a + b) == Reverse(b) + Reverse(a)
  {
  }

  // ---------------------------------------------------------------------------
  // Tokens of an enum
  // ---------------------------------------------------------------------------

  function Concat(ts: seq<string>): string
  {
    if ts == [] then [] else ts[0] + Concat(ts[1..])
  }

  /** The characters some pattern matches, in order. */
  function Matched(s: string): string
  {
    if s == [] then [] else (if KindOf(s[0]) == Unmatched then [] else [s[0]]) + Matched(s[1..])
  }

  /** A token is a non-empty run of one kind of character. */
  predicate Uniform(t: string)
  {
    t != [] && KindOf(t[0]) != Unmatched && forall j :: 0 <= j < |t| ==> KindOf(t[j]) == KindOf(t[0])
  }

  /** The tokens together spell out every matched character, in order. */
  lemma {:induction false} TokenizeCovers(s: string)
    ensures Concat(Tokenize(s)) == Matched(s)
    decreases |s|
  {
    if s != [] {
      if KindOf(s[0]) == Unmatched {
        TokenizeCovers(s[1..]);
      } else {
        var n := RunLength(s, KindOf(s[0]));
        TokenizeCovers(s[n..]);
        MatchedRun(s, n);
        assert Tokenize(s) == [s[..n]] + Tokenize(s[n..]);
        assert Concat(Tokenize(s)) == s[..n] + Concat(Tokenize(s[n..]));
      }
    }
  }

  /** A run of matched characters is kept whole. */
  lemma {:induction false} MatchedRun(s: string, n: nat)
    requires n <= |s| && forall j :: 0 <= j < n ==> KindOf(s[j]) != Unmatched
    ensures Matched(s) == s[..n] + Matched(s[n..])
  {
    if n > 0 {
      MatchedRun(s[1..], n - 1);
      assert s[1..][..n - 1] == s[1..n];
      assert s[1..][n - 1..] == s[n..];
    }
  }

  /** The matches are maximal: in text where every character is matched, a
      token never continues the kind of the one before it. */
  lemma {:induction false} TokenizeMaximal(s: string)
    requires forall j :: 0 <= j < |s| ==> KindOf(s[j]) != Unmatched
    ensures forall i :: 0 < i < |Tokenize(s)| ==> KindOf(Tokenize(s)[i][0]) != KindOf(Tokenize(s)[i - 1][0])
    decreases |s|
  {
    if s != [] {
      var n := RunLength(s, KindOf(s[0]));
      var rest := Tokenize(s[n..]);
      TokenizeMaximal(s[n..]);
      assert Tokenize(s) == [s[..n]] + rest;
      if rest != [] {
        assert rest[0][0] == s[n] by {
          TokenizeHead(s[n..]);
        }
      }
    }
  }

  /** In text that starts with a matched character, the first token starts there. */
  lemma TokenizeHead(s: string)
    requires s != [] && KindOf(s[0]) != Unmatched
    ensures Tokenize(s) != [] && Tokenize(s)[0] != [] && Tokenize(s)[0][0] == s[0]
  {
  }

  // ---------------------------------------------------------------------------
  // Positions of an enum
  // ---------------------------------------------------------------------------

  /** `_itertokens`: the tokens other than "-". */
  function Words(tokens: seq<string>): (r: seq<string>)
    ensures forall i :: 0 <= i < |r| ==> r[i] != "-" && r[i] in tokens
    ensures |r| <= |tokens|
  {
    if tokens == [] then []
    else if tokens[0] == "-" then Words(tokens[1..])
    else [tokens[0]] + Words(tokens[1..])
  }

  /** A token's places in the lists of its schemes that hold it, schemes
      taken in table order. */
  function PlacesIn(t: string, ss: set<Scheme>, order: seq<Scheme>): (r: seq<nat>)
    ensures |r| <= |order|
  {
    if order == [] then []
    else
      var s := order[0];
      (if s in ss && t in SchemeList(s) then [IndexOf(SchemeList(s), t)] else []) + PlacesIn(t, ss, order[1..])
  }

  /** The inner loops of `Enum.get_ordinality`: every word's places in its
      schemes, one after another; raises where a word's schemes do. */
  function WordPlaces(words: seq<string>): Result<seq<nat>>
  {
    if words == [] then Ok([])
    else
      match TokenSchemes(words[0])
      case Err(e) => Err(e)
      case Ok(ss) =>
        match WordPlaces(words[1..])
        case Err(e) => Err(e)
        case Ok(rest) => Ok(PlacesIn(words[0], ss, AllSchemes) + rest)
  }

  /** `Enum.get_ordinality`: for each scheme of the first token, the place of
      the whole text in it, or else (for a compound enum) the places of its
      words; a scheme for which nothing was found has no entry. */
  function EnumOrdinality(e: Enum): Result<map<Scheme, seq<nat>>>
  {
    if e.tokens == [] then Err(NoTokens)
    else
      match TokenSchemes(e.tokens[0])
      case Err(er) => Err(er)
      case Ok(ss) =>
        var words := Words(e.tokens);
        var compound := |words| != 1;
        var inner := WordPlaces(words);
        if compound && inner.Err? && exists s :: s in ss && e.text !in SchemeList(s) then Err(inner.error)
        else
          Ok(map s | s in ss && (e.text in SchemeList(s) || (compound && inner.Ok? && inner.value != [])) ::
               if e.text in SchemeList(s) then [IndexOf(SchemeList(s), e.text)] else inner.value)
  }

  /** Every entry holds something; a scheme listing the whole text holds its
      place, and the others the places of the words. */
  lemma EnumOrdinalityShape(e: Enum)
    requires EnumOrdinality(e).Ok?
    ensures var ord := EnumOrdinality(e).value;
      e.tokens != [] && TokenSchemes(e.tokens[0]).Ok? &&
      ord.Keys <= TokenSchemes(e.tokens[0]).value &&
      (forall s :: s in ord ==> ord[s] != []) &&
      (forall s :: s in TokenSchemes(e.tokens[0]).value && e.text in SchemeList(s) ==>
         s in ord && ord[s] == [IndexOf(SchemeList(s), e.text)] && SchemeList(s)[ord[s][0]] == e.text)
  {
  }

  /** Python's `<` on lists of numbers: the first difference decides, and a
      proper prefix comes first. */
  predicate LexLess(x: seq<nat>, y: seq<nat>)
  {
    if x == [] then y != []
    else if y == [] then false
    else if x[0] != y[0] then x[0] < y[0]
    else LexLess(x[1..], y[1..])
  }

  lemma {:induction false} LexLessIrreflexive(x: seq<nat>)
    ensures !LexLess(x, x)
  {
    if x != [] {
      LexLessIrreflexive(x[1..]);
    }
  }

  /** Exactly one of x < y, x == y and y < x holds. */
  lemma {:induction false} LexLessTrichotomy(x: seq<nat>, y: seq<nat>)
    ensures x == y <==> !LexLess(x, y) && !LexLess(y, x)
    ensures !(LexLess(x, y) && LexLess(y, x))
  {
    if x == y {
      LexLessIrreflexive(x);
    } else if x != [] && y != [] {
      LexLessTrichotomy(x[1..], y[1..]);
      if x[0] == y[0] {
        assert x == [x[0]] + x[1..] && y == [y[0]] + y[1..];
      }
    }
  }

  lemma {:induction false} LexLessTransitive(x: seq<nat>, y: seq<nat>, z: seq<nat>)
    requires LexLess(x, y) && LexLess(y, z)
    ensures LexLess(x, z)
  {
    if x != [] && y != [] && z != [] && x[0] == y[0] && y[0] == z[0] {
      LexLessTransitive(x[1..], y[1..], z[1..]);
    }
  }

  /** `Enum.__lt__`: in some scheme the two share, this enum's places come
      first; False when they share none. */
  function EnumLt(a: Enum, b: Enum): (r: Result<bool>)
  {
    match EnumOrdinality(a)
    case Err(e) => Err(e)
    case Ok(o1) =>
      match EnumOrdinality(b)
      case Err(e) => Err(e)
      case Ok(o2) => Ok(exists s :: s in o1 && s in o2 && LexLess(o1[s], o2[s]))
  }

  /** `Enum.__gt__`: in some shared scheme this enum's places come last. */
  function EnumGt(a: Enum, b: Enum): (r: Result<bool>)
  {
    match EnumOrdinality(a)
    case Err(e) => Err(e)
    case Ok(o1) =>
      match EnumOrdinality(b)
      case Err(e) => Err(e)
      case Ok(o2) => Ok(exists s :: s in o1 && s in o2 && LexLess(o2[s], o1[s]))
  }

  /** `Enum.__le__`: equal text, or less. */
  function EnumLe(a: Enum, b: Enum): (r: Result<bool>)
    ensures a.text == b.text ==> r == Ok(true)
    ensures a.text != b.text ==> r == EnumLt(a, b)
  {
    if a.text == b.text then Ok(true) else EnumLt(a, b)
  }

  /** `Enum.__ge__`: equal text, or greater. */
  function EnumGe(a: Enum, b: Enum): (r: Result<bool>)
    ensures a.text == b.text ==> r == Ok(true)
    ensures a.text != b.text ==> r == EnumGt(a, b)
  {
    if a.text == b.text then Ok(true) else EnumGt(a, b)
  }

  /** a < b exactly when b > a; both raise or neither does. */
  lemma LtGtConverse(a: Enum, b: Enum)
    ensures EnumLt(a, b).Ok? <==> EnumGt(b, a).Ok?
    ensures EnumLt(a, b).Ok? ==> EnumLt(a, b).value == EnumGt(b, a).value
  {
  }

  /** No enum is less than itself, and a < b and b < a never hold together
      through the same scheme. */
  lemma LtIrreflexive(a: Enum)
    requires EnumLt(a, a).Ok?
    ensures !EnumLt(a, a).value && !EnumGt(a, a).value
  {
    var o := EnumOrdinality(a).value;
    forall s | s in o ensures !LexLess(o[s], o[s]) {
      LexLessIrreflexive(o[s]);
    }
  }

  /** Enums with no shared scheme are neither less nor greater. */
  lemma NoSharedScheme(a: Enum, b: Enum)
    requires EnumOrdinality(a).Ok? && EnumOrdinality(b).Ok?
    requires EnumOrdinality(a).value.Keys !! EnumOrdinality(b).value.Keys
    ensures EnumLt(a, b) == Ok(false) && EnumGt(a, b) == Ok(false)
  {
  }

  // ---------------------------------------------------------------------------
  // Could one enum follow another
  // ---------------------------------------------------------------------------

  /** `zip(self, other)`. */
  function Zip(xs: seq<string>, ys: seq<string>): (r: seq<(string, string)>)
    ensures |r| == if |xs| < |ys| then |xs| else |ys|
    ensures forall i :: 0 <= i < |r| ==> r[i] == (xs[i], ys[i])
  {
    if xs == [] || ys == [] then [] else [(xs[0], ys[0])] + Zip(xs[1..], ys[1..])
  }

  /** The tokens of `a` past the length of `b`, other than "-". */
  function ExtraWords(a: Enum, b: Enum): seq<string>
  {
    if |b.tokens| <= |a.tokens| then Words(a.tokens[|b.tokens|..]) else []
  }

  /** The loop of `Enum.could_be_next_after` over the token pairs, with the
      flag that remembers a consecutive pair. */
  function NextLoop(pairs: seq<(string, string)>, consecutive: bool): Result<bool>
  {
    if pairs == [] then Ok(true)
    else
      match TokenNext(pairs[0].0, pairs[0].1)
      case Err(e) => Err(e)
      case Ok(c) =>
        if c == NotNext then Ok(false)
        else if c == Equal then NextLoop(pairs[1..], consecutive)
        else if consecutive then Ok(false)
        else NextLoop(pairs[1..], true)
  }

  /** `Enum.could_be_next_after(other)`. */
  function EnumNext(a: Enum, b: Enum): Result<bool>
  {
    if a.text == b.text then Ok(false)
    else
      var extra := ExtraWords(a, b);
      if extra != [] && !(forall i :: 0 <= i < |extra| ==> IsFirstInScheme(extra[i])) then Ok(false)
      else NextLoop(Zip(a.tokens, b.tokens), false)
  }

  /** `Enum.could_be_next_after` as the source runs it: a loop over the
      token pairs that stops at the first pair that cannot follow. */
  method CouldBeNextAfter(a: Enum, b: Enum) returns (r: Result<bool>)
    ensures r == EnumNext(a, b)
  {
    if a.text == b.text {
      return Ok(false);
    }
    var extra := ExtraWords(a, b);
    if extra != [] && !(forall i :: 0 <= i < |extra| ==> IsFirstInScheme(extra[i])) {
      return Ok(false);
    }
    var pairs := Zip(a.tokens, b.tokens);
    var consecutive := false;
    var i := 0;
    while i < |pairs|
      invariant 0 <= i <= |pairs|
      invariant NextLoop(pairs, false) == NextLoop(pairs[i..], consecutive)
    {
      assert pairs[i..][1..] == pairs[i + 1..];
      var c := TokenNext(pairs[i].0, pairs[i].1);
      if c.Err? {
        return Err(c.error);
      }
      if c.value == NotNext {
        return Ok(false);
      } else if c.value == Equal {
        i := i + 1;
      } else if consecutive {
        return Ok(false);
      } else {
        consecutive := true;
        i := i + 1;
      }
    }
    return Ok(true);
  }

  /** A pair whose tokens are equal or consecutive. */
  predicate Linked(p: (string, string))
  {
    TokenNext(p.0, p.1) == Ok(Equal) || TokenNext(p.0, p.1) == Ok(Consecutive)
  }

  predicate IsStep(p: (string, string))
  {
    TokenNext(p.0, p.1) == Ok(Consecutive)
  }

  /** The loop answers True exactly when every pair is equal or consecutive
      and, counting the flag, at most one is consecutive. */
  lemma {:induction false} NextLoopTrue(pairs: seq<(string, string)>, consecutive: bool)
    ensures NextLoop(pairs, consecutive) == Ok(true) <==>
      (forall i :: 0 <= i < |pairs| ==> Linked(pairs[i])) &&
      (forall i, j :: 0 <= i < j < |pairs| ==> !(IsStep(pairs[i]) && IsStep(pairs[j]))) &&
      (consecutive ==> forall i :: 0 <= i < |pairs| ==> !IsStep(pairs[i]))
  {
    if pairs != [] {
      var c := TokenNext(pairs[0].0, pairs[0].1);
      assert forall i :: 0 < i < |pairs| ==> pairs[i] == pairs[1..][i - 1];
      if c == Ok(Equal) {
        NextLoopTrue(pairs[1..], consecutive);
      } else if c == Ok(Consecutive) && !consecutive {
        NextLoopTrue(pairs[1..], true);
      }
    }
  }

  /** Every word of `a` past the length of `b` starts a scheme. */
  predicate ExtraFirst(a: Enum, b: Enum)
  {
    forall i :: 0 <= i < |ExtraWords(a, b)| ==> IsFirstInScheme(ExtraWords(a, b)[i])
  }

  /** Every pair is equal or consecutive, and at most one is consecutive. */
  predicate AtMostOneStep(pairs: seq<(string, string)>)
  {
    (forall i :: 0 <= i < |pairs| ==> Linked(pairs[i])) &&
    (forall i, j :: 0 <= i < j < |pairs| ==> !(IsStep(pairs[i]) && IsStep(pairs[j])))
  }

  /** `b` could be followed by `a` exactly when their texts differ, every
      extra word of `a` starts a scheme, and the token pairs are equal but
      for at most one consecutive pair. */
  lemma EnumNextTrue(a: Enum, b: Enum)
    ensures EnumNext(a, b) == Ok(true) <==>
      a.text != b.text && ExtraFirst(a, b) && AtMostOneStep(Zip(a.tokens, b.tokens))
  {
    var pairs := Zip(a.tokens, b.tokens);
    NextLoopTrue(pairs, false);
    assert NextLoop(pairs, false) == Ok(true) <==> AtMostOneStep(pairs);
    if a.text != b.text {
      if ExtraFirst(a, b) {
        assert EnumNext(a, b) == NextLoop(pairs, false);
      } else {
        assert EnumNext(a, b) == Ok(false);
      }
    }
  }
}
