// GPO Locator lines of uscode/parser.py: each line is a bell character, a
// code, the code's argument (if it takes one) and data whose escape
// sequences are swapped for the characters they stand for.

module GpoLines {
  import opened Wrappers
  import opened Strings

  const NoGroup := "AttributeError: 'NoneType' object has no attribute 'group'"
  const NoneConcat := "TypeError: can only concatenate str (not \"NoneType\") to str"

  function KeyError(key: string): string { "KeyError: '" + key + "'" }

  // ---------------------------------------------------------------------------
  // Codes and their arguments
  // ---------------------------------------------------------------------------

  /** The one-character codes of the table. */
  predicate SingleCode(c: char)
  {
    c in {'G', 'I', 'Q', 'R', 'T', 'U', 'Y', 'a', 'g', 'h', 'q', 'F', 'S', 'K', 'j', 'e', 'c'}
  }

  predicate TwoDigits(s: string) { |s| == 2 && IsDigit(s[0]) && IsDigit(s[1]) }

  /** The strings the code alternation matches: two digits (the `\d{2}`
      entry), "gs", or a one-character code. */
  predicate IsCode(s: string)
  {
    TwoDigits(s) || s == "gs" || (|s| == 1 && SingleCode(s[0]))
  }

  /** The code matched at index 1 of the line. The alternatives are tried
      longest first, so two digits and "gs" win over a one-character code. */
  function MatchCode(line: string): (r: Option<string>)
    ensures r.Some? ==> 1 <= |line| && IsCode(r.value) && StartsWith(line[1..], r.value)
    ensures r.Some? ==> forall c :: IsCode(c) && StartsWith(line[1..], c) ==> |c| <= |r.value|
    ensures r.None? ==> forall c :: IsCode(c) ==> !(1 <= |line| && StartsWith(line[1..], c))
  {
    if |line| >= 3 && TwoDigits(line[1..3]) then Some(line[1..3])
    else if |line| >= 3 && line[1..3] == "gs" then Some("gs")
    else if |line| >= 2 && SingleCode(line[1]) then Some([line[1]])
    else None
  }

  /** The argument patterns: `\d`, `\d{2}` and `\d{3}` are fixed digit
      counts, `\d{4,5}` takes five digits when there are five, and `.+`
      takes the rest of the line up to a newline. */
  datatype Shape = NoArg | Digits(count: nat) | FourOrFive | RestOfLine

  /** The table of codes as written: its keys are literal strings, so the
      `\d{2}` entry is the five-character key below and no two-digit code
      the alternation matches is a key. */
  function TableShape(key: string): Option<Shape>
  {
    if key == "gs" || key == "\\d{2}" then Some(NoArg)
    else if |key| != 1 then None
    else if key[0] in {'G', 'T', 'U', 'Y', 'h'} then Some(Digits(1))
    else if key[0] in {'I', 'Q', 'R', 'q'} then Some(Digits(2))
    else if key[0] in {'a', 'g'} then Some(Digits(3))
    else if key[0] in {'F', 'S'} then Some(FourOrFive)
    else if key[0] in {'K', 'j', 'e'} then Some(NoArg)
    else if key[0] == 'c' then Some(RestOfLine)
    else None
  }

  /** The argument shape of a matched code, with two-digit codes read
      through the `\d{2}` entry (they take no argument). */
  function ShapeOf(code: string): (r: Shape)
    requires IsCode(code)
    ensures TwoDigits(code) ==> r == NoArg
    ensures !TwoDigits(code) ==> TableShape(code) == Some(r)
  {
    if TwoDigits(code) then NoArg else TableShape(code).value
  }

  /** How many characters at the front of `s` satisfy the digit test, at
      most `limit`. */
  function DigitRun(s: string, limit: nat): (n: nat)
    ensures n <= limit && n <= |s| && AllDigits(s[..n])
    ensures n < limit && n < |s| ==> !IsDigit(s[n])
  {
    if limit == 0 || s == [] || !IsDigit(s[0]) then 0
    else
      var n := 1 + DigitRun(s[1..], limit - 1);
      assert s[..n] == [s[0]] + s[1..][..n - 1];
      n
  }

  /** How many characters at the front of `s` precede the first newline. */
  function LineRun(s: string): (n: nat)
    ensures n <= |s| && (forall k :: 0 <= k < n ==> s[k] != '\n')
    ensures n < |s| ==> s[n] == '\n'
  {
    if s == [] || s[0] == '\n' then 0 else 1 + LineRun(s[1..])
  }

  /** `arg`, followed by `after`, is what the shape's pattern matches. */
  predicate ArgFits(shape: Shape, arg: string, after: string)
  {
    match shape
    case NoArg => false
    case Digits(n) => |arg| == n && AllDigits(arg)
    case FourOrFive =>
      4 <= |arg| <= 5 && AllDigits(arg) && (|arg| == 4 ==> after == [] || !IsDigit(after[0]))
    case RestOfLine =>
      |arg| >= 1 && (forall k :: 0 <= k < |arg| ==> arg[k] != '\n') && (after == [] || after[0] == '\n')
  }

  /** The argument matched right after the code, if the pattern matches. */
  function MatchArg(s: string, shape: Shape): (r: Option<string>)
    requires shape != NoArg
    ensures r.Some? ==> |r.value| <= |s| && StartsWith(s, r.value)
    ensures r.Some? ==> ArgFits(shape, r.value, s[|r.value|..])
  {
    match shape
    case Digits(n) =>
      if n <= |s| && AllDigits(s[..n]) then Some(s[..n]) else None
    case FourOrFive =>
      var d := DigitRun(s, 5);
      if d >= 4 then Some(s[..d]) else None
    case RestOfLine =>
      var n := LineRun(s);
      if n >= 1 then Some(s[..n]) else None
  }

  /** The pattern fails only when no prefix of the text fits it. */
  lemma MatchArgNone(s: string, shape: Shape, n: nat)
    requires shape != NoArg && MatchArg(s, shape).None? && n <= |s|
    ensures !ArgFits(shape, s[..n], s[n..])
  {
    match shape
    case Digits(count) =>
    case FourOrFive =>
      var d := DigitRun(s, 5);
      if 4 <= n {
        assert s[..n][d] == s[d];
      }
    case RestOfLine =>
      if 1 <= n {
        assert s[..n][0] == s[0];
      }
  }

  // ---------------------------------------------------------------------------
  // Escape sequences
  // ---------------------------------------------------------------------------

  /** The escape sequences of the locator data and the text they stand for. */
  const SpecialChars: map<string, string> := map[
    "\U{6}" := "\U{A7}",
    "\n" := "\n",
    "\U{B}" := "\U{A2}",
    "\U{C}" := "\U{B6}",
    "\U{10}" := "'",
    "\U{13}" := "[",
    "\U{14}" := "]",
    "\U{18}" := "\U{2003}",
    "\U{19}" := "\U{2002}",
    "\U{1B}" := "\U{B1}",
    "\U{1C}" := "",
    "\U{1E}" := "\U{2020}",
    "'" := "\U{201C}",
    "<" := "<",
    ">" := ">",
    "^" := "-",
    "_" := "\U{2013}",
    "`" := "\U{201D}",
    "\U{AB}" := "\U{BA}",
    "\U{BD}" := "\U{2021}",
    "\U{BE}" := "n",
    "\U{BF}" := "\U{25A1}",
    "\U{FF}1A" := " ",
    "\U{FF}09" := "\U{2013}",
    "\U{FF}0A" := "\U{D7}",
    "\U{FF}08" := "\U{2009}",
    "\U{FF}AF" := "\U{A9}",
    "\U{FF}AE0" := "\U{2D8}",
    "\U{FF}AE1" := "\U{384}",
    "\U{FF}AE2" := "`",
    "\U{FF}AE3" := "^",
    "\U{FF}AE4" := "\U{A8}",
    "\U{FF}AE5" := "\U{2C7}",
    "\U{FF}AE6" := "~",
    "\U{FF}AE7" := "\U{2DA}",
    "\U{FF}AE8" := "\U{2C9}",
    "\U{FF}AE9" := "\U{B8}"
  ]

  /** The characters the escape sequences start with. */
  const HeadChars: set<char> := {
    '\U{FF}', '\U{6}', '\n', '\U{B}', '\U{C}', '\U{10}', '\U{13}', '\U{14}', '\U{18}',
    '\U{19}', '\U{1B}', '\U{1C}', '\U{1E}', '\'', '<', '>', '^', '_', '`', '\U{AB}',
    '\U{BD}', '\U{BE}', '\U{BF}'}

  /** Every key is one, three or four characters long; the longer ones
      start with '\U{FF}', which is not a key by itself, and the
      four-character ones extend "\U{FF}AE", which is not a key either. */
  lemma KeyShapes(k: string)
    requires k in SpecialChars
    ensures |k| == 1 || |k| == 3 || |k| == 4
    ensures |k| > 1 ==> k[0] == '\U{FF}'
    ensures k[0] in HeadChars
    ensures |k| == 4 ==> k[..3] == "\U{FF}AE" && IsDigit(k[3])
    ensures k != "\U{FF}" && k != "\U{FF}AE"
  {
  }

  /** No key of the table extends `k`. */
  predicate NotExtended(table: map<string, string>, k: string)
  {
    forall k2 :: k2 in table && |k| < |k2| ==> k2[..|k|] != k
  }

  /** Every key is non-empty and starts with one of `heads`. */
  predicate KeysStartIn(table: map<string, string>, heads: set<char>)
  {
    forall k :: k in table ==> k != [] && k[0] in heads
  }

  /** No key of the escape table is a proper prefix of another. */
  lemma SpecialCharsPrefixFree(k: string)
    requires k in SpecialChars
    ensures NotExtended(SpecialChars, k)
  {
    forall k2 | k2 in SpecialChars && |k| < |k2| ensures k2[..|k|] != k {
      KeyShapes(k);
      KeyShapes(k2);
    }
  }

  lemma SpecialCharsHeads()
    ensures KeysStartIn(SpecialChars, HeadChars)
  {
    forall k | k in SpecialChars ensures k != [] && k[0] in HeadChars {
      KeyShapes(k);
    }
  }

  /** The longest key that starts `s`, among the keys of at most `n`
      characters: the alternation of all keys sorted longest first, as the
      regular expression tries them (keys of equal length cannot both
      match). */
  function LongestKey(table: map<string, string>, s: string, n: nat): (r: Option<string>)
    requires n <= |s|
    ensures r.Some? ==> r.value in table && 1 <= |r.value| <= n && s[..|r.value|] == r.value
  {
    if n == 0 then None
    else if s[..n] in table then Some(s[..n])
    else LongestKey(table, s, n - 1)
  }

  /** No prefix is a key: nothing is matched. */
  lemma {:induction false} LongestKeyNone(table: map<string, string>, s: string, n: nat)
    requires n <= |s| && forall m :: 1 <= m <= n ==> s[..m] !in table
    ensures LongestKey(table, s, n) == None
  {
    if n > 0 {
      LongestKeyNone(table, s, n - 1);
    }
  }

  /** A key starting `s` that no longer key extends is the one matched. */
  lemma {:induction false} LongestKeyFound(table: map<string, string>, s: string, n: nat, k: string)
    requires n <= |s| && k in table && 1 <= |k| <= n && s[..|k|] == k
    requires forall m :: |k| < m <= n ==> s[..m] !in table
    ensures LongestKey(table, s, n) == Some(k)
  {
    if n > |k| {
      LongestKeyFound(table, s, n - 1, k);
    }
  }

  /** What is matched is the longest key starting `s`. */
  lemma {:induction false} LongestKeyLongest(table: map<string, string>, s: string, n: nat, m: nat)
    requires n <= |s| && 1 <= m <= n && s[..m] in table
    ensures LongestKey(table, s, n).Some? && m <= |LongestKey(table, s, n).value|
  {
    if n > m && s[..n] !in table {
      LongestKeyLongest(table, s, n - 1, m);
    }
  }

  /** The substitution of a table's keys: a left-to-right scan that replaces
      the longest key at each position by its text and keeps every other
      character. */
  function SwapWith(table: map<string, string>, s: string): (r: string)
    decreases |s|
  {
    if s == [] then []
    else match LongestKey(table, s, |s|)
      case Some(k) => table[k] + SwapWith(table, s[|k|..])
      case None => [s[0]] + SwapWith(table, s[1..])
  }

  /** `swap`: the substitution of the escape sequences. */
  function Swap(s: string): string
  {
    SwapWith(SpecialChars, s)
  }

  predicate Plain(s: string, heads: set<char>) { forall k :: 0 <= k < |s| ==> s[k] !in heads }

  /** Text none of whose characters starts a key is kept as it is, and the
      text after it is swapped on its own. */
  lemma {:induction false} SwapPlainThen(table: map<string, string>, heads: set<char>, a: string, t: string)
    requires KeysStartIn(table, heads) && Plain(a, heads)
    ensures SwapWith(table, a + t) == a + SwapWith(table, t)
  {
    if a == [] {
      assert a + t == t;
    } else {
      var s := a + t;
      forall m | 1 <= m <= |s| ensures s[..m] !in table {
        assert s[..m][0] == a[0];
      }
      LongestKeyNone(table, s, |s|);
      assert s[1..] == a[1..] + t;
      SwapPlainThen(table, heads, a[1..], t);
    }
  }

  /** A key is replaced by its text whatever follows it, because no key is
      a proper prefix of another. */
  lemma SwapKeyThen(table: map<string, string>, k: string, t: string)
    requires k in table && k != [] && NotExtended(table, k)
    ensures SwapWith(table, k + t) == table[k] + SwapWith(table, t)
  {
    var s := k + t;
    assert s[..|k|] == k;
    forall m | |k| < m <= |s| ensures s[..m] !in table {
      assert s[..m][..|k|] == k;
    }
    LongestKeyFound(table, s, |s|, k);
    assert s[|k|..] == t;
  }

  /** Swapping changes nothing in text none of whose characters starts a
      key. */
  lemma SwapPlainWith(table: map<string, string>, heads: set<char>, s: string)
    requires KeysStartIn(table, heads) && Plain(s, heads)
    ensures SwapWith(table, s) == s
  {
    SwapPlainThen(table, heads, s, []);
    assert s + [] == s;
  }

  /** Swapping changes nothing in text without escape characters. */
  lemma SwapPlain(s: string)
    requires Plain(s, HeadChars)
    ensures Swap(s) == s
  {
    SpecialCharsHeads();
    SwapPlainWith(SpecialChars, HeadChars, s);
  }

  /** The example of the source, "1 USC \U{6}\U{6} 234" giving
      "1 USC \U{A7}\U{A7} 234", for any plain text around the two section
      escapes. */
  lemma SwapSections(a: string, b: string)
    requires Plain(a, HeadChars) && Plain(b, HeadChars)
    ensures Swap(a + "\U{6}\U{6}" + b) == a + "\U{A7}\U{A7}" + b
  {
    SwapSectionsFront(a, b);
    SwapSection("\U{6}" + b);
    SwapSection(b);
    SwapPlain(b);
    assert a + "\U{A7}\U{A7}" + b == a + ("\U{A7}" + ("\U{A7}" + b));
  }

  lemma SwapSection(t: string)
    ensures Swap("\U{6}" + t) == "\U{A7}" + Swap(t)
  {
    SectionEscape();
    SwapEscapeThen("\U{6}", t);
  }

  lemma SectionEscape()
    ensures "\U{6}" in SpecialChars && SpecialChars["\U{6}"] == "\U{A7}"
  {
  }

  /** An escape sequence is replaced by its text whatever follows it. */
  lemma SwapEscapeThen(k: string, t: string)
    requires k in SpecialChars
    ensures Swap(k + t) == SpecialChars[k] + Swap(t)
  {
    KeyShapes(k);
    SpecialCharsPrefixFree(k);
    SwapKeyThen(SpecialChars, k, t);
  }

  lemma SwapSectionsFront(a: string, b: string)
    requires Plain(a, HeadChars)
    ensures Swap(a + "\U{6}\U{6}" + b) == a + Swap("\U{6}" + ("\U{6}" + b))
  {
    SpecialCharsHeads();
    assert a + "\U{6}\U{6}" + b == a + ("\U{6}" + ("\U{6}" + b));
    SwapPlainThen(SpecialChars, HeadChars, a, "\U{6}" + ("\U{6}" + b));
  }

  /** A four-character key is replaced as a whole: "\U{FF}AE0" is one
      breve whatever follows it. */
  lemma SwapBreve(t: string)
    ensures Swap("\U{FF}AE0" + t) == "\U{2D8}" + Swap(t)
  {
    BreveEscape();
    SwapEscapeThen("\U{FF}AE0", t);
  }

  lemma BreveEscape()
    ensures "\U{FF}AE0" in SpecialChars && SpecialChars["\U{FF}AE0"] == "\U{2D8}"
  {
  }

  // ---------------------------------------------------------------------------
  // Lines
  // ---------------------------------------------------------------------------

  /** A GPOLocatorLine: the code, the argument (None for codes that take
      none) and the swapped data. */
  datatype LocatorLine = LocatorLine(code: string, arg: Option<string>, data: string)

  function ArgText(arg: Option<string>): string
  {
    if arg.Some? then arg.value else ""
  }

  /** `as_tuple()`: the code and the argument. */
  function AsTuple(l: LocatorLine): (string, Option<string>)
  {
    (l.code, l.arg)
  }

  /** `codearg`: the code followed by the argument; concatenating a missing
      argument is a TypeError. */
  function CodeArg(l: LocatorLine): (r: Result<string>)
    ensures r.Ok? <==> l.arg.Some?
    ensures r.Err? ==> r.error == NoneConcat
  {
    if l.arg.Some? then Ok(l.code + l.arg.value) else Err(NoneConcat)
  }

  /** `line` is the bell character, then the line's code and argument, then
      text that swaps to the line's data; the argument is there exactly when
      the code takes one, and it is what the code's pattern matches. */
  predicate SplitsAs(line: string, l: LocatorLine, swap: string -> string)
  {
    var head := l.code + ArgText(l.arg);
    IsCode(l.code) && 1 + |head| <= |line| && line[1..1 + |head|] == head &&
    (l.arg.None? <==> ShapeOf(l.code) == NoArg) &&
    (l.arg.Some? ==> ArgFits(ShapeOf(l.code), l.arg.value, line[1 + |head|..])) &&
    l.data == swap(line[1 + |head|..])
  }

  /** The line holds only whitespace. */
  predicate Blank(line: string)
  {
    forall k :: 0 <= k < |line| ==> IsSpace(line[k])
  }

  /** `line.strip()` is empty exactly when the line is blank. */
  lemma BlankStrip(line: string)
    ensures Blank(line) <==> Strip(line) == []
  {
    StripEmpty(line);
  }

  /** One line of the file: skipped when blank or when no code follows the
      bell character, an error when the code's pattern does not match. The
      two-digit codes take no argument and the data begins right after the
      code and its argument (see ChopAsWritten). */
  function Chop(line: string, swap: string -> string): (r: Result<Option<LocatorLine>>)
    ensures r == Ok(None) <==> Blank(line) || MatchCode(line) == None
    ensures r.Ok? && r.value.Some? ==> SplitsAs(line, r.value.value, swap)
    ensures r.Ok? && r.value.Some? ==> r.value.value.code == MatchCode(line).value
    ensures r.Err? ==> r.error == NoGroup && MatchCode(line).Some?
    ensures r.Err? ==> ShapeOf(MatchCode(line).value) != NoArg
    ensures r.Err? ==> MatchArg(line[1 + |MatchCode(line).value|..], ShapeOf(MatchCode(line).value)).None?
  {
    if Blank(line) then Ok(None)
    else match MatchCode(line)
      case None => Ok(None)
      case Some(code) =>
        var p := 1 + |code|;
        var shape := ShapeOf(code);
        if shape == NoArg then
          ChoppedWithoutArg(line, code, swap);
          Ok(Some(LocatorLine(code, None, swap(line[p..]))))
        else
          ChoppedWithShape(line, code, swap);
          WithArg(line, code, shape, swap)
  }

  lemma ChoppedWithShape(line: string, code: string, swap: string -> string)
    requires MatchCode(line) == Some(code) && ShapeOf(code) != NoArg
    ensures 1 + |code| <= |line|
    ensures var r := WithArg(line, code, ShapeOf(code), swap);
      r.Ok? ==> r.value.Some? && SplitsAs(line, r.value.value, swap)
  {
    var m := MatchArg(line[1 + |code|..], ShapeOf(code));
    if m.Some? {
      ChoppedWithArg(line, code, m.value, swap);
    }
  }

  /** The argument `shape` matches right after the code, then the swapped
      rest of the line; an error when the pattern does not match. */
  function WithArg(line: string, code: string, shape: Shape, swap: string -> string): (r: Result<Option<LocatorLine>>)
    requires 1 + |code| <= |line| && shape != NoArg
    ensures r.Ok? ==> r.value.Some?
    ensures MatchArg(line[1 + |code|..], shape).None? ==> r == Err(NoGroup)
    ensures MatchArg(line[1 + |code|..], shape).Some? ==>
      var arg := MatchArg(line[1 + |code|..], shape).value;
      1 + |code| + |arg| <= |line| && r == Ok(Some(LocatorLine(code, Some(arg), swap(line[1 + |code| + |arg|..]))))
  {
    var p := 1 + |code|;
    match MatchArg(line[p..], shape)
    case None => Err(NoGroup)
    case Some(arg) =>
      assert |arg| <= |line[p..]|;
      Ok(Some(LocatorLine(code, Some(arg), swap(line[p + |arg|..]))))
  }

  lemma ChoppedWithoutArg(line: string, code: string, swap: string -> string)
    requires MatchCode(line) == Some(code) && ShapeOf(code) == NoArg
    ensures 1 + |code| <= |line|
    ensures SplitsAs(line, LocatorLine(code, None, swap(line[1 + |code|..])), swap)
  {
    HeadThenArg(line, code, []);
  }

  lemma ChoppedWithArg(line: string, code: string, arg: string, swap: string -> string)
    requires MatchCode(line) == Some(code) && ShapeOf(code) != NoArg
    requires MatchArg(line[1 + |code|..], ShapeOf(code)) == Some(arg)
    ensures 1 + |code| + |arg| <= |line|
    ensures SplitsAs(line, LocatorLine(code, Some(arg), swap(line[1 + |code| + |arg|..])), swap)
  {
    HeadThenArg(line, code, arg);
  }

  /** The code and the argument that follows it are the text after the
      bell character. */
  lemma HeadThenArg(line: string, code: string, arg: string)
    requires 1 <= |line| && StartsWith(line[1..], code)
    requires StartsWith(line[1 + |code|..], arg)
    ensures 1 + |code + arg| <= |line| && line[1..1 + |code + arg|] == code + arg
    ensures line[1 + |code|..][|arg|..] == line[1 + |code + arg|..]
    ensures arg == [] ==> code + arg == code
  {
    var p := 1 + |code|;
    assert line[1..p + |arg|] == line[1..p] + line[p..p + |arg|];
  }

  /** The line chopped as `getlines` is written: the table is looked up with
      the matched code, which for a two-digit code is no key; and when the
      code takes no argument the start position stays at index 1, so the
      data keeps the code's own text. */
  function ChopAsWritten(line: string, swap: string -> string): (r: Result<Option<LocatorLine>>)
    ensures r.Ok? && r.value.None? <==> Blank(line) || MatchCode(line).None?
  {
    if Blank(line) then Ok(None)
    else match MatchCode(line)
      case None => Ok(None)
      case Some(code) =>
        match TableShape(code)
        case None => Err(KeyError(code))
        case Some(NoArg) => Ok(Some(LocatorLine(code, None, swap(line[1..]))))
        case Some(shape) => WithArg(line, code, shape, swap)
  }

  /** A matched code is a key of the table unless it is two digits, and
      then its shape is the one the corrected reading gives it. */
  lemma TableShapeOfCode(code: string)
    requires IsCode(code)
    ensures TableShape(code).None? <==> TwoDigits(code)
    ensures TableShape(code).Some? ==> TableShape(code).value == ShapeOf(code)
  {
    if TwoDigits(code) {
      assert code != "\\d{2}" by {
        assert |code| != |"\\d{2}"|;
      }
    }
  }

  /** Read as written, a two-digit code is missing from the table and the
      lookup raises KeyError. */
  lemma ChopAsWrittenKeyError(line: string, swap: string -> string)
    requires !Blank(line) && MatchCode(line).Some? && TwoDigits(MatchCode(line).value)
    ensures ChopAsWritten(line, swap) == Err(KeyError(MatchCode(line).value))
  {
    TableShapeOfCode(MatchCode(line).value);
  }

  /** Read as written, a code that takes no argument keeps the rest of the
      line after the bell character as its text. */
  lemma ChopAsWrittenNoArg(line: string, swap: string -> string)
    requires !Blank(line) && MatchCode(line).Some? && !TwoDigits(MatchCode(line).value)
    requires ShapeOf(MatchCode(line).value) == NoArg
    ensures ChopAsWritten(line, swap) == Ok(Some(LocatorLine(MatchCode(line).value, None, swap(line[1..]))))
  {
    TableShapeOfCode(MatchCode(line).value);
  }

  /** For a code that takes an argument the two readings agree. */
  lemma ChopAsWrittenWithArg(line: string, swap: string -> string)
    requires !Blank(line) && MatchCode(line).Some? && ShapeOf(MatchCode(line).value) != NoArg
    ensures ChopAsWritten(line, swap) == Chop(line, swap)
  {
    var code := MatchCode(line).value;
    TableShapeOfCode(code);
    assert Chop(line, swap) == WithArg(line, code, ShapeOf(code), swap);
  }

  /** A line whose code is two digits stops the source with a KeyError:
      the table's `\d{2}` entry is a literal key that no code equals. */
  lemma DigitCodeKeyError(text: string, swap: string -> string)
    ensures ChopAsWritten("\U{7}12" + text, swap) == Err(KeyError("12"))
  {
    var line := "\U{7}12" + text;
    assert line[0] == '\U{7}' && line[1..3] == "12";
    assert !Blank(line);
    assert MatchCode(line) == Some("12");
    assert TableShape("12") == None;
  }

  /** With the `\d{2}` entry read as intended, a two-digit code takes no
      argument and the rest of the line is its data. */
  lemma DigitCodeNoArg(text: string, swap: string -> string)
    ensures Chop("\U{7}12" + text, swap) == Ok(Some(LocatorLine("12", None, swap(text))))
  {
    DigitLine(text);
    assert ShapeOf("12") == NoArg;
    ChopNoArg("\U{7}12" + text, "12", swap);
  }

  lemma DigitLine(text: string)
    ensures var line := "\U{7}12" + text;
      !Blank(line) && MatchCode(line) == Some("12") && line[3..] == text
  {
    var line := "\U{7}12" + text;
    assert line[0] == '\U{7}' && line[1..3] == "12" && line[3..] == text;
    assert !IsSpace(line[0]);
  }

  /** A code that takes no argument leaves the rest of the line as data. */
  lemma ChopNoArg(line: string, code: string, swap: string -> string)
    requires !Blank(line) && MatchCode(line) == Some(code) && ShapeOf(code) == NoArg
    ensures Chop(line, swap) == Ok(Some(LocatorLine(code, None, swap(line[1 + |code|..]))))
  {
  }

  lemma KCode(text: string)
    ensures MatchCode("\U{7}K" + text) == Some("K")
    ensures TableShape("K") == Some(NoArg) && ShapeOf("K") == NoArg
  {
    var line := "\U{7}K" + text;
    assert line[1] == 'K';
    if |line| >= 3 {
      assert line[1..3][0] == 'K';
    }
  }

  /** A code without an argument is left in the data by the source. */
  lemma DataKeepsCode(text: string, swap: string -> string)
    ensures ChopAsWritten("\U{7}K" + text, swap) == Ok(Some(LocatorLine("K", None, swap("K" + text))))
  {
    var line := "\U{7}K" + text;
    assert line[0] == '\U{7}' && line[1] == 'K' && line[1..] == "K" + text;
    assert !Blank(line);
    KCode(text);
  }

  /** With the start position moved past the code, the data of a code
      without an argument begins right after the code. */
  lemma DataAfterCode(text: string, swap: string -> string)
    ensures Chop("\U{7}K" + text, swap) == Ok(Some(LocatorLine("K", None, swap(text))))
  {
    var line := "\U{7}K" + text;
    assert line[0] == '\U{7}' && line[1] == 'K' && line[2..] == text;
    assert !Blank(line);
    KCode(text);
  }

  /** The code and argument, run together, are the text right after the
      bell character; `as_tuple()` gives them back. */
  lemma CodeArgFollowsBell(line: string, l: LocatorLine, swap: string -> string)
    requires SplitsAs(line, l, swap) && l.arg.Some?
    ensures CodeArg(l).Ok? && StartsWith(line[1..], CodeArg(l).value)
  {
    assert line[1..][..|l.code + l.arg.value|] == line[1..1 + |l.code + l.arg.value|];
  }

  // ---------------------------------------------------------------------------
  // The file
  // ---------------------------------------------------------------------------

  /** What `getlines` yields for a sequence of lines: the chopped lines in
      order, and the error that stops it, if any. */
  datatype Chopped = Chopped(lines: seq<LocatorLine>, error: Option<string>)

  /** The chopping of one line with a given substitution. */
  function ChopWith(swap: string -> string): string -> Result<Option<LocatorLine>>
  {
    line => Chop(line, swap)
  }

  /** Every line chopped in turn by `chop`, up to the first error. */
  function ChopAll(ls: seq<string>, chop: string -> Result<Option<LocatorLine>>): (r: Chopped)
    ensures |r.lines| <= |ls|
  {
    if ls == [] then Chopped([], None)
    else match chop(ls[0])
      case Err(e) => Chopped([], Some(e))
      case Ok(None) => ChopAll(ls[1..], chop)
      case Ok(Some(l)) =>
        var rest := ChopAll(ls[1..], chop);
        Chopped([l] + rest.lines, rest.error)
  }

  /** The file is chopped line by line: chopping two pieces gives the first
      piece's lines followed by the second's, unless the first stops. */
  lemma {:induction false} ChopAllAppend(a: seq<string>, b: seq<string>, chop: string -> Result<Option<LocatorLine>>)
    ensures ChopAll(a, chop).error.Some? ==> ChopAll(a + b, chop) == ChopAll(a, chop)
    ensures ChopAll(a, chop).error.None? ==>
      ChopAll(a + b, chop) == Chopped(ChopAll(a, chop).lines + ChopAll(b, chop).lines, ChopAll(b, chop).error)
  {
    if a == [] {
      assert a + b == b;
    } else {
      assert (a + b)[0] == a[0];
      assert (a + b)[1..] == a[1..] + b;
      ChopAllAppend(a[1..], b, chop);
      var c := chop(a[0]);
      if c.Ok? && c.value.Some? {
        var l := c.value.value;
        assert [l] + (ChopAll(a[1..], chop).lines + ChopAll(b, chop).lines)
          == ([l] + ChopAll(a[1..], chop).lines) + ChopAll(b, chop).lines;
      }
    }
  }

  /** Every line yielded is the chopped form of an input line. */
  lemma {:induction false} ChopAllFrom(ls: seq<string>, k: nat, chop: string -> Result<Option<LocatorLine>>)
    requires k < |ChopAll(ls, chop).lines|
    ensures exists i :: 0 <= i < |ls| && chop(ls[i]) == Ok(Some(ChopAll(ls, chop).lines[k]))
  {
    var c := chop(ls[0]);
    if c == Ok(None) || (c.Ok? && k > 0) {
      var k' := if c == Ok(None) then k else k - 1;
      ChopAllFrom(ls[1..], k', chop);
      var i :| 0 <= i < |ls[1..]| && chop(ls[1..][i]) == Ok(Some(ChopAll(ls[1..], chop).lines[k']));
      assert ls[1..][i] == ls[i + 1];
    }
  }

  /** Blank lines yield nothing. */
  lemma {:induction false} ChopAllBlank(ls: seq<string>, swap: string -> string)
    requires forall i :: 0 <= i < |ls| ==> Blank(ls[i])
    ensures ChopAll(ls, ChopWith(swap)) == Chopped([], None)
  {
    if ls != [] {
      assert Blank(ls[0]);
      ChopAllBlank(ls[1..], swap);
    }
  }

  /** The chopping of one line as `getlines` is written. */
  function ChopAsWrittenWith(swap: string -> string): string -> Result<Option<LocatorLine>>
  {
    line => ChopAsWritten(line, swap)
  }

  /** The two readings of a line agree when it is skipped or its code takes
      an argument. */
  predicate ChoppedAlike(line: string)
  {
    Blank(line) || MatchCode(line).None? || ShapeOf(MatchCode(line).value) != NoArg
  }

  /** A file none of whose lines has a code without an argument is chopped
      the same way as written and as corrected. */
  lemma ChopAllAlike(ls: seq<string>, swap: string -> string)
    requires forall i :: 0 <= i < |ls| ==> ChoppedAlike(ls[i])
    ensures ChopAll(ls, ChopAsWrittenWith(swap)) == ChopAll(ls, ChopWith(swap))
  {
    forall i | 0 <= i < |ls|
      ensures ChopAsWrittenWith(swap)(ls[i]) == ChopWith(swap)(ls[i])
    {
      assert ChoppedAlike(ls[i]);
      if !Blank(ls[i]) && MatchCode(ls[i]).Some? {
        ChopAsWrittenWithArg(ls[i], swap);
      }
    }
    ChopAllSame(ls, ChopAsWrittenWith(swap), ChopWith(swap));
  }

  /** Two choppers that agree on every line chop the file alike. */
  lemma {:induction false} ChopAllSame(ls: seq<string>, f: string -> Result<Option<LocatorLine>>, g: string -> Result<Option<LocatorLine>>)
    requires forall i :: 0 <= i < |ls| ==> f(ls[i]) == g(ls[i])
    ensures ChopAll(ls, f) == ChopAll(ls, g)
  {
    if ls != [] {
      assert f(ls[0]) == g(ls[0]);
      assert forall i :: 0 <= i < |ls| - 1 ==> ls[1..][i] == ls[i + 1];
      ChopAllSame(ls[1..], f, g);
    }
  }

  /** As written, the first line with a two-digit code stops the file with
      a KeyError, after the lines before it. */
  lemma ChopAllDigitStops(ls: seq<string>, k: nat, swap: string -> string)
    requires k < |ls| && !Blank(ls[k]) && MatchCode(ls[k]).Some? && TwoDigits(MatchCode(ls[k]).value)
    requires forall i :: 0 <= i < k ==> ChopAsWritten(ls[i], swap).Ok?
    ensures ChopAll(ls, ChopAsWrittenWith(swap)).error == Some(KeyError(MatchCode(ls[k]).value))
  {
    var chop := ChopAsWrittenWith(swap);
    assert forall i :: 0 <= i < k ==> chop(ls[i]).Ok?;
    ChopAsWrittenKeyError(ls[k], swap);
    ChopAllStops(ls, k, chop, KeyError(MatchCode(ls[k]).value));
  }

  /** The first line `chop` rejects stops the file with its error. */
  lemma {:induction false} ChopAllStops(ls: seq<string>, k: nat, chop: string -> Result<Option<LocatorLine>>, e: string)
    requires k < |ls| && chop(ls[k]) == Err(e)
    requires forall i :: 0 <= i < k ==> chop(ls[i]).Ok?
    ensures ChopAll(ls, chop).error == Some(e)
  {
    if k > 0 {
      assert chop(ls[0]).Ok?;
      assert ls[1..][k - 1] == ls[k];
      assert forall i :: 0 <= i < k - 1 ==> ls[1..][i] == ls[i + 1];
      ChopAllStops(ls[1..], k - 1, chop, e);
    }
  }

  /** `getlines` as written: the same loop with the as-written chopping. */
  method GetLinesAsWritten(ls: seq<string>, swap: string -> string) returns (out: seq<LocatorLine>, error: Option<string>)
    ensures Chopped(out, error) == ChopAll(ls, ChopAsWrittenWith(swap))
  {
    out, error := ChopLines(ls, ChopAsWrittenWith(swap));
  }

  /** `getlines`: one pass over the lines, keeping what each yields and
      stopping at the first error. */
  method GetLines(ls: seq<string>, swap: string -> string) returns (out: seq<LocatorLine>, error: Option<string>)
    ensures Chopped(out, error) == ChopAll(ls, ChopWith(swap))
  {
    out, error := ChopLines(ls, ChopWith(swap));
  }

  /** The loop of `getlines` with the line chopper `chop`. */
  method ChopLines(ls: seq<string>, chop: string -> Result<Option<LocatorLine>>)
    returns (out: seq<LocatorLine>, error: Option<string>)
    ensures Chopped(out, error) == ChopAll(ls, chop)
  {
    out := [];
    error := None;
    var i := 0;
    while i < |ls|
      invariant 0 <= i <= |ls|
      invariant ChopAll(ls, chop) == Chopped(out + ChopAll(ls[i..], chop).lines, ChopAll(ls[i..], chop).error)
    {
      assert ls[i..][1..] == ls[i + 1..];
      var r := chop(ls[i]);
      assert r == chop(ls[i..][0]);
      if r.Err? {
        assert out + [] == out;
        error := Some(r.error);
        return;
      }
      if r.value.Some? {
        var l := r.value.value;
        ConcatAssoc(out, [l], ChopAll(ls[i + 1..], chop).lines);
        out := out + [l];
      }
      i := i + 1;
    }
    assert ls[i..] == [];
    assert out + [] == out;
  }

}
