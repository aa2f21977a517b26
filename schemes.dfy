// Enumeration schemes of the Code's numbered paragraphs: uscode/schemes.py.
// A token such as "b", "ii", "AA" or "12" is classified into the schemes it
// could belong to, its position in each, and whether it could directly
// follow another token; an enumeration such as "(3-a)." is split into its
// format characters and tokens and compared the same way.

module Schemes {
  import opened Wrappers
  import opened Strings

  // ---------------------------------------------------------------------------
  // The scheme tables
  // ---------------------------------------------------------------------------

  datatype Scheme = Lower | Upper | LowerDoubles | UpperDoubles | LowerTriples | UpperTriples
                  | LowerQuads | UpperQuads | LowerRoman | UpperRoman | Digits

  /** The eleven schemes in table order (the order the model visits a set of
      schemes in). */
  const AllSchemes: seq<Scheme> := [Lower, Upper, LowerDoubles, UpperDoubles, LowerTriples, UpperTriples,
                                    LowerQuads, UpperQuads, LowerRoman, UpperRoman, Digits]

  predicate IsUpperScheme(s: Scheme)
  {
    s == Upper || s == UpperDoubles || s == UpperTriples || s == UpperQuads || s == UpperRoman
  }

  predicate IsLetterScheme(s: Scheme)
  {
    s != LowerRoman && s != UpperRoman && s != Digits
  }

  /** How many times a letter scheme repeats its letter. */
  function Width(s: Scheme): nat
  {
    match s
    case LowerDoubles | UpperDoubles => 2
    case LowerTriples | UpperTriples => 3
    case LowerQuads | UpperQuads => 4
    case _ => 1
  }

  const Ones: seq<string> := ["", "i", "ii", "iii", "iv", "v", "vi", "vii", "viii", "ix"]
  const Tens: seq<string> := ["", "x", "xx", "xxx", "l"]

  const UnrecognizedScheme := "UnrecognizedSchemeError: couldn't determine scheme type"
  const NoMultipleScheme := "KeyError: no multiple-letter scheme of that length"
  const NotInScheme := "ValueError: token is not in the scheme's list"

  /** The k-th letter of the alphabet, in either case. */
  function Letter(k: nat, upper: bool): (c: char)
    requires k < 26
    ensures if upper then IsUpperAscii(c) else IsLowerAscii(c)
  {
    ((if upper then 'A' as int else 'a' as int) + k) as char
  }

  function UpperChar(c: char): char
  {
    if IsLowerAscii(c) then (c as int - 32) as char else c
  }

  function UpperText(s: string): (r: string)
    ensures |r| == |s| && forall k :: 0 <= k < |s| ==> r[k] == UpperChar(s[k])
  {
    seq(|s|, k requires 0 <= k < |s| => UpperChar(s[k]))
  }

  function Repeat(c: char, n: nat): (r: string)
    ensures |r| == n && forall k :: 0 <= k < n ==> r[k] == c
  {
    seq(n, _ => c)
  }

  /** Tens[k / 10] + Ones[k % 10]: the k-th of the fifty combinations of the
      nested loop, the first of which is empty. */
  function RomanCombination(k: nat): string
    requires k < 50
  {
    Tens[k / 10] + Ones[k % 10]
  }

  /** `_romans`: every combination but the empty one. */
  function Romans(): (r: seq<string>)
    ensures |r| == 49
  {
    seq(49, k requires 0 <= k < 49 => RomanCombination(k + 1))
  }

  /** Only the combination of the two empty parts is empty. */
  lemma RomanCombinationEmpty(k: nat)
    requires k < 50
    ensures RomanCombination(k) == [] <==> k == 0
  {
    assert k / 10 < 5;
  }

  /** Every roman numeral of the table is made of the letters i, v, x and l. */
  lemma RomanLetters(k: nat, j: nat)
    requires k < 49 && j < |Romans()[k]|
    ensures var c := Romans()[k][j]; c == 'i' || c == 'v' || c == 'x' || c == 'l'
  {
    var t, o := (k + 1) / 10, (k + 1) % 10;
    assert Romans()[k] == Tens[t] + Ones[o];
    if j < |Tens[t]| {
      assert t < 5;
    } else {
      assert o < 10;
    }
  }

  /** The list runs i..ix, x..xxxix and then l..lix: forty is missing, since
      the tens have no "xl". */
  lemma RomansOrder(k: nat)
    requires k < 49
    ensures k < 39 ==> Romans()[k] == Tens[(k + 1) / 10] + Ones[(k + 1) % 10]
    ensures 39 <= k ==> Romans()[k] == "l" + Ones[k - 39]
    ensures Romans()[k] != "xl"
  {
    var t, o := (k + 1) / 10, (k + 1) % 10;
    assert t < 5 && o < 10;
    var r := Romans()[k];
    assert r == Tens[t] + Ones[o];
    if t == 0 {
      assert o == 1 || o == 2 || o == 3 || o == 4 || o == 5 || o == 6 || o == 7 || o == 8 || o == 9;
      assert r[0] != "xl"[0];
    } else if t == 1 {
      if |r| == 2 {
        assert o == 1 || o == 5;
        assert r[1] != "xl"[1];
      }
    } else if t == 4 {
      assert r[0] != "xl"[0];
    } else {
      assert r[1] != "xl"[1];
    }
  }

  lemma CombinationAt(t: nat, o: nat)
    requires t < 5 && o < 10
    ensures RomanCombination(10 * t + o) == Tens[t] + Ones[o]
  {
    assert (10 * t + o) / 10 == t && (10 * t + o) % 10 == o;
  }

  /** Appending the combination of tens part `t` and ones part `o` extends
      the list of combinations by the next one. */
  lemma CombinationNext(all: seq<string>, t: nat, o: nat)
    requires t < 5 && o < 10 && |all| == 10 * t + o
    requires forall k :: 0 <= k < |all| ==> all[k] == RomanCombination(k)
    ensures forall k :: 0 <= k < |all| + 1 ==> (all + [Tens[t] + Ones[o]])[k] == RomanCombination(k)
  {
    CombinationAt(t, o);
  }

  /** The nested loop of `romans()`: every tens part joined with every ones part. */
  method Combinations() returns (all: seq<string>)
    ensures |all| == 50 && forall k :: 0 <= k < 50 ==> all[k] == RomanCombination(k)
  {
    all := [];
    var t := 0;
    while t < |Tens|
      invariant 0 <= t <= |Tens| && |all| == 10 * t
      invariant forall k :: 0 <= k < |all| ==> all[k] == RomanCombination(k)
    {
      var o := 0;
      while o < |Ones|
        invariant 0 <= o <= |Ones| && |all| == 10 * t + o
        invariant forall k :: 0 <= k < |all| ==> all[k] == RomanCombination(k)
      {
        CombinationNext(all, t, o);
        all := all + [Tens[t] + Ones[o]];
        o := o + 1;
      }
      t := t + 1;
    }
  }

  /** `romans()`: the combinations with the empty one filtered out. */
  method BuildRomans() returns (res: seq<string>)
    ensures res == Romans()
  {
    var all := Combinations();
    res := [];
    var i := 0;
    while i < |all|
      invariant 0 <= i <= |all| && |res| == if i == 0 then 0 else i - 1
      invariant forall k :: 0 <= k < |res| ==> res[k] == all[k + 1]
    {
      RomanCombinationEmpty(i);
      if all[i] != [] {
        ShiftedAppend(all, res, i);
        res := res + [all[i]];
      }
      i := i + 1;
    }
    RomansAfterFirst(all, res);
  }

  /** Keeping the `i`-th element keeps the kept ones those after the first. */
  lemma ShiftedAppend(all: seq<string>, res: seq<string>, i: nat)
    requires 1 <= i < |all| && |res| == i - 1
    requires forall k :: 0 <= k < |res| ==> res[k] == all[k + 1]
    ensures forall k :: 0 <= k < |res| + 1 ==> (res + [all[i]])[k] == all[k + 1]
  {
  }

  /** The combinations after the first, the empty one, are the numerals. */
  lemma RomansAfterFirst(all: seq<string>, res: seq<string>)
    requires |all| == 50 && forall k :: 0 <= k < 50 ==> all[k] == RomanCombination(k)
    requires |res| == 49 && forall k :: 0 <= k < 49 ==> res[k] == all[k + 1]
    ensures res == Romans()
  {
  }

  /** A letter scheme's list: each letter of the alphabet repeated `n` times. */
  function LetterList(upper: bool, n: nat): (r: seq<string>)
    ensures |r| == 26
  {
    seq(26, k requires 0 <= k < 26 => Repeat(Letter(k, upper), n))
  }

  /** `_schemes_lists`; digits run from "1" to "199". */
  function SchemeList(s: Scheme): (r: seq<string>)
    ensures |r| >= 26
  {
    if s == Digits then DigitList()
    else if s == LowerRoman then Romans()
    else if s == UpperRoman then UpperRomans()
    else LetterList(IsUpperScheme(s), Width(s))
  }

  function UpperRomans(): (r: seq<string>)
    ensures |r| == 49
  {
    seq(49, k requires 0 <= k < 49 => UpperText(Romans()[k]))
  }

  function DigitList(): (r: seq<string>)
    ensures |r| == 199
  {
    seq(199, k requires 0 <= k < 199 => DecimalText(k + 1))
  }

  /** A text is in a letter list exactly when it repeats one letter of the
      list's case the list's number of times; its position is the letter's. */
  lemma LetterListMember(t: string, upper: bool, n: nat)
    requires n >= 1
    ensures t in LetterList(upper, n) <==>
      |t| == n && OneLetter(t) && (if upper then IsUpperAscii(t[0]) else IsLowerAscii(t[0]))
    ensures t in LetterList(upper, n) ==>
      LetterList(upper, n)[t[0] as int - (if upper then 'A' as int else 'a' as int)] == t
  {
    if |t| == n && OneLetter(t) && (if upper then IsUpperAscii(t[0]) else IsLowerAscii(t[0])) {
      var k := t[0] as int - (if upper then 'A' as int else 'a' as int);
      assert LetterList(upper, n)[k] == t;
    }
  }

  /** Each scheme's first token: a, A, aa, AA, aaa, AAA, aaaa, AAAA, i, I and 1. */
  lemma FirstToken(s: Scheme)
    ensures SchemeList(s)[0] == FirstTokens[SchemeIndex(s)]
  {
    if IsLetterScheme(s) {
      LetterListMember(SchemeList(s)[0], IsUpperScheme(s), Width(s));
    } else if s == UpperRoman {
      assert Romans()[0] == "i";
      assert UpperText("i") == "I";
    } else if s == Digits {
      assert DecimalText(1) == "1";
    }
  }

  /** The scheme's position in the table. */
  function SchemeIndex(s: Scheme): (i: nat)
    ensures i < |AllSchemes| && AllSchemes[i] == s
  {
    match s
    case Lower => 0 case Upper => 1 case LowerDoubles => 2 case UpperDoubles => 3
    case LowerTriples => 4 case UpperTriples => 5 case LowerQuads => 6 case UpperQuads => 7
    case LowerRoman => 8 case UpperRoman => 9 case Digits => 10
  }

  /** The table's own assertion: no two schemes share their first token. */
  lemma FirstTokensDistinct(s: Scheme, u: Scheme)
    requires s != u
    ensures SchemeList(s)[0] != SchemeList(u)[0]
  {
    FirstToken(s);
    FirstToken(u);
  }

  /** `is_first_in_scheme`: the text is the first token of some scheme. */
  predicate IsFirstInScheme(t: string)
  {
    exists s: Scheme :: SchemeList(s)[0] == t
  }

  // ---------------------------------------------------------------------------
  // Tokens
  // ---------------------------------------------------------------------------

  predicate IsAlphaText(t: string)
  {
    t != [] && forall k :: 0 <= k < |t| ==> IsAlphaAscii(t[k])
  }

  predicate IsDigitText(t: string)
  {
    t != [] && AllDigits(t)
  }

  /** `str.isupper()` on letters: every letter is a capital. */
  predicate IsUpperText(t: string)
  {
    t != [] && forall k :: 0 <= k < |t| ==> IsUpperAscii(t[k])
  }

  /** One letter repeated: the set of the token's characters has one member. */
  predicate OneLetter(t: string)
  {
    t != [] && forall k :: 0 <= k < |t| ==> t[k] == t[0]
  }

  function CaseScheme(upper: bool): Scheme { if upper then Upper else Lower }

  function RomanScheme(upper: bool): Scheme { if upper then UpperRoman else LowerRoman }

  function MultipleScheme(upper: bool, n: nat): Scheme
    requires 2 <= n <= 4
  {
    if n == 2 then (if upper then UpperDoubles else LowerDoubles)
    else if n == 3 then (if upper then UpperTriples else LowerTriples)
    else (if upper then UpperQuads else LowerQuads)
  }

  /** `Token.get_schemes`: the schemes the token could belong to. */
  function TokenSchemes(t: string): Result<set<Scheme>>
  {
    var upper := IsUpperText(t);
    var roman: set<Scheme> := if t in SchemeList(RomanScheme(upper)) then {RomanScheme(upper)} else {};
    if |t| == 1 then
      if IsAlphaAscii(t[0]) then Ok({CaseScheme(upper)} + roman)
      else if IsDigit(t[0]) then Ok({Digits})
      else Err(UnrecognizedScheme)
    else if IsAlphaText(t) then
      if OneLetter(t) then
        if |t| <= 4 then Ok({MultipleScheme(upper, |t|)} + roman)
        else Err(NoMultipleScheme)
      else Ok(roman)
    else if IsDigitText(t) then Ok({Digits})
    else Err(UnrecognizedScheme)
  }

  /** A roman numeral of the table is a run of letters in the scheme's case. */
  lemma RomanMember(t: string, upper: bool)
    requires t in SchemeList(RomanScheme(upper))
    ensures IsAlphaText(t) && (IsUpperText(t) <==> upper)
  {
    var xs := SchemeList(RomanScheme(upper));
    var k :| 0 <= k < |xs| && xs[k] == t;
    var r := Romans()[k];
    RomanCombinationEmpty(k + 1);
    assert |t| == |r| && r != [];
    assert t == if upper then UpperText(r) else r;
    forall j | 0 <= j < |t|
      ensures if upper then IsUpperAscii(t[j]) else IsLowerAscii(t[j])
    {
      RomanLetters(k, j);
      if upper {
        assert t[j] == UpperChar(r[j]);
      } else {
        assert t[j] == r[j];
      }
    }
    assert if upper then IsUpperAscii(t[0]) else IsLowerAscii(t[0]);
  }

  /** No roman numeral of the table repeats one letter more than three times,
      since a tens part starts with x or l and a ones part with i or v. */
  lemma RomanShortRuns(t: string, upper: bool)
    requires t in SchemeList(RomanScheme(upper)) && OneLetter(t)
    ensures |t| <= 4
  {
    var xs := SchemeList(RomanScheme(upper));
    var k :| 0 <= k < |xs| && xs[k] == t;
    var a, b := (k + 1) / 10, (k + 1) % 10;
    var r := Romans()[k];
    assert r == Tens[a] + Ones[b];
    assert |t| == |r| && forall j :: 0 <= j < |t| ==> t[j] == (if upper then UpperChar(r[j]) else r[j]);
    PartLengths(a, b);
    RomanHeads(k);
  }

  lemma PartLengths(a: nat, b: nat)
    requires a < 5 && b < 10
    ensures |Tens[a]| <= 3 && |Ones[b]| <= 4
  {
    assert a == 0 || a == 1 || a == 2 || a == 3 || a == 4;
    assert b == 0 || b == 1 || b == 2 || b == 3 || b == 4 || b == 5 || b == 6 || b == 7 || b == 8 || b == 9;
  }

  /** A numeral with both a tens and a ones part changes letter where the
      ones part begins. */
  lemma RomanHeads(k: nat)
    requires k < 49
    ensures var a, b := (k + 1) / 10, (k + 1) % 10;
      Tens[a] != [] && Ones[b] != [] ==>
        UpperChar(Romans()[k][0]) != UpperChar(Romans()[k][|Tens[a]|])
  {
    var a, b := (k + 1) / 10, (k + 1) % 10;
    var r := Romans()[k];
    assert r == Tens[a] + Ones[b];
    if Tens[a] != [] && Ones[b] != [] {
      PartHeads(a, b);
      assert r[0] == Tens[a][0] && r[|Tens[a]|] == Ones[b][0];
    }
  }

  /** A non-empty tens part starts with x or l, a non-empty ones part with i or v. */
  lemma PartHeads(a: nat, b: nat)
    requires a < 5 && b < 10 && Tens[a] != [] && Ones[b] != []
    ensures Tens[a][0] == 'x' || Tens[a][0] == 'l'
    ensures Ones[b][0] == 'i' || Ones[b][0] == 'v'
  {
    assert a == 1 || a == 2 || a == 3 || a == 4;
    assert b == 1 || b == 2 || b == 3 || b == 4 || b == 5 || b == 6 || b == 7 || b == 8 || b == 9;
  }

  /** Every scheme whose list holds the token is among the token's schemes. */
  lemma SchemesComplete(t: string, s: Scheme)
    requires t in SchemeList(s)
    ensures TokenSchemes(t).Ok? && s in TokenSchemes(t).value
  {
    if s == Digits {
      DigitsComplete(t);
    } else if s == LowerRoman || s == UpperRoman {
      RomanComplete(t, s == UpperRoman);
    } else {
      LetterListMember(t, IsUpperScheme(s), Width(s));
      assert IsAlphaText(t) && (IsUpperText(t) <==> IsUpperScheme(s));
    }
  }

  /** A listed run of digits is classified as digits. */
  lemma DigitsComplete(t: string)
    requires t in SchemeList(Digits)
    ensures TokenSchemes(t).Ok? && Digits in TokenSchemes(t).value
  {
    var k :| 0 <= k < 199 && SchemeList(Digits)[k] == t;
    assert IsDigitText(t) && !IsAlphaAscii(t[0]);
  }

  /** A listed Roman numeral is classified under the Roman scheme of its case. */
  lemma RomanComplete(t: string, upper: bool)
    requires t in SchemeList(RomanScheme(upper))
    ensures TokenSchemes(t).Ok? && RomanScheme(upper) in TokenSchemes(t).value
  {
    RomanMember(t, upper);
    if |t| > 1 && OneLetter(t) {
      RomanShortRuns(t, upper);
    }
  }

  /** Every scheme of a token other than digits lists the token; digits is
      among them exactly for a run of digits. */
  lemma SchemesSound(t: string, s: Scheme)
    requires TokenSchemes(t).Ok? && s in TokenSchemes(t).value
    ensures s != Digits ==> t in SchemeList(s)
    ensures s == Digits <==> IsDigitText(t)
  {
    var upper := IsUpperText(t);
    if s != Digits && s != RomanScheme(upper) {
      assert IsAlphaText(t) && OneLetter(t);
      assert if upper then IsUpperAscii(t[0]) else IsLowerAscii(t[0]);
      assert IsUpperScheme(s) == upper && Width(s) == |t|;
      LetterListMember(t, upper, |t|);
    }
  }

  /** The position of a token within a list: Python's `list.index`. */
  function IndexOf(xs: seq<string>, t: string): (i: nat)
    requires t in xs
    ensures i < |xs| && xs[i] == t && forall j :: 0 <= j < i ==> xs[j] != t
  {
    if xs[0] == t then 0 else 1 + IndexOf(xs[1..], t)
  }

  /** The first index holding a text is its position. */
  lemma IndexOfAt(xs: seq<string>, i: nat)
    requires i < |xs| && forall j :: 0 <= j < i ==> xs[j] != xs[i]
    ensures IndexOf(xs, xs[i]) == i
  {
  }

  /** A letter token sits at its letter's place in the alphabet. */
  lemma LetterPosition(k: nat, upper: bool, n: nat)
    requires k < 26 && n >= 1
    ensures Repeat(Letter(k, upper), n) in LetterList(upper, n) &&
      IndexOf(LetterList(upper, n), Repeat(Letter(k, upper), n)) == k
  {
    var xs := LetterList(upper, n);
    forall j | 0 <= j < k ensures xs[j] != xs[k] {
      assert xs[j][0] != xs[k][0];
    }
    IndexOfAt(xs, k);
  }

  /** The decimal text of n sits at place n - 1 of the digits scheme. */
  lemma DigitsPosition(n: nat)
    requires 1 <= n <= 199
    ensures DecimalText(n) in SchemeList(Digits) && IndexOf(SchemeList(Digits), DecimalText(n)) == n - 1
  {
    var xs := SchemeList(Digits);
    forall j | 0 <= j < n - 1 ensures xs[j] != xs[n - 1] {
      if xs[j] == xs[n - 1] {
        DecimalTextInjective(j + 1, n);
      }
    }
    IndexOfAt(xs, n - 1);
  }

  /** `Token.get_ordinality`: the token's position in each of its schemes.
      `list.index` raises when the token is missing from a scheme's list,
      which happens only for digits outside "1".."199". */
  function Ordinality(t: string): (r: Result<map<Scheme, nat>>)
    ensures r.Ok? ==> TokenSchemes(t).Ok? && r.value.Keys == TokenSchemes(t).value
    ensures r.Ok? ==> forall s :: s in r.value ==>
      r.value[s] < |SchemeList(s)| && SchemeList(s)[r.value[s]] == t &&
      forall j :: 0 <= j < r.value[s] ==> SchemeList(s)[j] != t
  {
    match TokenSchemes(t)
    case Err(e) => Err(e)
    case Ok(ss) =>
      if forall s :: s in ss ==> t in SchemeList(s) then Ok(map s | s in ss && t in SchemeList(s) :: IndexOf(SchemeList(s), t))
      else Err(NotInScheme)
  }

  /** The positions exist exactly when the schemes do and a digits token is
      one of the listed numbers. */
  lemma OrdinalityOk(t: string)
    ensures Ordinality(t).Ok? <==>
      TokenSchemes(t).Ok? && (Digits in TokenSchemes(t).value ==> t in SchemeList(Digits))
  {
    if TokenSchemes(t).Ok? {
      forall s | s in TokenSchemes(t).value && s != Digits ensures t in SchemeList(s) {
        SchemesSound(t, s);
      }
    }
  }

  /** Token comparison results: Python's False, 'equal' and 'consecutive'. */
  datatype Next = NotNext | Equal | Consecutive

  /** `Token.could_be_next_after(other)`: whether `t` could directly follow
      `other` in a scheme the two share. */
  function TokenNext(t: string, other: string): Result<Next>
  {
    if t == other then Ok(Equal)
    else
      match TokenSchemes(t)
      case Err(e) => Err(e)
      case Ok(mine) =>
        match TokenSchemes(other)
        case Err(e) => Err(e)
        case Ok(theirs) =>
          var common := mine * theirs;
          if common == {} then Ok(NotNext)
          else
            match Ordinality(other)
            case Err(e) => Err(e)
            case Ok(ord1) =>
              match Ordinality(t)
              case Err(e) => Err(e)
              case Ok(ord2) =>
                if SomeStep(common, ord1, ord2) then Ok(Consecutive) else Ok(NotNext)
  }

  /** Some shared scheme places the second position right after the first. */
  predicate SomeStep(common: set<Scheme>, ord1: map<Scheme, nat>, ord2: map<Scheme, nat>)
  {
    exists s :: s in common && s in ord1 && s in ord2 && ord2[s] == ord1[s] + 1
  }

  /** The token directly follows the other in scheme `s`. */
  predicate FollowsIn(t: string, other: string, s: Scheme)
  {
    t in SchemeList(s) && other in SchemeList(s) &&
    IndexOf(SchemeList(s), t) == IndexOf(SchemeList(s), other) + 1
  }

  /** A 'consecutive' answer comes from two positions one apart in a shared
      scheme. */
  lemma ConsecutiveStep(t: string, other: string)
    requires TokenNext(t, other) == Ok(Consecutive)
    ensures t != other && Ordinality(other).Ok? && Ordinality(t).Ok?
    ensures SomeStep(Ordinality(t).value.Keys * Ordinality(other).value.Keys,
                     Ordinality(other).value, Ordinality(t).value)
  {
    assert t != other && TokenSchemes(t).Ok? && TokenSchemes(other).Ok?;
    assert Ordinality(other).Ok? && Ordinality(t).Ok?;
  }

  /** Two first occurrences one apart are one apart as positions. */
  lemma FirstPositions(xs: seq<string>, i: nat, j: nat)
    requires i < |xs| && j < |xs| && j == i + 1
    requires forall k :: 0 <= k < i ==> xs[k] != xs[i]
    requires forall k :: 0 <= k < j ==> xs[k] != xs[j]
    ensures xs[i] in xs && xs[j] in xs && IndexOf(xs, xs[j]) == IndexOf(xs, xs[i]) + 1
  {
    IndexOfAt(xs, i);
    IndexOfAt(xs, j);
  }

  /** A 'consecutive' answer names a scheme in which the token directly
      follows the other. */
  lemma ConsecutiveFollows(t: string, other: string) returns (s: Scheme)
    requires TokenNext(t, other) == Ok(Consecutive)
    ensures FollowsIn(t, other, s)
  {
    ConsecutiveStep(t, other);
    var ord1, ord2 := Ordinality(other).value, Ordinality(t).value;
    s :| s in ord1 && s in ord2 && ord2[s] == ord1[s] + 1;
    FirstPositions(SchemeList(s), ord1[s], ord2[s]);
  }

  /** When the token directly follows the other in some scheme, the answer is
      'consecutive' unless computing it raises. */
  lemma FollowsConsecutive(t: string, other: string, s: Scheme)
    requires FollowsIn(t, other, s) && TokenNext(t, other).Ok?
    ensures TokenNext(t, other) == Ok(Consecutive)
  {
    SchemesComplete(t, s);
    SchemesComplete(other, s);
    var common := TokenSchemes(t).value * TokenSchemes(other).value;
    assert s in common;
    var ord1, ord2 := Ordinality(other).value, Ordinality(t).value;
    IndexOfAt(SchemeList(s), ord1[s]);
    IndexOfAt(SchemeList(s), ord2[s]);
    assert SomeStep(common, ord1, ord2);
  }

  /** 'equal' exactly on equal text; 'consecutive' exactly when the token
      directly follows the other in some scheme. */
  lemma TokenNextMeaning(t: string, other: string)
    requires TokenNext(t, other).Ok?
    ensures TokenNext(t, other).value == Equal <==> t == other
    ensures TokenNext(t, other).value == Consecutive <==>
      t != other && exists s :: FollowsIn(t, other, s)
  {
    if TokenNext(t, other).value == Consecutive {
      var s := ConsecutiveFollows(t, other);
    }
    if s :| FollowsIn(t, other, s) {
      FollowsConsecutive(t, other, s);
    }
  }

  /** Each letter follows the one before it, in every letter scheme. */
  lemma LetterSuccessor(k: nat, upper: bool, n: nat)
    requires k < 25 && 1 <= n <= 4
    ensures TokenNext(Repeat(Letter(k + 1, upper), n), Repeat(Letter(k, upper), n)) == Ok(Consecutive)
  {
    var s := if n == 1 then CaseScheme(upper) else MultipleScheme(upper, n);
    var t, u := Repeat(Letter(k + 1, upper), n), Repeat(Letter(k, upper), n);
    assert t[0] != u[0];
    assert SchemeList(s) == LetterList(upper, n);
    LetterPosition(k + 1, upper, n);
    LetterPosition(k, upper, n);
    assert FollowsIn(t, u, s);
    SuccessorOk(t, u, s);
  }

  /** Two different tokens of a scheme other than digits, or two listed
      numbers, compare without raising. */
  lemma SuccessorOk(t: string, u: string, s: Scheme)
    requires t != u && FollowsIn(t, u, s)
    requires !IsDigitText(t) || t in DigitList()
    requires !IsDigitText(u) || u in DigitList()
    ensures TokenNext(t, u) == Ok(Consecutive)
  {
    SchemesComplete(t, s);
    SchemesComplete(u, s);
    if Digits in TokenSchemes(t).value { SchemesSound(t, Digits); }
    if Digits in TokenSchemes(u).value { SchemesSound(u, Digits); }
    OrdinalityOk(t);
    OrdinalityOk(u);
    NextOk(t, u);
    FollowsConsecutive(t, u, s);
  }

  /** Comparing raises only when a token's schemes or positions do. */
  lemma NextOk(t: string, u: string)
    requires Ordinality(t).Ok? && Ordinality(u).Ok?
    ensures TokenNext(t, u).Ok?
  {
  }

  /** Each number up to 199 follows the number before it. */
  lemma DigitsSuccessor(n: nat)
    requires 1 <= n < 199
    ensures TokenNext(DecimalText(n + 1), DecimalText(n)) == Ok(Consecutive)
  {
    var t, u := DecimalText(n + 1), DecimalText(n);
    DigitsPosition(n + 1);
    DigitsPosition(n);
    assert FollowsIn(t, u, Digits);
    SuccessorOk(t, u, Digits);
  }

  const FirstTokens: seq<string> := ["a", "A", "aa", "AA", "aaa", "AAA", "aaaa", "AAAA", "i", "I", "1"]

  /** `is_first_in_scheme` on text: one of the eleven first tokens. */
  lemma FirstInSchemeTokens(t: string)
    ensures IsFirstInScheme(t) <==> t in FirstTokens
  {
    if IsFirstInScheme(t) {
      var s: Scheme :| SchemeList(s)[0] == t;
      FirstToken(s);
    }
    if t in FirstTokens {
      var i :| 0 <= i < |FirstTokens| && FirstTokens[i] == t;
      var s := AllSchemes[i];
      assert SchemeIndex(s) == i;
      FirstToken(s);
    }
  }

  /** The positions of a token whose schemes are known. */
  lemma OrdinalityOf(t: string, ss: set<Scheme>)
    requires TokenSchemes(t) == Ok(ss)
    ensures Ordinality(t).Ok? <==> forall s :: s in ss ==> t in SchemeList(s)
    ensures Ordinality(t).Ok? ==> Ordinality(t).value.Keys == ss
    ensures Ordinality(t).Ok? ==> forall s :: s in ss ==> Ordinality(t).value[s] == IndexOf(SchemeList(s), t)
    ensures Ordinality(t).Err? ==> Ordinality(t).error == NotInScheme
  {
  }

  /** What the loop finds is the ordinality: None exactly when some list
      lacks the token. */
  lemma OrdinalityFound(t: string, ss: set<Scheme>, found: Option<map<Scheme, nat>>)
    requires TokenSchemes(t) == Ok(ss)
    requires found.Some? <==> forall s :: s in ss ==> t in SchemeList(s)
    requires found.Some? ==> found.value.Keys == ss
    requires found.Some? ==> forall s :: s in ss ==> found.value[s] == IndexOf(SchemeList(s), t)
    ensures found.None? ==> Ordinality(t) == Err(NotInScheme)
    ensures found.Some? ==> Ordinality(t) == Ok(found.value)
  {
    OrdinalityOf(t, ss);
    if found.Some? {
      var ord := found.value;
      assert forall s :: s in ord ==> ord[s] == Ordinality(t).value[s];
      assert ord == Ordinality(t).value;
    }
  }

  /** The loop of `Token.get_ordinality`: the token's place in the list of
      each of the given schemes, or None when some list lacks it. */
  method PositionsIn(t: string, ss: set<Scheme>, lists: Scheme -> seq<string>) returns (r: Option<map<Scheme, nat>>)
    ensures r.Some? <==> forall s :: s in ss ==> t in lists(s)
    ensures r.Some? ==> r.value.Keys == ss
    ensures r.Some? ==> forall s :: s in ss ==> t in lists(s) && r.value[s] == IndexOf(lists(s), t)
  {
    var ord: map<Scheme, nat> := map[];
    var todo := ss;
    while todo != {}
      invariant todo <= ss && ord.Keys == ss - todo
      invariant forall s :: s in ord ==> t in lists(s) && ord[s] == IndexOf(lists(s), t)
      decreases |todo|
    {
      var s :| s in todo;
      if t !in lists(s) {
        return None;
      }
      ord := ord[s := IndexOf(lists(s), t)];
      todo := todo - {s};
    }
    return Some(ord);
  }

  // ---------------------------------------------------------------------------
  // Memoised tokens
  // ---------------------------------------------------------------------------

  /** `Token`: a token's text with its schemes and positions memoised in
      fields that start out unset. As in the source, an empty cached value
      counts as unset and is computed again. */
  class Token {
    const text: string
    var schemes: Option<set<Scheme>>
    var ordinality: Option<map<Scheme, nat>>

    /** What is cached is what the computation gives. */
    ghost predicate Valid()
      reads this
    {
      (schemes.Some? ==> TokenSchemes(text) == Ok(schemes.value)) &&
      (ordinality.Some? ==> Ordinality(text) == Ok(ordinality.value))
    }

    constructor (t: string)
      ensures text == t && schemes == None && ordinality == None && Valid()
    {
      text := t;
      schemes := None;
      ordinality := None;
    }

    /** `Token.get_schemes` with its cache. */
    method GetSchemes() returns (r: Result<set<Scheme>>)
      requires Valid()
      modifies this
      ensures Valid() && r == TokenSchemes(text)
      ensures ordinality == old(ordinality)
      ensures schemes == if r.Ok? then Some(r.value) else old(schemes)
    {
      if schemes.Some? && schemes.value != {} {
        return Ok(schemes.value);
      }
      r := TokenSchemes(text);
      if r.Ok? {
        schemes := Some(r.value);
      }
    }

    /** `Token.get_ordinality` with its cache: the loop over the token's
        schemes, looking the token up in each scheme's list. */
    method GetOrdinality() returns (r: Result<map<Scheme, nat>>)
      requires Valid()
      modifies this
      ensures Valid() && r == Ordinality(text)
      ensures r.Ok? ==> ordinality == Some(r.value)
      ensures r.Err? ==> ordinality == old(ordinality)
      ensures old(ordinality).Some? && old(ordinality).value != map[] ==> schemes == old(schemes)
      ensures !(old(ordinality).Some? && old(ordinality).value != map[]) ==>
        schemes == if TokenSchemes(text).Ok? then Some(TokenSchemes(text).value) else old(schemes)
    {
      if ordinality.Some? && ordinality.value != map[] {
        return Ok(ordinality.value);
      }
      var ss := GetSchemes();
      if ss.Err? {
        return Err(ss.error);
      }
      var found := PositionsIn(text, ss.value, SchemeList);
      OrdinalityFound(text, ss.value, found);
      if found.None? {
        return Err(NotInScheme);
      }
      ordinality := found;
      r := Ok(found.value);
    }
  }
}
