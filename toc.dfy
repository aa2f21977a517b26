// The table-of-contents vocabulary shared by the two front ends
// (tasks/structure.py and tasks/structure_xml.py): hierarchy levels, the
// emitted entry, and the final ordering of titles.

module Toc {
  import opened Wrappers
  import opened Strings

  /** The hierarchy levels of the Code. The schema's `level` element and the
      legacy markup's unlabelled components are both reported as `heading`. */
  datatype Level = Title | Subtitle | Chapter | Subchapter | Part | Subpart | Division | Heading | Section

  /** The level's name as it appears in the output (`"title"`, `"chapter"`, ...). */
  function LevelName(l: Level): string
  {
    match l
    case Title => "title"
    case Subtitle => "subtitle"
    case Chapter => "chapter"
    case Subchapter => "subchapter"
    case Part => "part"
    case Subpart => "subpart"
    case Division => "division"
    case Heading => "heading"
    case Section => "section"
  }

  lemma LevelNameInjective(a: Level, b: Level)
    requires LevelName(a) == LevelName(b)
    ensures a == b
  {
  }

  /** One emitted object: `level`, `number` and `name` always, `citation`
      when present. The `subparts` key is written only for a non-empty list,
      so an absent key is the empty list here. */
  datatype Entry = Entry(level: Level, number: Option<string>, name: string,
                         citation: Option<string>, subparts: seq<Entry>)

  // ---------------------------------------------------------------------------
  // Ordering of titles: key (int(number with every 'a' removed), number).
  // ---------------------------------------------------------------------------

  /** Python `int()` on text: surrounding whitespace, an optional sign and at
      least one ASCII digit; anything else raises ValueError (None here). */
  function ParseInt(s: string): (r: Option<int>)
    ensures var t := Strip(s);
      r.Some? <==> (t != [] && AllDigits(t)) || (|t| >= 2 && (t[0] == '+' || t[0] == '-') && AllDigits(t[1..]))
    ensures var t := Strip(s);
      r.Some? && AllDigits(t) ==> r.value == DecimalValue(t)
    ensures var t := Strip(s);
      r.Some? && !AllDigits(t) ==>
        |t| >= 2 && AllDigits(t[1..]) &&
        r.value == (if t[0] == '-' then -(DecimalValue(t[1..]) as int) else DecimalValue(t[1..]))
  {
    var t := Strip(s);
    if t != [] && (t[0] == '+' || t[0] == '-') then
      var d := t[1..];
      if d != [] && AllDigits(d) then Some(if t[0] == '-' then -(DecimalValue(d) as int) else DecimalValue(d))
      else None
    else if t != [] && AllDigits(t) then Some(DecimalValue(t))
    else None
  }

  /** `int(str(n))` is `n`. */
  lemma ParseIntDecimal(n: nat)
    ensures ParseInt(DecimalText(n)) == Some(n)
  {
    var d := DecimalText(n);
    DecimalRoundTrip(n);
    DigitsNoSpace(d);
    StripNoSpace(d);
  }

  /** `int("-" + str(n))` is `-n`. */
  lemma ParseIntNegative(n: nat)
    ensures ParseInt("-" + DecimalText(n)) == Some(-(n as int))
  {
    DecimalRoundTrip(n);
    ParseIntMinus(DecimalText(n));
  }

  lemma ParseIntMinus(d: string)
    requires d != [] && AllDigits(d)
    ensures ParseInt("-" + d) == Some(-(DecimalValue(d) as int))
  {
    var t := "-" + d;
    assert |t| >= 2 && t[0] == '-' && t[1..] == d;
    DigitsNoSpace(d);
    assert NoSpace(t) by {
      assert forall k :: 0 < k < |t| ==> t[k] == d[k - 1];
    }
    ParseIntSigned(t);
  }

  lemma ParseIntSigned(t: string)
    requires |t| >= 2 && t[0] == '-' && AllDigits(t[1..]) && NoSpace(t)
    ensures ParseInt(t) == Some(-(DecimalValue(t[1..]) as int))
  {
    StripNoSpace(t);
  }

  lemma DigitsNoSpace(d: string)
    requires AllDigits(d)
    ensures NoSpace(d)
  {
    forall k | 0 <= k < |d| ensures !IsSpace(d[k]) {
      assert IsDigit(d[k]);
    }
  }

  /** Lexicographic order on code points, Python's `<=` on `str`. */
  predicate StrLe(a: string, b: string)
  {
    a == [] || (b != [] && (a[0] < b[0] || (a[0] == b[0] && StrLe(a[1..], b[1..]))))
  }

  lemma {:induction false} StrLeTotal(a: string, b: string)
    ensures StrLe(a, b) || StrLe(b, a)
  {
    if a != [] && b != [] && a[0] == b[0] { StrLeTotal(a[1..], b[1..]); }
  }

  lemma {:induction false} StrLeTransitive(a: string, b: string, c: string)
    requires StrLe(a, b) && StrLe(b, c)
    ensures StrLe(a, c)
  {
    if a != [] && b != [] && c != [] && a[0] == b[0] && b[0] == c[0] {
      StrLeTransitive(a[1..], b[1..], c[1..]);
    }
  }

  lemma {:induction false} StrLeAntisymmetric(a: string, b: string)
    requires StrLe(a, b) && StrLe(b, a)
    ensures a == b
  {
    if a != [] && b != [] {
      StrLeAntisymmetric(a[1..], b[1..]);
      assert a == [a[0]] + a[1..] && b == [b[0]] + b[1..];
    }
  }

  /** The sort key of a top-level entry's number, or None when computing it
      raises (no number, or no integer once the letters `a` are removed). */
  function SortKey(number: Option<string>): (r: Option<(int, string)>)
    ensures r.Some? <==> number.Some? && ParseInt(Replace(number.value, "a", "")).Some?
    ensures r.Some? ==> r.value.1 == number.value
    ensures r.Some? ==> r.value.0 == ParseInt(Replace(number.value, "a", "")).value
  {
    match number
    case None => None
    case Some(n) =>
      match ParseInt(Replace(n, "a", ""))
      case None => None
      case Some(v) => Some((v, n))
  }

  /** Tuple comparison of two keys, as Python compares `(int, str)` pairs. */
  predicate KeyLe(x: (int, string), y: (int, string))
  {
    x.0 < y.0 || (x.0 == y.0 && StrLe(x.1, y.1))
  }

  lemma KeyLeTotal(x: (int, string), y: (int, string))
    ensures KeyLe(x, y) || KeyLe(y, x)
  {
    StrLeTotal(x.1, y.1);
  }

  lemma KeyLeTransitive(x: (int, string), y: (int, string), z: (int, string))
    requires KeyLe(x, y) && KeyLe(y, z)
    ensures KeyLe(x, z)
  {
    if x.0 == y.0 == z.0 { StrLeTransitive(x.1, y.1, z.1); }
  }

  /** The key of an entry whose key can be computed (a stand-in otherwise,
      never consulted: the sort only runs once every key exists). */
  function TitleKey<T>(number: T -> Option<string>, x: T): (int, string)
  {
    match SortKey(number(x))
    case Some(k) => k
    case None => (0, [])
  }

  function TitleKeyOf<T>(number: T -> Option<string>): T -> (int, string)
  {
    x => TitleKey(number, x)
  }

  predicate SortedBy<T>(s: seq<T>, key: T -> (int, string))
  {
    forall p, q :: 0 <= p < q < |s| ==> KeyLe(key(s[p]), key(s[q]))
  }

  /** The elements of `s` whose key is `k`, in their order in `s`. A sort
      is stable when it keeps this sequence for every key. */
  function WithKey<T>(s: seq<T>, key: T -> (int, string), k: (int, string)): seq<T>
    decreases |s|
  {
    if s == [] then [] else (if key(s[0]) == k then [s[0]] else []) + WithKey(s[1..], key, k)
  }

  lemma {:induction false} WithKeyConcat<T>(a: seq<T>, b: seq<T>, key: T -> (int, string), k: (int, string))
    ensures WithKey(a + b, key, k) == WithKey(a, key, k) + WithKey(b, key, k)
    decreases |a|
  {
    if a == [] {
      assert a + b == b;
    } else {
      assert (a + b)[0] == a[0] && (a + b)[1..] == a[1..] + b;
      WithKeyConcat(a[1..], b, key, k);
    }
  }

  /** Exchanging two neighbours with different keys keeps every key's
      elements in order. */
  lemma WithKeySwap<T>(s: seq<T>, t: seq<T>, p: nat, key: T -> (int, string))
    requires p + 1 < |s| == |t| && key(s[p]) != key(s[p + 1])
    requires t[p] == s[p + 1] && t[p + 1] == s[p]
    requires forall m :: 0 <= m < |s| && m != p && m != p + 1 ==> t[m] == s[m]
    ensures forall k :: WithKey(t, key, k) == WithKey(s, key, k)
  {
    var pre, post := s[..p], s[p + 2..];
    assert s == pre + [s[p], s[p + 1]] + post;
    assert t == pre + [s[p + 1], s[p]] + post;
    forall k
      ensures WithKey(t, key, k) == WithKey(s, key, k)
    {
      WithKeyConcat(pre + [s[p], s[p + 1]], post, key, k);
      WithKeyConcat(pre, [s[p], s[p + 1]], key, k);
      WithKeyConcat(pre + [s[p + 1], s[p]], post, key, k);
      WithKeyConcat(pre, [s[p + 1], s[p]], key, k);
      assert [s[p], s[p + 1]][1..] == [s[p + 1]] && [s[p + 1], s[p]][1..] == [s[p]];
      assert [s[p + 1]][1..] == [] && [s[p]][1..] == [];
    }
  }

  /** `TOC.sort(key=...)`: Python first computes every key (any failure raises
      and leaves the list as it was), then sorts in place, stably. */
  method SortTitles<T>(a: array<T>, number: T -> Option<string>) returns (ok: bool)
    modifies a
    ensures ok <==> forall k :: 0 <= k < a.Length ==> SortKey(number(old(a[k]))).Some?
    ensures !ok ==> a[..] == old(a[..])
    ensures ok ==> SortedBy(a[..], TitleKeyOf(number)) && multiset(a[..]) == multiset(old(a[..]))
    ensures ok ==> forall k :: WithKey(a[..], TitleKeyOf(number), k) == WithKey(old(a[..]), TitleKeyOf(number), k)
  {
    ok := AllKeyed(a, number);
    if ok {
      InsertionSort(a, TitleKeyOf(number));
    }
  }

  /** Whether every element has a sort key. */
  method AllKeyed<T>(a: array<T>, number: T -> Option<string>) returns (ok: bool)
    ensures ok <==> forall k :: 0 <= k < a.Length ==> SortKey(number(a[k])).Some?
  {
    var k := 0;
    while k < a.Length
      invariant 0 <= k <= a.Length
      invariant forall m :: 0 <= m < k ==> SortKey(number(a[m])).Some?
    {
      if SortKey(number(a[k])).None? {
        return false;
      }
      k := k + 1;
    }
    return true;
  }

  /** Insertion sort of the whole array by `key`. */
  method InsertionSort<T>(a: array<T>, key: T -> (int, string))
    modifies a
    ensures SortedBy(a[..], key) && multiset(a[..]) == multiset(old(a[..]))
    ensures forall k :: WithKey(a[..], key, k) == WithKey(old(a[..]), key, k)
  {
    if a.Length == 0 { return; }
    var i := 1;
    while i < a.Length
      invariant 1 <= i <= a.Length
      invariant AdjacentSorted(a[..i], key)
      invariant multiset(a[..]) == multiset(old(a[..]))
      invariant forall k :: WithKey(a[..], key, k) == WithKey(old(a[..]), key, k)
    {
      InsertOne(a, i, key);
      i := i + 1;
    }
    assert a[..] == a[..a.Length];
    AdjacentSortedIsSorted(a[..], key);
  }

  /** Sortedness checked on neighbours only. */
  predicate AdjacentSorted<T>(s: seq<T>, key: T -> (int, string))
  {
    forall p :: 0 <= p < |s| - 1 ==> KeyLe(key(s[p]), key(s[p + 1]))
  }

  lemma {:induction false} AdjacentSortedIsSorted<T>(s: seq<T>, key: T -> (int, string))
    requires AdjacentSorted(s, key)
    ensures SortedBy(s, key)
  {
    if |s| > 1 {
      AdjacentSortedIsSorted(s[1..], key);
      forall q | 1 < q < |s| ensures KeyLe(key(s[0]), key(s[q])) {
        assert KeyLe(key(s[1]), key(s[1..][q - 1]));
        KeyLeTransitive(key(s[0]), key(s[1]), key(s[q]));
      }
      forall p, q | 0 < p < q < |s| ensures KeyLe(key(s[p]), key(s[q])) {
        assert s[p] == s[1..][p - 1] && s[q] == s[1..][q - 1];
      }
    }
  }

  /** Exchanges two elements; everything else stays in place. */
  method Swap<T>(a: array<T>, p: nat, q: nat)
    requires p < q < a.Length
    modifies a
    ensures a[p] == old(a[q]) && a[q] == old(a[p])
    ensures forall m :: 0 <= m < a.Length && m != p && m != q ==> a[m] == old(a[m])
    ensures multiset(a[..]) == multiset(old(a[..]))
  {
    ghost var s := a[..];
    a[p], a[q] := a[q], a[p];
    assert s == s[..p] + [s[p]] + s[p + 1..q] + [s[q]] + s[q + 1..];
    assert a[..] == s[..p] + [s[q]] + s[p + 1..q] + [s[p]] + s[q + 1..];
  }

  /** One step of insertion sort: the element at `i` moves left past every
      strictly larger key, so the prefix up to and including `i` is sorted. */
  method InsertOne<T>(a: array<T>, i: nat, key: T -> (int, string))
    requires 0 < i < a.Length
    requires AdjacentSorted(a[..i], key)
    modifies a
    ensures AdjacentSorted(a[..i + 1], key)
    ensures multiset(a[..]) == multiset(old(a[..]))
    ensures forall k :: WithKey(a[..], key, k) == WithKey(old(a[..]), key, k)
  {
    var j := i;
    while j > 0 && !KeyLe(key(a[j - 1]), key(a[j]))
      invariant 0 <= j <= i
      invariant forall p :: 0 <= p < i && p != j && p + 1 != j ==> KeyLe(key(a[p]), key(a[p + 1]))
      invariant 0 < j < i ==> KeyLe(key(a[j - 1]), key(a[j + 1]))
      invariant j < i ==> KeyLe(key(a[j]), key(a[j + 1]))
      invariant multiset(a[..]) == multiset(old(a[..]))
      invariant forall k :: WithKey(a[..], key, k) == WithKey(old(a[..]), key, k)
    {
      KeyLeTotal(key(a[j - 1]), key(a[j]));
      KeyLeTotal(key(a[j]), key(a[j]));
      ghost var before := a[..];
      Swap(a, j - 1, j);
      WithKeySwap(before, a[..], j - 1, key);
      j := j - 1;
    }
  }
}
