// The two footnote patterns shared by uscode/models.py and
// uscode/structure.py. A footnote's own text starts with the bell, 'N', a
// backslash, the number, a backslash and whitespace; a reference to a
// footnote inside body text reads backslash, number, backslash, bell, 'N'.

module Footnotes {
  import opened Wrappers
  import opened Strings

  /** How many digits start at `i`. */
  function DigitsFrom(s: string, i: nat): (n: nat)
    requires i <= |s|
    ensures i + n <= |s| && (forall k {:trigger IsDigit(s[k])} :: i <= k < i + n ==> IsDigit(s[k]))
    ensures i + n < |s| ==> !IsDigit(s[i + n])
    decreases |s| - i
  {
    if i < |s| && IsDigit(s[i]) then 1 + DigitsFrom(s, i + 1) else 0
  }

  /** How many whitespace characters start at `i`. */
  function SpacesFrom(s: string, i: nat): (n: nat)
    requires i <= |s|
    ensures i + n <= |s| && (forall k {:trigger IsSpace(s[k])} :: i <= k < i + n ==> IsSpace(s[k]))
    ensures i + n < |s| ==> !IsSpace(s[i + n])
    decreases |s| - i
  {
    if i < |s| && IsSpace(s[i]) then 1 + SpacesFrom(s, i + 1) else 0
  }

  const NoteLead: string := "\U{7}N\\"

  // ---------------------------------------------------------------------------
  // A footnote's text: `^\x07N\\(\d+)\\\s+`
  // ---------------------------------------------------------------------------

  /** The pattern matches at the front of `text`. */
  predicate HasNotePrefix(text: string)
  {
    |text| >= 3 && text[..3] == NoteLead &&
    var n := DigitsFrom(text, 3);
    n >= 1 && 4 + n < |text| && text[3 + n] == '\\' && IsSpace(text[4 + n])
  }

  /** The length of the match: the lead, the digits, the backslash and the
      whole run of whitespace after it. */
  function NotePrefixLength(text: string): nat
    requires HasNotePrefix(text)
  {
    var n := DigitsFrom(text, 3);
    4 + n + SpacesFrom(text, 4 + n)
  }

  /** `text` is the lead, the digits `num`, a backslash, a non-empty run of
      whitespace and then `rest`, which does not start with whitespace. */
  predicate NoteSplits(text: string, num: string, rest: string)
  {
    |num| >= 1 && AllDigits(num) && 4 + |num| + |rest| < |text| &&
    text[..3] == NoteLead && text[3..3 + |num|] == num && text[3 + |num|] == '\\' &&
    text[|text| - |rest|..] == rest &&
    (forall k :: 4 + |num| <= k < |text| - |rest| ==> IsSpace(text[k])) &&
    (rest == [] || !IsSpace(rest[0]))
  }

  /** `s.replace(pat, rep, 1)`: only the first occurrence is replaced. */
  function ReplaceOnce(s: string, pat: string, rep: string): (r: string)
    requires pat != []
  {
    match Find(s, pat)
    case None => s
    case Some(k) => s[..k] + rep + s[k + |pat|..]
  }

  /** A pattern at the front of `s` is the first occurrence. */
  lemma ReplaceOnceFront(s: string, pat: string)
    requires pat != [] && StartsWith(s, pat)
    ensures ReplaceOnce(s, pat, "") == s[|pat|..]
  {
    assert OccursAt(s, pat, 0);
    var f := Find(s, pat);
    assert f.Some?;
    assert f.value == 0;
  }

  /** `parse_footenote_content`: the footnote number and the text with the
      matched prefix removed once, or None when the prefix is not there. */
  function ParseNote(text: string): (r: Option<(string, string)>)
    ensures r.Some? <==> HasNotePrefix(text)
    ensures r.Some? ==> NoteSplits(text, r.value.0, r.value.1)
  {
    if HasNotePrefix(text) then
      var n := DigitsFrom(text, 3);
      var len := NotePrefixLength(text);
      ReplaceOnceFront(text, text[..len]);
      Some((text[3..3 + n], ReplaceOnce(text, text[..len], "")))
    else None
  }

  lemma {:induction false} DigitsExact(s: string, i: nat, n: nat)
    requires i + n <= |s| && (forall k :: i <= k < i + n ==> IsDigit(s[k]))
    requires i + n < |s| ==> !IsDigit(s[i + n])
    ensures DigitsFrom(s, i) == n
    decreases n
  {
    if n > 0 {
      DigitsExact(s, i + 1, n - 1);
    }
  }

  lemma {:induction false} SpacesExact(s: string, i: nat, n: nat)
    requires i + n <= |s| && (forall k :: i <= k < i + n ==> IsSpace(s[k]))
    requires i + n < |s| ==> !IsSpace(s[i + n])
    ensures SpacesFrom(s, i) == n
    decreases n
  {
    if n > 0 {
      SpacesExact(s, i + 1, n - 1);
    }
  }

  /** The split of a footnote's text is fixed by the text: the digits run
      to the backslash and the whitespace runs to `rest`. */
  lemma NoteSplitsUnique(text: string, num: string, rest: string, num': string, rest': string)
    requires NoteSplits(text, num, rest) && NoteSplits(text, num', rest')
    ensures num == num' && rest == rest'
  {
    DigitsExact(text, 3, |num|);
    DigitsExact(text, 3, |num'|);
    SpacesExact(text, 4 + |num|, |text| - |rest| - 4 - |num|);
    SpacesExact(text, 4 + |num'|, |text| - |rest'| - 4 - |num'|);
  }

  /** Reading a footnote's text built from its parts gives the parts back. */
  lemma ParseNoteOf(num: string, ws: string, rest: string)
    requires |num| >= 1 && AllDigits(num)
    requires |ws| >= 1 && forall k :: 0 <= k < |ws| ==> IsSpace(ws[k])
    requires rest == [] || !IsSpace(rest[0])
    ensures ParseNote(NoteLead + num + "\\" + ws + rest) == Some((num, rest))
  {
    var text := NoteLead + num + "\\" + ws + rest;
    var n := |num|;
    assert text[..3] == NoteLead;
    assert text[3..3 + n] == num;
    assert text[3 + n] == '\\';
    assert text[4 + n] == ws[0];
    assert forall k :: 4 + n <= k < |text| - |rest| ==> text[k] == ws[k - 4 - n];
    assert text[|text| - |rest|..] == rest;
    assert NoteSplits(text, num, rest);
    DigitsExact(text, 3, n);
    assert HasNotePrefix(text);
    var r := ParseNote(text);
    NoteSplitsUnique(text, num, rest, r.value.0, r.value.1);
  }

  /** `re.sub` of the same pattern: the prefix removed when it is there. */
  function StripNote(text: string): (r: string)
    ensures HasNotePrefix(text) ==> r == ParseNote(text).value.1
    ensures !HasNotePrefix(text) ==> r == text
  {
    if HasNotePrefix(text) then text[NotePrefixLength(text)..] else text
  }

  // ---------------------------------------------------------------------------
  // References in body text: `\\(\d+)\\\x07N`
  // ---------------------------------------------------------------------------

  /** A reference starts at `p`. */
  predicate RefAt(s: string, p: nat)
  {
    p < |s| && s[p] == '\\' &&
    var n := DigitsFrom(s, p + 1);
    n >= 1 && p + n + 3 < |s| && s[p + n + 1] == '\\' && s[p + n + 2] == '\U{7}' && s[p + n + 3] == 'N'
  }

  function RefNumber(s: string, p: nat): string
    requires RefAt(s, p)
  {
    s[p + 1..p + 1 + DigitsFrom(s, p + 1)]
  }

  function RefEnd(s: string, p: nat): nat
    requires RefAt(s, p)
  {
    p + DigitsFrom(s, p + 1) + 4
  }

  /** No reference starts inside another one. */
  lemma NoRefInside(s: string, p: nat, q: nat)
    requires RefAt(s, p) && p < q < RefEnd(s, p)
    ensures !RefAt(s, q)
  {
    var n := DigitsFrom(s, p + 1);
    if q == p + n + 1 {
      assert DigitsFrom(s, q + 1) == 0;
    }
  }

  /** `re.finditer` from `p` on: each reference's number and start offset,
      left to right. */
  function RefsFrom(s: string, p: nat): (r: seq<(string, nat)>)
    requires p <= |s|
    ensures forall i :: 0 <= i < |r| ==> p <= r[i].1 && RefAt(s, r[i].1) && r[i].0 == RefNumber(s, r[i].1)
    ensures forall i, j :: 0 <= i < j < |r| ==> r[i].1 < r[j].1
    decreases |s| - p
  {
    if p == |s| then []
    else if RefAt(s, p) then [(RefNumber(s, p), p)] + RefsFrom(s, RefEnd(s, p))
    else RefsFrom(s, p + 1)
  }

  /** `extract_footnote_refs`. */
  function FootnoteRefs(text: string): seq<(string, nat)>
  {
    RefsFrom(text, 0)
  }

  function Offsets(r: seq<(string, nat)>): seq<nat>
  {
    seq(|r|, i requires 0 <= i < |r| => r[i].1)
  }

  /** Every reference in the text is reported. */
  lemma {:induction false} RefsComplete(s: string, p: nat, q: nat)
    requires p <= q < |s| && RefAt(s, q)
    ensures q in Offsets(RefsFrom(s, p))
    decreases |s| - p
  {
    var r := RefsFrom(s, p);
    if p == q {
      assert Offsets(r)[0] == q;
    } else if RefAt(s, p) {
      if q < RefEnd(s, p) {
        NoRefInside(s, p, q);
      }
      RefsComplete(s, RefEnd(s, p), q);
      var r' := RefsFrom(s, RefEnd(s, p));
      var i :| 0 <= i < |r'| && Offsets(r')[i] == q;
      assert Offsets(r)[i + 1] == q;
    } else {
      RefsComplete(s, p + 1, q);
    }
  }

  /** The references of the text are exactly the places where the pattern
      matches. */
  lemma FootnoteRefsExact(text: string, q: nat)
    ensures q in Offsets(FootnoteRefs(text)) <==> RefAt(text, q)
  {
    if RefAt(text, q) {
      RefsComplete(text, 0, q);
    }
  }
}
