/**
 * The handful of Python `str` operations the bot relies on, written out over
 * `seq<char>`: `strip()`, the `in` substring test, `startswith`/`endswith`,
 * `lower()` (ASCII letters only) and the decimal rendering of an integer in
 * an f-string.
 */
module Strings {

  /** Python's `str.isspace()` character set, which `str.strip()` removes. */
  predicate IsSpace(c: char) {
    || c == ' '
    || '\U{9}' <= c <= '\U{D}'      // \t \n \v \f \r
    || '\U{1C}' <= c <= '\U{1F}'    // file, group, record and unit separators
    || c == '\U{85}' || c == '\U{A0}' || c == '\U{1680}'
    || '\U{2000}' <= c <= '\U{200A}'
    || c == '\U{2028}' || c == '\U{2029}' || c == '\U{202F}' || c == '\U{205F}'
    || c == '\U{3000}'              // ideographic space
  }

  predicate AllSpace(s: string) {
    forall i :: 0 <= i < |s| ==> IsSpace(s[i])
  }

  /** Neither end of `s` is whitespace: what `strip()` leaves behind. */
  predicate Unpadded(s: string) {
    s == [] || (!IsSpace(s[0]) && !IsSpace(s[|s| - 1]))
  }

  /** `s.lstrip()`: the suffix left after dropping leading whitespace. */
  function TrimLeft(s: string): (r: string)
    ensures |r| <= |s| && r == s[|s| - |r|..]
    ensures forall i :: 0 <= i < |s| - |r| ==> IsSpace(s[i])
    ensures r != [] ==> !IsSpace(r[0])
    decreases |s|
  {
    if |s| > 0 && IsSpace(s[0]) then TrimLeft(s[1..]) else s
  }

  /** `s.rstrip()`: the prefix left after dropping trailing whitespace. */
  function TrimRight(s: string): (r: string)
    ensures |r| <= |s| && r == s[..|r|]
    ensures forall i :: |r| <= i < |s| ==> IsSpace(s[i])
    ensures r != [] ==> !IsSpace(r[|r| - 1])
    decreases |s|
  {
    if |s| > 0 && IsSpace(s[|s| - 1]) then TrimRight(s[..|s| - 1]) else s
  }

  /** `s.strip()`. */
  function Trim(s: string): (r: string)
    ensures |r| <= |s|
    ensures Unpadded(r)
    ensures r == [] <==> AllSpace(s)
  {
    var l := TrimLeft(s);
    var r := TrimRight(l);
    StripBoth(s, l, r);
    r
  }

  /**
   * Dropping leading whitespace, then trailing whitespace, leaves the middle
   * of `s` between two all-whitespace margins.
   */
  lemma StripBoth(s: string, l: string, r: string)
    requires |l| <= |s| && l == s[|s| - |l|..] && (forall i :: 0 <= i < |s| - |l| ==> IsSpace(s[i]))
    requires l != [] ==> !IsSpace(l[0])
    requires |r| <= |l| && r == l[..|r|] && (forall i :: |r| <= i < |l| ==> IsSpace(l[i]))
    requires r != [] ==> !IsSpace(r[|r| - 1])
    ensures Unpadded(r)
    ensures r == [] <==> AllSpace(s)
    ensures exists a, b :: 0 <= a <= b <= |s| && r == s[a..b] && AllSpace(s[..a]) && AllSpace(s[b..])
  {
    var a := |s| - |l|;
    assert r != [] ==> r[0] == l[0];
    assert r == s[a..a + |r|];
    assert AllSpace(s[..a]);
    assert AllSpace(s[a + |r|..]) by {
      assert s[a + |r|..] == l[|r|..];
    }
    if r == [] {
      assert l == [];
      assert s == s[..a];
    } else {
      assert !IsSpace(s[a]);
    }
  }

  /** `strip()` keeps a middle slice of `s` and drops only whitespace on either side. */
  lemma TrimSlice(s: string)
    ensures exists a, b :: 0 <= a <= b <= |s| && Trim(s) == s[a..b] && AllSpace(s[..a]) && AllSpace(s[b..])
  {
    StripBoth(s, TrimLeft(s), TrimRight(TrimLeft(s)));
  }

  /** A string with no surrounding whitespace is its own `strip()`. */
  lemma {:induction false} TrimUnpadded(s: string)
    requires Unpadded(s)
    ensures Trim(s) == s
  {
    assert TrimLeft(s) == s;
    assert TrimRight(s) == s;
  }

  /** `strip()` is idempotent. */
  lemma TrimIdempotent(s: string)
    ensures Trim(Trim(s)) == Trim(s)
  {
    TrimUnpadded(Trim(s));
  }

  /** Python's `p in s` for strings: `p` occurs as a contiguous substring. */
  predicate Contains(s: string, p: string) {
    exists i :: 0 <= i <= |s| - |p| && OccursAt(s, p, i)
  }

  predicate OccursAt(s: string, p: string, i: int) {
    0 <= i <= |s| - |p| && s[i..i + |p|] == p
  }

  /** Substring containment survives adding text on either side. */
  lemma ContainsExtended(s: string, p: string, before: string, after: string)
    requires Contains(s, p)
    ensures Contains(before + s + after, p)
  {
    var i :| 0 <= i <= |s| - |p| && OccursAt(s, p, i);
    var t := before + s + after;
    var j := |before| + i;
    assert t[j..j + |p|] == s[i..i + |p|];
    assert OccursAt(t, p, j);
  }

  /** A one-character string occurs only where that character does. */
  lemma LacksChar(s: string, c: char)
    requires forall i :: 0 <= i < |s| ==> s[i] != c
    ensures !Contains(s, [c])
  {
    forall i | 0 <= i <= |s| - 1 ensures !OccursAt(s, [c], i) {
      assert s[i..i + 1][0] == s[i];
    }
  }

  predicate StartsWith(s: string, p: string) {
    |p| <= |s| && s[..|p|] == p
  }

  predicate EndsWith(s: string, p: string) {
    |p| <= |s| && s[|s| - |p|..] == p
  }

  function LowerChar(c: char): char {
    if 'A' <= c <= 'Z' then (c as int + 32) as char else c
  }

  /** `s.lower()` restricted to ASCII letters; every other character is kept. */
  function Lower(s: string): (r: string)
    ensures |r| == |s|
  {
    seq(|s|, i requires 0 <= i < |s| => LowerChar(s[i]))
  }

  predicate IsDigit(c: char) {
    '0' <= c <= '9'
  }

  function DigitValue(c: char): nat
    requires IsDigit(c)
  {
    c as int - '0' as int
  }

  function DigitChar(d: nat): (c: char)
    requires d < 10
    ensures IsDigit(c)
  {
    ('0' as int + d) as char
  }

  /** Decimal rendering of `n`, as an f-string writes `len(xs)`. */
  function NatToString(n: nat): (r: string)
    ensures |r| >= 1
    ensures forall i :: 0 <= i < |r| ==> IsDigit(r[i])
    ensures r[0] == '0' ==> n == 0
    decreases n
  {
    if n < 10 then [DigitChar(n)] else NatToString(n / 10) + [DigitChar(n % 10)]
  }

  /** Reads a string of decimal digits back as a number. */
  function ParseDigits(s: string): nat
    requires forall i :: 0 <= i < |s| ==> IsDigit(s[i])
    decreases |s|
  {
    if |s| == 0 then 0
    else ParseDigits(s[..|s| - 1]) * 10 + DigitValue(s[|s| - 1])
  }

  /** The decimal rendering loses nothing: reading it back gives `n`. */
  lemma {:induction false} NatToStringRoundTrip(n: nat)
    ensures ParseDigits(NatToString(n)) == n
    decreases n
  {
    var r := NatToString(n);
    if n >= 10 {
      var q := NatToString(n / 10);
      assert r[..|r| - 1] == q;
      NatToStringRoundTrip(n / 10);
    }
  }
}
