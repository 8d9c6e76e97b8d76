/**
 * String operations the source takes from the Java library: decimal rendering
 * of an int (string concatenation and `%d`), `startsWith`, `endsWith`,
 * `toLowerCase` and the two forms of `replace`.
 */
module Text {

  /** The decimal digit for d. */
  function DigitChar(d: nat): (c: char)
    requires d < 10
    ensures '0' <= c <= '9' && c as int - '0' as int == d
  {
    "0123456789"[d]
  }

  /** Decimal rendering of a natural number, most significant digit first, no leading zeros. */
  function NatToString(n: nat): (digits: string)
    decreases n
  {
    if n < 10 then [DigitChar(n)] else NatToString(n / 10) + [DigitChar(n % 10)]
  }

  /** Decimal rendering of an int as Java's `Integer.toString` gives it. */
  function IntToString(i: int): (numeral: string) {
    if i < 0 then "-" + NatToString(-i) else NatToString(i)
  }

  predicate IsDigits(s: string) {
    forall k :: 0 <= k < |s| ==> '0' <= s[k] <= '9'
  }

  /** Reads back a string of decimal digits; the partner of NatToString. */
  function ParseNat(s: string): (n: nat)
    requires IsDigits(s)
  {
    if s == [] then 0 else ParseNat(s[..|s| - 1]) * 10 + (s[|s| - 1] as int - '0' as int)
  }

  /** An optional minus sign followed by decimal digits, at least one character. */
  predicate IsNumeral(s: string) {
    |s| > 0 && (s[0] == '-' ==> IsDigits(s[1..])) && (s[0] != '-' ==> IsDigits(s))
  }

  /** Reads back an optionally negative decimal numeral. */
  function ParseInt(s: string): (i: int)
    requires IsNumeral(s)
  {
    if s[0] == '-' then 0 - ParseNat(s[1..]) else ParseNat(s)
  }

  /** Rendering then parsing a natural number gives it back. */
  lemma {:induction false} NatRoundTrip(n: nat)
    ensures |NatToString(n)| > 0 && IsDigits(NatToString(n))
    ensures ParseNat(NatToString(n)) == n
    decreases n
  {
    if n >= 10 {
      NatRoundTrip(n / 10);
      var s := NatToString(n);
      assert s[..|s| - 1] == NatToString(n / 10);
    }
  }

  /** Rendering then parsing an int gives it back, so the rendering loses nothing. */
  lemma IntRoundTrip(i: int)
    ensures IsNumeral(IntToString(i)) && ParseInt(IntToString(i)) == i
  {
    if i < 0 {
      NatRoundTrip(-i);
      var s := "-" + NatToString(-i);
      assert s[0] == '-' && s[1..] == NatToString(-i);
      assert IntToString(i) == s;
    } else {
      NatRoundTrip(i);
      var s := NatToString(i);
      assert '0' <= s[0] <= '9';
      assert IntToString(i) == s;
    }
  }

  /**
   * A number rendered between a fixed prefix and suffix can be read back from
   * the text between them.
   */
  lemma FramedNumber(prefix: string, i: int, suffix: string)
    ensures var s := prefix + IntToString(i) + suffix;
      StartsWith(s, prefix) && EndsWith(s, suffix) && |prefix| + |suffix| < |s|
      && IsNumeral(s[|prefix|..|s| - |suffix|]) && ParseInt(s[|prefix|..|s| - |suffix|]) == i
  {
    IntRoundTrip(i);
    var s := prefix + IntToString(i) + suffix;
    assert s[|prefix|..|s| - |suffix|] == IntToString(i);
    assert s[..|prefix|] == prefix;
    assert s[|s| - |suffix|..] == suffix;
  }

  predicate StartsWith(s: string, prefix: string) {
    |prefix| <= |s| && s[..|prefix|] == prefix
  }

  predicate EndsWith(s: string, suffix: string) {
    |suffix| <= |s| && s[|s| - |suffix|..] == suffix
  }

  /** p occurs somewhere in s. */
  predicate HasSubstring(s: string, p: string) {
    exists k :: 0 <= k <= |s| && OccursAt(s, p, k)
  }

  /** p occurs in s starting at index k. */
  predicate OccursAt(s: string, p: string, k: int) {
    0 <= k && k + |p| <= |s| && s[k..k + |p|] == p
  }

  function LowerChar(c: char): (lower: char) {
    if 'A' <= c <= 'Z' then (c as int + 32) as char else c
  }

  /** `toLowerCase`, for the ASCII letters. */
  function Lower(s: string): (r: string)
    ensures |r| == |s| && forall k :: 0 <= k < |s| ==> r[k] == LowerChar(s[k])
  {
    seq(|s|, k requires 0 <= k < |s| => LowerChar(s[k]))
  }

  /** `replace` of one character by another, at every position. */
  function ReplaceChar(s: string, from: char, to: char): (r: string)
    ensures |r| == |s| && forall k :: 0 <= k < |s| ==> r[k] == if s[k] == from then to else s[k]
  {
    seq(|s|, k requires 0 <= k < |s| => if s[k] == from then to else s[k])
  }

  /** `replace(target, replacement)`: every occurrence of pat, scanning left to right, without overlaps. */
  function ReplaceAll(s: string, pat: string, rep: string): (replaced: string)
    requires |pat| > 0
    decreases |s|
  {
    if StartsWith(s, pat) then rep + ReplaceAll(s[|pat|..], pat, rep)
    else if s == [] then []
    else [s[0]] + ReplaceAll(s[1..], pat, rep)
  }

  /** Replacing in a concatenation replaces in each part. */
  lemma ReplaceCharAppend(a: string, b: string, from: char, to: char)
    ensures ReplaceChar(a + b, from, to) == ReplaceChar(a, from, to) + ReplaceChar(b, from, to)
  {
  }

  /**
   * Deleting every ".class" from t + ".class" leaves t exactly when t has no
   * ".class" of its own: no occurrence can straddle the boundary, because '.'
   * is the first character of ".class" and occurs nowhere else in it.
   */
  lemma {:induction false} DropClassSuffix(t: string)
    requires !HasSubstring(t, ".class")
    ensures ReplaceAll(t + ".class", ".class", "") == t
    decreases |t|
  {
    var p := ".class";
    var s := t + p;
    if t == [] {
      assert s == p;
      assert StartsWith(s, p);
      assert s[|p|..] == [];
    } else {
      SuffixNotAtFront(t);
      TailHasNoClass(t);
      DropClassSuffix(t[1..]);
      assert s[1..] == t[1..] + p;
      assert [t[0]] + t[1..] == t;
    }
  }

  /** Deleting occurrences of a pattern brings in no character that s lacked. */
  lemma {:induction false} DeleteAddsNothing(s: string, pat: string, c: char)
    requires |pat| > 0 && c !in s
    ensures c !in ReplaceAll(s, pat, "")
    decreases |s|
  {
    if StartsWith(s, pat) {
      assert forall k :: 0 <= k < |s[|pat|..]| ==> s[|pat|..][k] == s[k + |pat|];
      DeleteAddsNothing(s[|pat|..], pat, c);
      assert ReplaceAll(s, pat, "") == ReplaceAll(s[|pat|..], pat, "");
    } else if s != [] {
      assert forall k :: 0 <= k < |s[1..]| ==> s[1..][k] == s[k + 1];
      DeleteAddsNothing(s[1..], pat, c);
    }
  }

  /** A non-empty t without ".class" does not make t + ".class" start with ".class". */
  lemma SuffixNotAtFront(t: string)
    requires t != [] && !HasSubstring(t, ".class")
    ensures !StartsWith(t + ".class", ".class")
  {
    var p := ".class";
    var s := t + p;
    if |t| >= |p| {
      assert s[..|p|] == t[0..|p|];
      assert !OccursAt(t, p, 0);
    } else {
      assert s[|t|] == '.';
      assert p[|t|] != '.';
    }
  }

  /** Dropping the first character cannot create a ".class". */
  lemma TailHasNoClass(t: string)
    requires t != [] && !HasSubstring(t, ".class")
    ensures !HasSubstring(t[1..], ".class")
  {
    var p := ".class";
    if HasSubstring(t[1..], p) {
      var k :| 0 <= k <= |t[1..]| && OccursAt(t[1..], p, k);
      assert k + |p| <= |t[1..]| && t[1..][k..k + |p|] == p;
      assert t[k + 1..k + 1 + |p|] == t[1..][k..k + |p|];
      assert OccursAt(t, p, k + 1);
    }
  }
}
