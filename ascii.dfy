/**
 * The string primitives the application calls: `toLowerCase`, `includes`,
 * `startsWith` and the decimal rendering of a number inside a template
 * string. A Dafny `char` is a Unicode scalar value, where JavaScript counts
 * UTF-16 code units, and only the ASCII letters are case-mapped.
 */
module Ascii {

  predicate IsUpper(c: char) { 'A' <= c <= 'Z' }

  predicate IsLower(c: char) { 'a' <= c <= 'z' }

  predicate IsDigit(c: char) { '0' <= c <= '9' }

  /** The character class `[a-z0-9]`. */
  predicate IsLowerAlnum(c: char) { IsLower(c) || IsDigit(c) }

  /** `toLowerCase` on one character, restricted to ASCII. */
  function Lower(c: char): (r: char)
    ensures !IsUpper(r)
    ensures IsUpper(c) ==> IsLower(r) && r as int == c as int + 32
    ensures !IsUpper(c) ==> r == c
  {
    if IsUpper(c) then (c as int + 32) as char else c
  }

  /** `toLowerCase` on a string, restricted to ASCII. */
  function LowerStr(s: string): (r: string)
    ensures |r| == |s|
    ensures forall i :: 0 <= i < |s| ==> r[i] == Lower(s[i])
  {
    if s == [] then [] else [Lower(s[0])] + LowerStr(s[1..])
  }

  /** Lower-casing a string that is already lower case changes nothing. */
  lemma {:induction false} LowerStrIdempotent(s: string)
    ensures LowerStr(LowerStr(s)) == LowerStr(s)
  {
    var l := LowerStr(s);
    var ll := LowerStr(l);
    assert |ll| == |l|;
    forall i | 0 <= i < |l| ensures ll[i] == l[i] {
      assert ll[i] == Lower(l[i]);
    }
  }

  /** Lower-casing works character by character, so it distributes over concatenation. */
  lemma LowerStrAppend(x: string, y: string)
    ensures LowerStr(x + y) == LowerStr(x) + LowerStr(y)
  {
    var l, r := LowerStr(x + y), LowerStr(x) + LowerStr(y);
    forall i | 0 <= i < |l| ensures l[i] == r[i] {
      if i < |x| {
        assert (x + y)[i] == x[i];
      } else {
        assert (x + y)[i] == y[i - |x|];
      }
    }
  }

  /** No ASCII capital occurs in `s`. */
  predicate NoUpper(s: string) {
    forall c :: c in s ==> !IsUpper(c)
  }

  /** Lower-casing a string without capitals changes nothing. */
  lemma NoUpperLowerStr(s: string)
    requires NoUpper(s)
    ensures LowerStr(s) == s
  {
    forall i | 0 <= i < |s| ensures LowerStr(s)[i] == s[i] {
      assert s[i] in s;
    }
  }

  /** `s.startsWith(k)`. */
  predicate StartsWith(s: string, k: string) {
    |k| <= |s| && s[..|k|] == k
  }

  /** `s.includes(k)`: `k` starts at some position of `s`. */
  predicate Contains(s: string, k: string)
    decreases |s|
  {
    StartsWith(s, k) || (s != [] && Contains(s[1..], k))
  }

  /** The definition of a substring by position, independent of `Contains`. */
  ghost predicate OccursAt(s: string, k: string, i: int) {
    0 <= i && i + |k| <= |s| && s[i..i + |k|] == k
  }

  /** An occurrence at position `i` is found by `Contains`. */
  lemma {:induction false} OccursAtContains(s: string, k: string, i: int)
    requires OccursAt(s, k, i)
    ensures Contains(s, k)
    decreases i
  {
    if i > 0 {
      assert s[1..][i - 1..i - 1 + |k|] == s[i..i + |k|];
      OccursAtContains(s[1..], k, i - 1);
    } else {
      assert s[..|k|] == s[0..|k|];
    }
  }

  /** `Contains` holds exactly when `k` occurs at some position of `s`. */
  lemma {:induction false} ContainsIffOccurs(s: string, k: string)
    ensures Contains(s, k) <==> exists i :: OccursAt(s, k, i)
    decreases |s|
  {
    if StartsWith(s, k) {
      assert OccursAt(s, k, 0);
    } else if s != [] {
      ContainsIffOccurs(s[1..], k);
      if Contains(s[1..], k) {
        var i :| OccursAt(s[1..], k, i);
        assert s[i + 1..i + 1 + |k|] == s[1..][i..i + |k|];
        assert OccursAt(s, k, i + 1);
      }
    }
    if exists i :: OccursAt(s, k, i) {
      var i :| OccursAt(s, k, i);
      OccursAtContains(s, k, i);
    }
  }

  /** Every character of a contained string is a character of the container. */
  lemma {:induction false} ContainsChar(s: string, k: string, c: char)
    requires Contains(s, k) && c in k
    ensures c in s
    decreases |s|
  {
    if StartsWith(s, k) {
      var j :| 0 <= j < |k| && k[j] == c;
      assert s[j] == s[..|k|][j];
    } else {
      ContainsChar(s[1..], k, c);
      assert s[1..] <= s[1..];
      var j :| 0 <= j < |s[1..]| && s[1..][j] == c;
      assert s[j + 1] == c;
    }
  }

  /** A string lacking one character of `k` does not contain `k`. */
  lemma MissingChar(s: string, k: string, x: char)
    requires x in k && x !in s
    ensures !Contains(s, k)
  {
    if Contains(s, k) {
      ContainsChar(s, k, x);
    }
  }

  /** The decimal digit for `d`. */
  function Digit(d: nat): (c: char)
    requires d < 10
    ensures IsDigit(c) && c as int - '0' as int == d
  {
    ('0' as int + d) as char
  }

  /** The decimal rendering of a natural number, as in a template string. */
  function NatToString(n: nat): (r: string)
    ensures |r| >= 1
    ensures forall i :: 0 <= i < |r| ==> IsDigit(r[i])
    ensures |r| > 1 ==> r[0] != '0'
    decreases n
  {
    if n < 10 then [Digit(n)] else NatToString(n / 10) + [Digit(n % 10)]
  }

  /** The value of a string of decimal digits. */
  function DigitsValue(s: string): int
    requires forall i :: 0 <= i < |s| ==> IsDigit(s[i])
  {
    if s == [] then 0 else DigitsValue(s[..|s| - 1]) * 10 + (s[|s| - 1] as int - '0' as int)
  }

  /** Reading back the rendering of `n` gives `n`. */
  lemma {:induction false} NatToStringRoundTrip(n: nat)
    ensures DigitsValue(NatToString(n)) == n
    decreases n
  {
    if n >= 10 {
      NatToStringRoundTrip(n / 10);
      var r := NatToString(n);
      assert r[..|r| - 1] == NatToString(n / 10);
    }
  }
}
