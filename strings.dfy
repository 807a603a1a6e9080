/**
 * The JavaScript string operations the core relies on: `String(n)` for
 * integers, `padStart`, `toLowerCase`, and the order that default `.sort()`
 * and `localeCompare` impose on strings (here: code-unit order).
 */
module Strings {
  import Sorting

  predicate IsDigit(c: char) {
    '0' <= c <= '9'
  }

  predicate AllDigits(s: string) {
    forall i :: 0 <= i < |s| ==> IsDigit(s[i])
  }

  function DigitChar(d: nat): (c: char)
    requires d < 10
    ensures IsDigit(c)
  {
    ('0' as int + d) as char
  }

  function DigitValue(c: char): nat
    requires IsDigit(c)
  {
    c as int - '0' as int
  }

  function Pow10(k: nat): (p: nat)
    ensures p >= 1
  {
    if k == 0 then 1 else 10 * Pow10(k - 1)
  }

  /** `String(n)` for a non-negative integer: decimal, without leading zeros. */
  function NatToString(n: nat): (s: string)
    ensures |s| >= 1 && AllDigits(s)
    ensures |s| == 1 || s[0] != '0'
  {
    if n < 10 then [DigitChar(n)] else NatToString(n / 10) + [DigitChar(n % 10)]
  }

  /** `String(i)` / `${i}` for any integer. */
  function IntToString(i: int): string {
    if i < 0 then "-" + NatToString(-i) else NatToString(i)
  }

  /** The number a string of decimal digits denotes. */
  function DecimalValue(s: string): nat
    requires AllDigits(s)
  {
    if s == [] then 0 else DecimalValue(s[..|s| - 1]) * 10 + DigitValue(s[|s| - 1])
  }

  /** Reading back the decimal rendering gives the number. */
  lemma {:induction false} NatToStringRoundTrip(n: nat)
    ensures DecimalValue(NatToString(n)) == n
  {
    if n >= 10 {
      NatToStringRoundTrip(n / 10);
      var s := NatToString(n);
      assert s[..|s| - 1] == NatToString(n / 10);
    }
  }

  /** Different numbers render differently. */
  lemma NatToStringInjective(m: nat, n: nat)
    requires NatToString(m) == NatToString(n)
    ensures m == n
  {
    NatToStringRoundTrip(m);
    NatToStringRoundTrip(n);
  }

  /** The rendering of `n` has at most `w` digits exactly when `n < 10^w`. */
  lemma {:induction false} NatToStringLength(n: nat, w: nat)
    requires w >= 1
    ensures |NatToString(n)| <= w <==> n < Pow10(w)
  {
    if n >= 10 && w > 1 {
      NatToStringLength(n / 10, w - 1);
    } else if n >= 10 {
      assert |NatToString(n / 10)| >= 1;
    } else {
      assert NatToString(n) == [DigitChar(n)];
      assert Pow10(w - 1) >= 1;
      assert Pow10(w) == 10 * Pow10(w - 1);
    }
  }

  function Repeat(c: char, k: nat): (r: string)
    ensures |r| == k && forall i :: 0 <= i < k ==> r[i] == c
  {
    if k == 0 then [] else [c] + Repeat(c, k - 1)
  }

  /** `s.padStart(width, fill)`: `fill` in front until `width` is reached; never truncates. */
  function PadStart(s: string, width: nat, fill: char): (r: string)
    ensures |r| == if |s| >= width then |s| else width
    ensures r[|r| - |s|..] == s
    ensures forall i :: 0 <= i < |r| - |s| ==> r[i] == fill
  {
    if |s| >= width then s else Repeat(fill, width - |s|) + s
  }

  lemma {:induction false} DecimalAppend(a: string, b: string)
    requires AllDigits(a) && AllDigits(b)
    ensures AllDigits(a + b)
    ensures DecimalValue(a + b) == DecimalValue(a) * Pow10(|b|) + DecimalValue(b)
  {
    if b != [] {
      var b', d := b[..|b| - 1], DigitValue(b[|b| - 1]);
      assert AllDigits(a + b) && AllDigits(a + b');
      var va, vb' := DecimalValue(a), DecimalValue(b');
      var p := Pow10(|b'|);
      calc {
        DecimalValue(a + b);
        { assert (a + b)[..|a + b| - 1] == a + b' && (a + b)[|a + b| - 1] == b[|b| - 1]; }
        DecimalValue(a + b') * 10 + d;
        { DecimalAppend(a, b'); }
        (va * p + vb') * 10 + d;
        { assert (va * p) * 10 == va * (p * 10); }
        va * (p * 10) + (vb' * 10 + d);
        va * Pow10(|b|) + DecimalValue(b);
      }
    } else {
      assert a + b == a;
    }
  }

  lemma {:induction false} DecimalZeros(k: nat)
    ensures AllDigits(Repeat('0', k)) && DecimalValue(Repeat('0', k)) == 0
  {
    if k > 0 {
      DecimalZeros(k - 1);
      DecimalAppend("0", Repeat('0', k - 1));
    }
  }

  /** Zero padding does not change the number a digit string denotes. */
  lemma ZeroPadValue(s: string, width: nat)
    requires AllDigits(s)
    ensures AllDigits(PadStart(s, width, '0'))
    ensures DecimalValue(PadStart(s, width, '0')) == DecimalValue(s)
  {
    if |s| < width {
      DecimalZeros(width - |s|);
      DecimalAppend(Repeat('0', width - |s|), s);
    }
  }

  function ToLowerChar(c: char): char {
    if 'A' <= c <= 'Z' then (c as int + 32) as char else c
  }

  /** `s.toLowerCase()` on the ASCII letters. */
  function ToLowerCase(s: string): (r: string)
    ensures |r| == |s|
    ensures forall i :: 0 <= i < |s| ==> r[i] == ToLowerChar(s[i])
  {
    if s == [] then [] else [ToLowerChar(s[0])] + ToLowerCase(s[1..])
  }

  /** A character outside the Basic Multilingual Plane, stored as a surrogate pair in UTF-16. */
  predicate Astral(c: char) {
    c as int > 0xFFFF
  }

  /**
   * JavaScript's `.length`: the number of UTF-16 code units, one per
   * character of the Basic Multilingual Plane and two per astral one. It
   * equals the number of characters exactly when none is astral.
   */
  function Utf16Length(s: string): (n: nat)
    ensures |s| <= n <= 2 * |s|
    ensures n == |s| <==> forall i :: 0 <= i < |s| ==> !Astral(s[i])
  {
    if s == [] then 0
    else
      var n := (if Astral(s[0]) then 2 else 1) + Utf16Length(s[1..]);
      assert forall i :: 0 < i < |s| ==> s[i] == s[1..][i - 1];
      n
  }

  /**
   * Three-way comparison in code-unit order (-1, 0 or 1), the order of a
   * default `.sort()`; `localeCompare` is modelled by the same order.
   */
  function CompareStrings(a: string, b: string): int {
    if a == [] then (if b == [] then 0 else -1)
    else if b == [] then 1
    else if a[0] < b[0] then -1
    else if a[0] > b[0] then 1
    else CompareStrings(a[1..], b[1..])
  }

  lemma {:induction false} CompareStringsFacts(a: string, b: string)
    ensures -1 <= CompareStrings(a, b) <= 1
    ensures CompareStrings(b, a) == -CompareStrings(a, b)
    ensures CompareStrings(a, b) == 0 <==> a == b
  {
    if a != [] && b != [] && a[0] == b[0] {
      CompareStringsFacts(a[1..], b[1..]);
      if a[1..] == b[1..] {
        assert a == [a[0]] + a[1..] && b == [b[0]] + b[1..];
      }
    }
  }

  lemma {:induction false} CompareStringsTransitive(a: string, b: string, c: string)
    requires CompareStrings(a, b) <= 0 && CompareStrings(b, c) <= 0
    ensures CompareStrings(a, c) <= 0
  {
    if a != [] && b != [] && c != [] && a[0] == b[0] == c[0] {
      CompareStringsTransitive(a[1..], b[1..], c[1..]);
    }
  }

  /** Code-unit order is a consistent comparator for `Array.prototype.sort`. */
  lemma StringsComparator()
    ensures Sorting.Comparator(CompareStrings)
  {
    forall a, b ensures CompareStrings(a, b) <= 0 || CompareStrings(b, a) <= 0 {
      CompareStringsFacts(a, b);
    }
    forall a, b, c | CompareStrings(a, b) <= 0 && CompareStrings(b, c) <= 0
      ensures CompareStrings(a, c) <= 0
    {
      CompareStringsTransitive(a, b, c);
    }
  }
}
