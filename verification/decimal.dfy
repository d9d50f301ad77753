/**
 The two number/string conversions the game relies on: JavaScript's `parseInt`
 without a radix, on labels that do not begin with whitespace or a sign, and
 `Number.prototype.toString` on a non-negative integer.
 */
module Decimal {
  import Wrappers

  predicate IsDigit(c: char) {
    '0' <= c <= '9'
  }

  function DigitValue(c: char): (d: nat)
    requires IsDigit(c)
    ensures d < 10
  {
    (c as int) - ('0' as int)
  }

  function DigitChar(d: nat): (c: char)
    requires d < 10
    ensures IsDigit(c) && DigitValue(c) == d
  {
    (('0' as int) + d) as char
  }

  lemma DigitCharOfValue(c: char)
    requires IsDigit(c)
    ensures DigitChar(DigitValue(c)) == c
  {
  }

  predicate AllDigits(s: string) {
    forall i :: 0 <= i < |s| ==> IsDigit(s[i])
  }

  predicate StartsWithDigit(s: string) {
    |s| > 0 && IsDigit(s[0])
  }

  /** No leading zero, unless the numeral is "0" itself. */
  predicate Canonical(s: string) {
    |s| > 0 && AllDigits(s) && (|s| > 1 ==> s[0] != '0')
  }

  /** The value of a string of decimal digits, most significant digit first. */
  function ValueOf(s: string): nat
    requires AllDigits(s)
  {
    if |s| == 0 then 0 else 10 * ValueOf(s[..|s| - 1]) + DigitValue(s[|s| - 1])
  }

  /** Length of the longest run of digits at the front of `s`. */
  function LeadingDigitCount(s: string): (k: nat)
    ensures k <= |s|
    ensures AllDigits(s[..k])
    ensures k < |s| ==> !IsDigit(s[k])
  {
    if |s| == 0 || !IsDigit(s[0]) then 0
    else
      var k' := LeadingDigitCount(s[1..]);
      assert s[..1 + k'] == [s[0]] + s[1..][..k'];
      1 + k'
  }

  /**
   `parseInt(s)` for a string whose first character is a digit: the value of the
   leading run of digits; whatever follows it ("s" in "1990s") is ignored.
   */
  function ParseLeadingInt(s: string): (n: nat)
    requires StartsWithDigit(s)
    ensures n == ValueOf(s[..LeadingDigitCount(s)])
    ensures AllDigits(s) ==> n == ValueOf(s)
  {
    LeadingDigitsOfNumeral(s);
    assert AllDigits(s) ==> s[..LeadingDigitCount(s)] == s;
    ValueOf(s[..LeadingDigitCount(s)])
  }

  lemma LeadingDigitsOfNumeral(s: string)
    ensures AllDigits(s) ==> LeadingDigitCount(s) == |s|
  {
  }

  /** A hexadecimal digit: 0-9, a-f or A-F. */
  predicate IsHexDigit(c: char) {
    IsDigit(c) || 'a' <= c <= 'f' || 'A' <= c <= 'F'
  }

  function HexDigitValue(c: char): (d: nat)
    requires IsHexDigit(c)
    ensures d < 16
    ensures IsDigit(c) ==> d == DigitValue(c)
  {
    if IsDigit(c) then DigitValue(c)
    else if 'a' <= c <= 'f' then (c as int) - ('a' as int) + 10
    else (c as int) - ('A' as int) + 10
  }

  predicate AllHexDigits(s: string) {
    forall i :: 0 <= i < |s| ==> IsHexDigit(s[i])
  }

  /** The value of a string of hexadecimal digits, most significant digit first. */
  function HexValueOf(s: string): nat
    requires AllHexDigits(s)
  {
    if |s| == 0 then 0 else 16 * HexValueOf(s[..|s| - 1]) + HexDigitValue(s[|s| - 1])
  }

  /** Length of the longest run of hexadecimal digits at the front of `s`. */
  function LeadingHexDigitCount(s: string): (k: nat)
    ensures k <= |s|
    ensures AllHexDigits(s[..k])
    ensures k < |s| ==> !IsHexDigit(s[k])
  {
    if |s| == 0 || !IsHexDigit(s[0]) then 0
    else
      var k' := LeadingHexDigitCount(s[1..]);
      assert s[..1 + k'] == [s[0]] + s[1..][..k'];
      1 + k'
  }

  /** The "0x" or "0X" with which `parseInt` switches to base 16. */
  predicate HexPrefixed(s: string) {
    |s| >= 2 && s[0] == '0' && (s[1] == 'x' || s[1] == 'X')
  }

  /**
   `parseInt(s)` with no radix, for a string that does not begin with whitespace
   or a sign. After a "0x" or "0X" prefix the longest run of hexadecimal digits is
   read in base 16; otherwise the longest run of decimal digits is read in base 10.
   With no digit to read the result is `NaN`, modelled as `None`.
   */
  function ParseInt(s: string): (n: Wrappers.Option<nat>)
    ensures n.Some? <==> if HexPrefixed(s) then |s| > 2 && IsHexDigit(s[2]) else StartsWithDigit(s)
  {
    if HexPrefixed(s) then
      var k := LeadingHexDigitCount(s[2..]);
      if k == 0 then Wrappers.None else Wrappers.Some(HexValueOf(s[2..][..k]))
    else if StartsWithDigit(s) then Wrappers.Some(ParseLeadingInt(s))
    else Wrappers.None
  }

  /** A run of digits followed by a non-digit is counted up to the non-digit. */
  lemma {:induction false} LeadingDigitsOfConcat(p: string, q: string)
    requires AllDigits(p) && (|q| > 0 ==> !IsDigit(q[0]))
    ensures LeadingDigitCount(p + q) == |p|
    ensures (p + q)[..|p|] == p
  {
    if |p| == 0 {
      assert p + q == q;
    } else {
      assert (p + q)[1..] == p[1..] + q;
      LeadingDigitsOfConcat(p[1..], q);
    }
  }

  /** A run of hexadecimal digits followed by a non-digit is counted up to the non-digit. */
  lemma {:induction false} LeadingHexDigitsOfConcat(h: string, q: string)
    requires AllHexDigits(h) && (|q| > 0 ==> !IsHexDigit(q[0]))
    ensures LeadingHexDigitCount(h + q) == |h|
    ensures (h + q)[..|h|] == h
  {
    if |h| == 0 {
      assert h + q == q;
    } else {
      assert (h + q)[1..] == h[1..] + q;
      LeadingHexDigitsOfConcat(h[1..], q);
    }
  }

  /**
   `parseInt` reads a decimal numeral and stops at the first character that is not
   a digit, as in "1990s"; a "0x" after a lone zero would switch to base 16 instead.
   */
  lemma ParseIntReadsDecimal(p: string, q: string)
    requires |p| > 0 && AllDigits(p) && (|q| > 0 ==> !IsDigit(q[0]))
    requires !HexPrefixed(p + q)
    ensures ParseInt(p + q) == Wrappers.Some(ValueOf(p))
  {
    LeadingDigitsOfConcat(p, q);
  }

  /** After "0x" or "0X", `parseInt` reads the hexadecimal run in base 16 and stops after it. */
  lemma ParseIntReadsHex(x: char, h: string, q: string)
    requires x == 'x' || x == 'X'
    requires |h| > 0 && AllHexDigits(h) && (|q| > 0 ==> !IsHexDigit(q[0]))
    ensures ParseInt(['0', x] + h + q) == Wrappers.Some(HexValueOf(h))
  {
    var s := ['0', x] + h + q;
    assert s == ['0', x] + (h + q);
    DropPrefix(['0', x], h + q);
    LeadingHexDigitsOfConcat(h, q);
    ParseIntOfHexRun(s, h);
  }

  /** Dropping a prefix's worth of characters leaves the rest. */
  lemma DropPrefix(p: string, t: string)
    ensures (p + t)[|p|..] == t
  {
  }

  /** A "0x" label whose hexadecimal run is h reads as h in base 16. */
  lemma ParseIntOfHexRun(s: string, h: string)
    requires HexPrefixed(s) && |h| > 0
    requires LeadingHexDigitCount(s[2..]) == |h| && s[2..][..|h|] == h
    ensures ParseInt(s) == Wrappers.Some(HexValueOf(h))
  {
  }

  /** `parseInt` of a canonical numeral is its value. */
  lemma ParseIntOfCanonical(s: string)
    requires Canonical(s)
    ensures ParseInt(s) == Wrappers.Some(ValueOf(s))
  {
    ParseIntReadsDecimal(s, []);
    assert s + [] == s;
  }

  /** Printing a number and reading it back with `parseInt` gives the number. */
  lemma ParseIntOfNatToString(n: nat)
    ensures ParseInt(NatToString(n)) == Wrappers.Some(n)
  {
    ParseIntOfCanonical(NatToString(n));
    ValueOfNatToString(n);
  }

  /** After "0x" or "0X" the digits count in base 16. */
  lemma ParseIntHexExamples()
    ensures ParseInt("0x10") == Wrappers.Some(16)
    ensures ParseInt("0X1F") == Wrappers.Some(31)
  {
    assert "0x10" == ['0', 'x'] + "10" + [];
    ParseIntReadsHex('x', "10", []);
    assert "10"[..1] == "1" && "1"[..0] == [];
    assert "0X1F" == ['0', 'X'] + "1F" + [];
    ParseIntReadsHex('X', "1F", []);
    assert "1F"[..1] == "1";
  }

  /** Labels with no digit where `parseInt` looks for one are `NaN`. */
  lemma ParseIntNaNExamples()
    ensures ParseInt("0xzz").None? && ParseInt("0x").None?
    ensures ParseInt("abc").None? && ParseInt("NaN").None?
  {
  }

  /** Leading zeros without an "x" stay decimal. */
  lemma ParseIntLeadingZeros()
    ensures ParseInt("007") == Wrappers.Some(7)
  {
    assert "007" == "007" + [];
    ParseIntReadsDecimal("007", []);
    assert "007"[..2] == "00" && "00"[..1] == "0" && "0"[..0] == [];
  }

  function Pow(b: nat, k: nat): (p: nat)
    requires b >= 1
    ensures p >= 1
  {
    if k == 0 then 1 else b * Pow(b, k - 1)
  }

  /** A decimal numeral of k digits is worth less than 10^k. */
  lemma {:induction false} ValueOfBelowPow(s: string)
    requires AllDigits(s)
    ensures ValueOf(s) < Pow(10, |s|)
  {
    if |s| > 0 {
      ValueOfBelowPow(s[..|s| - 1]);
    }
  }

  /** A hexadecimal numeral of k digits is worth less than 16^k. */
  lemma {:induction false} HexValueOfBelowPow(s: string)
    requires AllHexDigits(s)
    ensures HexValueOf(s) < Pow(16, |s|)
  {
    if |s| > 0 {
      HexValueOfBelowPow(s[..|s| - 1]);
    }
  }

  /** `parseInt` of at most four characters is below 10000, so the game's sums print without an exponent. */
  lemma ParseIntOfShort(s: string)
    requires |s| <= 4 && ParseInt(s).Some?
    ensures ParseInt(s).value < 10000
  {
    if HexPrefixed(s) {
      var k := LeadingHexDigitCount(s[2..]);
      HexValueOfBelowPow(s[2..][..k]);
      assert k <= 2;
      assert Pow(16, k) <= 256 by {
        if k == 2 { assert Pow(16, 2) == 256; }
      }
    } else {
      var k := LeadingDigitCount(s);
      ValueOfBelowPow(s[..k]);
      assert Pow(10, k) <= 10000 by {
        assert Pow(10, 4) == 10000;
        if k == 3 { assert Pow(10, 3) == 1000; }
        if k == 2 { assert Pow(10, 2) == 100; }
      }
    }
  }

  /** `n.toString()` for a non-negative integer: the canonical decimal numeral. */
  function NatToString(n: nat): (s: string)
    ensures Canonical(s)
    ensures |s| == 1 <==> n < 10
  {
    if n < 10 then [DigitChar(n)] else NatToString(n / 10) + [DigitChar(n % 10)]
  }

  /** Printing then parsing gives the number back. */
  lemma {:induction false} ValueOfNatToString(n: nat)
    ensures ValueOf(NatToString(n)) == n
  {
    var s := NatToString(n);
    if n >= 10 {
      ValueOfNatToString(n / 10);
      assert s[..|s| - 1] == NatToString(n / 10);
    }
  }

  /** A numeral is worth at least its first digit. */
  lemma {:induction false} ValueOfAtLeastFirstDigit(s: string)
    requires |s| > 0 && AllDigits(s)
    ensures ValueOf(s) >= DigitValue(s[0])
  {
    if |s| > 1 {
      ValueOfAtLeastFirstDigit(s[..|s| - 1]);
    }
  }

  /** Parsing then printing a canonical numeral gives the numeral back. */
  lemma {:induction false} NatToStringOfValue(s: string)
    requires Canonical(s)
    ensures NatToString(ValueOf(s)) == s
  {
    var p := s[..|s| - 1];
    var c := s[|s| - 1];
    if |s| == 1 {
      DigitCharOfValue(c);
    } else {
      assert Canonical(p) by {
        assert p[0] == s[0];
        assert forall i :: 0 <= i < |p| ==> p[i] == s[i];
      }
      ValueOfAtLeastFirstDigit(p);
      NatToStringOfValue(p);
      DigitCharOfValue(c);
      var n := ValueOf(s);
      assert n == 10 * ValueOf(p) + DigitValue(c);
      assert n / 10 == ValueOf(p) && n % 10 == DigitValue(c);
      assert s == p + [c];
    }
  }

  /** Appending a digit to a positive number's numeral multiplies by ten and adds the digit. */
  lemma AppendDigit(q: nat, d: nat)
    requires q >= 1 && d < 10
    ensures NatToString(10 * q + d) == NatToString(q) + [DigitChar(d)]
  {
    var n := 10 * q + d;
    assert n / 10 == q && n % 10 == d;
  }

  /** The value of a numeral with one more digit at the end. */
  lemma ValueOfSnoc(p: string, c: char)
    requires AllDigits(p) && IsDigit(c)
    ensures AllDigits(p + [c])
    ensures ValueOf(p + [c]) == 10 * ValueOf(p) + DigitValue(c)
  {
    var s := p + [c];
    assert s[..|s| - 1] == p;
  }

  /** The value of a four-digit numeral. */
  lemma ValueOfFourDigits(a: char, b: char, c: char, d: char)
    requires IsDigit(a) && IsDigit(b) && IsDigit(c) && IsDigit(d)
    ensures AllDigits([a, b, c, d])
    ensures ValueOf([a, b, c, d]) ==
      1000 * DigitValue(a) + 100 * DigitValue(b) + 10 * DigitValue(c) + DigitValue(d)
  {
    assert [a][..0] == [];
    ValueOfSnoc([a], b);
    assert [a] + [b] == [a, b];
    ValueOfSnoc([a, b], c);
    assert [a, b] + [c] == [a, b, c];
    ValueOfSnoc([a, b, c], d);
    assert [a, b, c] + [d] == [a, b, c, d];
  }

  /** A four-character numeral and its value. */
  lemma FourDigitNumeral(s: string, v: nat)
    requires |s| == 4 && IsDigit(s[0]) && IsDigit(s[1]) && IsDigit(s[2]) && IsDigit(s[3])
    requires v == 1000 * DigitValue(s[0]) + 100 * DigitValue(s[1]) + 10 * DigitValue(s[2]) + DigitValue(s[3])
    ensures AllDigits(s) && ValueOf(s) == v
  {
    assert s == [s[0], s[1], s[2], s[3]];
    ValueOfFourDigits(s[0], s[1], s[2], s[3]);
  }
}
