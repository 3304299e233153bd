/**
 * String helpers shared by the components: JavaScript's String(n) for
 * integers (with the parser that inverts it), String.prototype.padStart,
 * a suffix test, and ASCII upper-casing.
 */
module Text {

  predicate IsDigit(c: char) {
    '0' <= c <= '9'
  }

  predicate AllDigits(s: string) {
    forall i :: 0 <= i < |s| ==> IsDigit(s[i])
  }

  function DigitChar(d: nat): (c: char)
    requires d < 10
    ensures IsDigit(c)
  {
    ('0' as int + d) as char
  }

  function DigitValue(c: char): (d: nat)
    requires IsDigit(c)
    ensures d < 10
  {
    c as int - '0' as int
  }

  /** String(n) for a non-negative integer: its decimal digits, with no leading zero. */
  function NatToString(n: nat): (s: string)
    ensures |s| >= 1 && AllDigits(s)
    ensures |s| > 1 ==> s[0] != '0'
    ensures n < 10 <==> |s| == 1
    decreases n
  {
    if n < 10 then [DigitChar(n)] else NatToString(n / 10) + [DigitChar(n % 10)]
  }

  /** The value of a string of decimal digits (leading zeros allowed). */
  function ParseNat(s: string): nat
    requires AllDigits(s)
  {
    if |s| == 0 then 0 else ParseNat(s[..|s| - 1]) * 10 + DigitValue(s[|s| - 1])
  }

  lemma {:induction false} ParseNatToString(n: nat)
    ensures ParseNat(NatToString(n)) == n
    decreases n
  {
    if n >= 10 {
      var s := NatToString(n);
      assert s[..|s| - 1] == NatToString(n / 10);
      ParseNatToString(n / 10);
    }
  }

  /** Leading zeros do not change the parsed value. */
  lemma {:induction false} ParseNatLeadingZeros(z: string, s: string)
    requires forall i :: 0 <= i < |z| ==> z[i] == '0'
    requires AllDigits(s)
    ensures AllDigits(z + s) && ParseNat(z + s) == ParseNat(s)
    decreases |s|
  {
    if |s| == 0 {
      assert z + s == z;
      ZerosParseToZero(z);
    } else {
      var t := z + s;
      assert t[..|t| - 1] == z + s[..|s| - 1];
      ParseNatLeadingZeros(z, s[..|s| - 1]);
    }
  }

  lemma {:induction false} ZerosParseToZero(z: string)
    requires forall i :: 0 <= i < |z| ==> z[i] == '0'
    ensures AllDigits(z) && ParseNat(z) == 0
  {
    if |z| > 0 {
      ZerosParseToZero(z[..|z| - 1]);
    }
  }

  /** String(i) for any integer: a minus sign before a negative number's digits. */
  function IntToString(i: int): (s: string)
    ensures |s| >= 1
    ensures i >= 0 <==> AllDigits(s)
    ensures i < 0 <==> s[0] == '-'
  {
    if i < 0 then
      var s := "-" + NatToString(-i);
      assert !IsDigit(s[0]);
      s
    else NatToString(i)
  }

  /** Reads back an optionally signed decimal string. */
  function ParseInt(s: string): int
    requires |s| >= 1
    requires AllDigits(s) || (s[0] == '-' && AllDigits(s[1..]))
  {
    if s[0] == '-' then 0 - ParseNat(s[1..]) as int else ParseNat(s)
  }

  lemma ParseIntToString(i: int)
    ensures ParseInt(IntToString(i)) == i
  {
    var s := IntToString(i);
    if i < 0 {
      var d := NatToString(-i);
      assert s == "-" + d;
      assert s[1..] == d;
      ParseNatToString(-i);
    } else {
      assert s == NatToString(i) && IsDigit(s[0]);
      ParseNatToString(i);
    }
  }

  function Repeat(c: char, n: nat): (s: string)
    ensures |s| == n && forall i :: 0 <= i < n ==> s[i] == c
  {
    if n == 0 then [] else Repeat(c, n - 1) + [c]
  }

  /** String.prototype.padStart(width, fill) with a one-character fill. */
  function PadStart(s: string, width: nat, fill: char): (r: string)
    ensures |s| >= width ==> r == s
    ensures |s| < width ==> |r| == width
    ensures |r| >= |s| && r[|r| - |s|..] == s
    ensures forall i :: 0 <= i < |r| - |s| ==> r[i] == fill
  {
    if |s| >= width then s else Repeat(fill, width - |s|) + s
  }

  predicate EndsWith(s: string, suffix: string) {
    |suffix| <= |s| && s[|s| - |suffix|..] == suffix
  }

  /** toUpperCase restricted to one ASCII character: a-z map to A-Z, every other character is kept. */
  function AsciiUpper(c: char): (u: char)
    ensures 'a' <= c <= 'z' ==> 'A' <= u <= 'Z' && u as int == c as int - 32
    ensures !('a' <= c <= 'z') ==> u == c
  {
    if 'a' <= c <= 'z' then (c as int - 32) as char else c
  }
}
