/**
 * Decimal rendering and parsing of integers: Python's `str(n)`, Kotlin's string
 * templates, and Kotlin's `toInt()` / `toLong()` with their range checks.
 */
module Decimal {
  import opened Wrappers
  import opened Text

  const INT_MIN: int := -0x8000_0000
  const INT_MAX: int := 0x7FFF_FFFF
  const LONG_MIN: int := -0x8000_0000_0000_0000
  const LONG_MAX: int := 0x7FFF_FFFF_FFFF_FFFF

  function DigitChar(d: nat): (c: char)
    requires d < 10
    ensures IsAsciiDigit(c)
  {
    ('0' as int + d) as char
  }

  function DigitValue(c: char): (d: nat)
    requires IsAsciiDigit(c)
    ensures d < 10
  {
    c as int - '0' as int
  }

  /** Decimal digits of a natural number, most significant first, without leading zeros. */
  function NatToString(n: nat): (s: string)
    ensures IsDigits(s)
    ensures |s| > 1 ==> s[0] != '0'
  {
    if n < 10 then [DigitChar(n)] else NatToString(n / 10) + [DigitChar(n % 10)]
  }

  /** Python's `str(i)` / Kotlin's `i.toString()`. */
  function IntToString(i: int): (s: string)
    ensures |s| > 0
  {
    if i < 0 then "-" + NatToString(-i) else NatToString(i)
  }

  /** The value of a string of decimal digits. */
  function DigitsValue(s: string): nat
    requires forall i :: 0 <= i < |s| ==> IsAsciiDigit(s[i])
  {
    if |s| == 0 then 0 else DigitsValue(s[..|s| - 1]) * 10 + DigitValue(s[|s| - 1])
  }

  lemma {:induction false} DigitsValueOfNatToString(n: nat)
    ensures DigitsValue(NatToString(n)) == n
  {
    if n >= 10 {
      var s := NatToString(n);
      assert s[..|s| - 1] == NatToString(n / 10);
      DigitsValueOfNatToString(n / 10);
    }
  }

  /**
   * The mathematical value of an optional sign followed by decimal digits, as
   * Kotlin's `toIntOrNull` reads it before its range check; None otherwise.
   */
  function ParseSigned(s: string): (r: Option<int>)
    ensures r.Some? ==> |s| > 0
  {
    if |s| > 0 && (s[0] == '-' || s[0] == '+') then
      if IsDigits(s[1..]) then
        Some(if s[0] == '-' then 0 - DigitsValue(s[1..]) as int else DigitsValue(s[1..]))
      else None
    else if IsDigits(s) then Some(DigitsValue(s))
    else None
  }

  /** Kotlin's `String.toInt()`: None stands for the NumberFormatException. */
  function ParseInt32(s: string): (r: Option<int>)
    ensures r.Some? ==> INT_MIN <= r.value <= INT_MAX && ParseSigned(s) == r
    ensures ParseSigned(s).Some? && INT_MIN <= ParseSigned(s).value <= INT_MAX ==> r.Some?
  {
    var v := ParseSigned(s);
    if v.Some? && INT_MIN <= v.value <= INT_MAX then v else None
  }

  /** Kotlin's `String.toLong()`: None stands for the NumberFormatException. */
  function ParseInt64(s: string): (r: Option<int>)
    ensures r.Some? ==> LONG_MIN <= r.value <= LONG_MAX && ParseSigned(s) == r
    ensures ParseSigned(s).Some? && LONG_MIN <= ParseSigned(s).value <= LONG_MAX ==> r.Some?
  {
    var v := ParseSigned(s);
    if v.Some? && LONG_MIN <= v.value <= LONG_MAX then v else None
  }

  /** Rendering an integer and reading it back gives the integer again. */
  lemma ParseIntToString(i: int)
    ensures ParseSigned(IntToString(i)) == Some(i)
  {
    if i < 0 {
      var s := IntToString(i);
      assert s[1..] == NatToString(-i);
      DigitsValueOfNatToString(-i);
    } else {
      DigitsValueOfNatToString(i);
    }
  }

  /** Every 32-bit integer survives a round trip through its decimal form. */
  lemma ParseInt32ToString(i: int)
    requires INT_MIN <= i <= INT_MAX
    ensures ParseInt32(IntToString(i)) == Some(i)
  {
    ParseIntToString(i);
  }

  const TWO_32: int := 0x1_0000_0000

  /** Kotlin `Int` arithmetic: the result reduced into the 32-bit range. */
  function Wrap32(x: int): (r: int)
    ensures INT_MIN <= r <= INT_MAX
    ensures INT_MIN <= x <= INT_MAX ==> r == x
  {
    (x - INT_MIN) % TWO_32 + INT_MIN
  }

  lemma ModShift(a: int, k: int)
    ensures (a + k * TWO_32) % TWO_32 == a % TWO_32
  {
  }

  /** Wrapping an intermediate sum does not change the wrapped total. */
  lemma Wrap32Add(x: int, y: int)
    ensures Wrap32(Wrap32(x) + y) == Wrap32(x + y)
  {
    var a := x - INT_MIN;
    var q := a / TWO_32;
    assert a == q * TWO_32 + a % TWO_32;
    assert Wrap32(x) + y - INT_MIN == (x + y - INT_MIN) + (-q) * TWO_32;
    ModShift(x + y - INT_MIN, -q);
  }

  /**
   * Kotlin's `/` on integers: the quotient rounded toward zero (Dafny's own
   * division rounds down for a positive divisor).
   */
  function TruncDiv(a: int, b: int): (q: int)
    requires b > 0
  {
    if a >= 0 then a / b else -((-a) / b)
  }
}
