/**
 * Decimal rendering and parsing of integers: the `%d` of Go's `fmt`, Rust's `{}`
 * and Python's `str` on integers, and the digit reading of Go `strconv.ParseInt(s, 10, 64)`
 * and Rust `str::parse::<i64>`.
 */
module Decimal {
  import opened Base

  const INT64_MIN: int := -0x8000_0000_0000_0000
  const INT64_MAX: int := 0x7FFF_FFFF_FFFF_FFFF

  type int64 = n: int | INT64_MIN <= n <= INT64_MAX

  predicate IsDigit(c: char) { '0' <= c <= '9' }

  predicate AllDigits(s: string) {
    forall i :: 0 <= i < |s| ==> IsDigit(s[i])
  }

  function DigitChar(d: nat): (c: char)
    requires d < 10
    ensures IsDigit(c)
  {
    ('0' as int + d) as char
  }

  function DigitValue(c: char): (d: nat)
    requires IsDigit(c)
    ensures d < 10
  {
    c as int - '0' as int
  }

  /** The value of a string of decimal digits, most significant first. */
  function DigitsValue(s: string): nat
    requires AllDigits(s)
  {
    if s == [] then 0 else 10 * DigitsValue(s[..|s| - 1]) + DigitValue(s[|s| - 1])
  }

  /** Shortest decimal rendering of a natural number. */
  function NatToString(n: nat): (s: string)
    ensures s != [] && AllDigits(s)
  {
    if n < 10 then [DigitChar(n)] else NatToString(n / 10) + [DigitChar(n % 10)]
  }

  /** Decimal rendering of an integer, with a leading `-` when negative. */
  function IntToString(n: int): string {
    if n < 0 then "-" + NatToString(-n) else NatToString(n)
  }

  /** Reading back a rendered natural number gives the number. */
  lemma {:induction false} DigitsOfNatToString(n: nat)
    ensures DigitsValue(NatToString(n)) == n
  {
    var s := NatToString(n);
    if n >= 10 {
      DigitsOfNatToString(n / 10);
      assert s[..|s| - 1] == NatToString(n / 10);
    }
  }

  lemma NatToStringInjective(a: nat, b: nat)
    requires NatToString(a) == NatToString(b)
    ensures a == b
  {
    DigitsOfNatToString(a);
    DigitsOfNatToString(b);
  }

  /** Distinct integers never share a rendering. */
  lemma IntToStringInjective(a: int, b: int)
    requires IntToString(a) == IntToString(b)
    ensures a == b
  {
    IntToStringSign(a);
    IntToStringSign(b);
    if a < 0 {
      assert NatToString(-a) == IntToString(a)[1..];
      NatToStringInjective(-a, -b);
    } else {
      NatToStringInjective(a, b);
    }
  }

  /** A rendering starts with `-` exactly when the integer is negative. */
  lemma IntToStringSign(n: int)
    ensures IntToString(n) != [] && (IntToString(n)[0] == '-' <==> n < 0)
  {
    if n >= 0 {
      assert IsDigit(NatToString(n)[0]);
    }
  }

  /**
   * Go `strconv.ParseInt(s, 10, 64)` and Rust `s.parse::<i64>()`: an optional `+` or
   * `-` followed by at least one decimal digit, and nothing else; a value outside
   * the signed 64-bit range is an error.
   */
  function ParseInt64(s: string): (r: Option<int64>)
    ensures r.Some? ==> s != [] && AllDigits(s[if s[0] == '+' || s[0] == '-' then 1 else 0..])
  {
    if s == [] then None
    else
      var neg := s[0] == '-';
      var digits := if s[0] == '+' || s[0] == '-' then s[1..] else s;
      if digits == [] || !AllDigits(digits) then None
      else
        var mag := DigitsValue(digits);
        var v: int := if neg then 0 - mag else mag;
        if INT64_MIN <= v <= INT64_MAX then Some(v) else None
  }

  /** Every 64-bit integer is read back from its own rendering. */
  lemma ParseInt64OfIntToString(n: int64)
    ensures ParseInt64(IntToString(n)) == Some(n)
  {
    var s := IntToString(n);
    var m: int := n;
    if m < 0 {
      assert s[1..] == NatToString(-m);
      DigitsOfNatToString(-m);
    } else {
      assert s[0] != '-' && s[0] != '+';
      DigitsOfNatToString(n);
    }
  }
}
