/**
 * Decimal digit strings: the rendering `std::to_string` gives a counter
 * and the reading of a digit string back into a number.
 */
module Decimal {
  predicate IsDigit(ch: char)
  {
    '0' <= ch <= '9'
  }

  function DigitChar(d: nat): char
    requires d < 10
  {
    ('0' as int + d) as char
  }

  function DigitValue(ch: char): nat
    requires IsDigit(ch)
  {
    ch as int - '0' as int
  }

  /** Decimal digits of `n` without leading zeros, as `to_string` gives. */
  function NatToString(n: nat): (s: string)
    ensures |s| >= 1 && forall q :: 0 <= q < |s| ==> IsDigit(s[q])
  {
    if n < 10 then [DigitChar(n)] else NatToString(n / 10) + [DigitChar(n % 10)]
  }

  function ParseDecimal(s: string): nat
    requires forall q :: 0 <= q < |s| ==> IsDigit(s[q])
  {
    if s == [] then 0 else ParseDecimal(s[..|s| - 1]) * 10 + DigitValue(s[|s| - 1])
  }

  /** Reading the rendered digits back gives the number. */
  lemma {:induction false} ParseNatToString(n: nat)
    ensures ParseDecimal(NatToString(n)) == n
  {
    var s := NatToString(n);
    if n >= 10 {
      ParseNatToString(n / 10);
      assert s[..|s| - 1] == NatToString(n / 10);
    }
  }
}
