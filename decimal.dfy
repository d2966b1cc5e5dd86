/**
 * Exact decimal values. The source converts integer base units to a decimal
 * quantity with arbitrary-precision division by 10^decimals; here the quantity
 * is a mathematical `real`, so the division is exact.
 */
module Decimal {

  /** 10^d as an exact integer. */
  function Pow10(d: nat): (p: nat)
    ensures p >= 1
    ensures d > 0 ==> p >= 10
  {
    if d == 0 then 1 else 10 * Pow10(d - 1)
  }

  /**
   * The decimal quantity of `amount` base units of an asset with `decimals`
   * decimals: the amount divided by ten, `decimals` times.
   */
  function ToDecimal(amount: int, decimals: nat): (v: real)
    ensures (amount >= 0) == (v >= 0.0)
    ensures (amount == 0) == (v == 0.0)
  {
    if decimals == 0 then amount as real else ToDecimal(amount, decimals - 1) / 10.0
  }

  /** Scaling the decimal back by 10^decimals gives the base units again. */
  lemma {:induction false} ToDecimalRoundTrip(amount: int, decimals: nat)
    ensures ToDecimal(amount, decimals) * Pow10(decimals) as real == amount as real
  {
    if decimals > 0 {
      ToDecimalRoundTrip(amount, decimals - 1);
      var x, p := ToDecimal(amount, decimals - 1), Pow10(decimals - 1) as real;
      calc {
        ToDecimal(amount, decimals) * Pow10(decimals) as real;
        (x / 10.0) * (10.0 * p);
        x * p;
      }
    }
  }

  /** The conversion is exactly division by 10^decimals. */
  lemma ToDecimalIsQuotient(amount: int, decimals: nat)
    ensures ToDecimal(amount, decimals) == amount as real / Pow10(decimals) as real
  {
    ToDecimalRoundTrip(amount, decimals);
  }

  /** Conversion keeps the order of amounts, so distinct amounts stay distinct. */
  lemma {:induction false} ToDecimalMonotone(a: int, b: int, decimals: nat)
    ensures a <= b <==> ToDecimal(a, decimals) <= ToDecimal(b, decimals)
    ensures a == b <==> ToDecimal(a, decimals) == ToDecimal(b, decimals)
  {
    if decimals > 0 {
      ToDecimalMonotone(a, b, decimals - 1);
    }
  }

  /** Conversion is additive: converting a sum of base units is summing the conversions. */
  lemma {:induction false} ToDecimalAdditive(a: int, b: int, decimals: nat)
    ensures ToDecimal(a + b, decimals) == ToDecimal(a, decimals) + ToDecimal(b, decimals)
  {
    if decimals > 0 {
      ToDecimalAdditive(a, b, decimals - 1);
    }
  }
}
