/**
 Exact decimal arithmetic as used by the bot.

 Python's `Decimal` values are modelled in two ways: as their exact value, a
 `real`, wherever only the value matters, and as a `Decimal` pair of an integer
 coefficient and a power-of-ten exponent wherever the representation is
 observable (`quantize` rounds to the exponent of its argument).

 The three integral roundings the bot asks for are defined here:
 `ROUND_DOWN` (towards zero), `ROUND_UP` (away from zero) and the context
 default `ROUND_HALF_EVEN`.
 */
module Decimals {

  /** 10 raised to an integer power, possibly negative, as an exact rational. */
  function Pow10(e: int): (r: real)
    ensures r > 0.0
    decreases if e >= 0 then e else -e
  {
    if e == 0 then 1.0
    else if e > 0 then 10.0 * Pow10(e - 1)
    else Pow10(e + 1) / 10.0
  }

  /** A decimal number in Python's representation: coefficient * 10^exponent. */
  datatype Decimal = Decimal(coefficient: int, exponent: int) {
    function Value(): real {
      coefficient as real * Pow10(exponent)
    }
  }

  /** `Decimal("0")`, the default of every missing exchange field. */
  const Zero: Decimal := Decimal(0, 0)

  function Abs(x: real): real {
    if x < 0.0 then -x else x
  }

  predicate IsIntegral(x: real) {
    x.Floor as real == x
  }

  /** `x` is an integer multiple of the non-zero `step`. */
  predicate IsMultipleOf(x: real, step: real) {
    step != 0.0 && IsIntegral(x / step)
  }

  /** `to_integral_value(rounding=ROUND_DOWN)`: truncation towards zero. */
  function RoundDown(x: real): (n: int)
    ensures 0.0 <= x ==> 0 <= n && n as real <= x < n as real + 1.0
    ensures x < 0.0 ==> n <= 0 && n as real - 1.0 < x <= n as real
  {
    var f := x.Floor;
    if x >= 0.0 || f as real == x then f else f + 1
  }

  /** `to_integral_value(rounding=ROUND_UP)`: rounding away from zero. */
  function RoundUp(x: real): (n: int)
    ensures 0.0 <= x ==> 0 <= n && n as real - 1.0 < x <= n as real
    ensures x < 0.0 ==> n < 0 && n as real <= x < n as real + 1.0
  {
    var f := x.Floor;
    if x < 0.0 || f as real == x then f else f + 1
  }

  /** Rounding to the nearest integer, ties to the even neighbour. */
  function RoundHalfEven(x: real): (n: int)
    ensures n as real - 0.5 <= x <= n as real + 0.5
    ensures x == n as real - 0.5 || x == n as real + 0.5 ==> n % 2 == 0
  {
    var f := x.Floor;
    var d := x - f as real;
    if d < 0.5 then f
    else if d > 0.5 then f + 1
    else if f % 2 == 0 then f
    else f + 1
  }

  /** An integer is integral. */
  lemma IntegralOfInt(n: int)
    ensures IsIntegral(n as real)
  {
  }

  /** The value of a decimal is a multiple of ten to its exponent. */
  lemma ValueIsMultipleOfUnit(d: Decimal)
    ensures IsMultipleOf(d.Value(), Pow10(d.exponent))
  {
    var u := Pow10(d.exponent);
    assert d.Value() / u == d.coefficient as real;
    IntegralOfInt(d.coefficient);
  }

  /** Round-half-even never reverses the order of two values. */
  lemma RoundHalfEvenMonotone(x: real, y: real)
    requires x <= y
    ensures RoundHalfEven(x) <= RoundHalfEven(y)
  {
    var m, n := RoundHalfEven(x), RoundHalfEven(y);
    if m > n {
      assert m == n + 1;
      assert x == y;
    }
  }

  /** Ten to the minus eighth, the unit of the margin estimate. */
  lemma Pow10MinusEight()
    ensures Pow10(-8) == 0.00000001
  {
  }
}
