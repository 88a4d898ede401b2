/**
 The margin estimate, `estimate_required_margin`, and the pre-flight gate of
 the command-line flow that compares it with the available USDT balance
 before an order is placed.
 */
module Margin {
  import opened Decimals
  import opened Steps
  import opened Results
  import opened Exchange
  import opened Quantity

  /** `Decimal("1.1")`: the 10% buffer over the initial margin. */
  const Buffer: real := 1.1

  /** `Decimal("0.00000001")`: the estimate is quantized to its exponent, eight places. */
  const MarginPlaces: Decimal := Decimal(1, -8)

  /**
   `x.quantize(d)` under the default context: round to a multiple of ten to
   the exponent of `d`, ties to the even multiple.
   */
  function QuantizeHalfEven(x: real, d: Decimal): (r: real)
    ensures Abs(r - x) <= Pow10(d.exponent) / 2.0
  {
    var u := Pow10(d.exponent);
    var n := RoundHalfEven(x / u);
    var r := n as real * u;
    assert Abs(r - x) <= u / 2.0 by {
      NearestScaled(x, u, n as real, r);
    }
    r
  }

  /**
   `estimate_required_margin`: the notional over the leverage, with the
   buffer, to eight decimal places. A zero leverage cannot be divided by.
   */
  function EstimateRequiredMargin(notional: real, leverage: int): (r: Result<real>)
    ensures r.Failure? <==> leverage == 0
    ensures r.Failure? ==> (r.error == DivisionUndefined <==> notional == 0.0)
    ensures r.Failure? ==> (r.error == DivisionByZero <==> notional != 0.0)
    ensures r.Success? ==> Abs(r.value - ExactMargin(notional, leverage)) <= 0.000000005
  {
    if leverage == 0 then
      Failure(if notional == 0.0 then DivisionUndefined else DivisionByZero)
    else
      Pow10MinusEight();
      Success(QuantizeHalfEven(notional / leverage as real * Buffer, MarginPlaces))
  }

  /** The margin before quantizing: the buffered initial margin, exactly. */
  function ExactMargin(notional: real, leverage: int): real
    requires leverage != 0
  {
    notional / leverage as real * Buffer
  }

  // Quantizing half-even.

  /**
   Quantizing lands on a multiple of the unit at most half a unit away; at
   exactly half a unit away it lands on an even multiple.
   */
  lemma QuantizeHalfEvenIsNearest(x: real, d: Decimal)
    ensures var u, r := Pow10(d.exponent), QuantizeHalfEven(x, d);
      && IsMultipleOf(r, u)
      && Abs(r - x) <= u / 2.0
      && (Abs(r - x) == u / 2.0 ==> (r / u).Floor % 2 == 0)
  {
    var u := Pow10(d.exponent);
    var n := RoundHalfEven(x / u);
    var r := QuantizeHalfEven(x, d);
    assert r == n as real * u by {
      QuantizeHalfEvenScales(x, d, u, n);
    }
    NearestMultiple(x, u, n, r);
  }

  /**
   A whole number of units `n * u`, with `n` a nearest integer to `x / u`
   and even on a tie, is a nearest multiple of the unit to `x`, even on a tie.
   */
  lemma NearestMultiple(x: real, u: real, n: int, r: real)
    requires 0.0 < u && r == n as real * u
    requires n as real - 0.5 <= x / u <= n as real + 0.5
    requires x / u == n as real - 0.5 || x / u == n as real + 0.5 ==> n % 2 == 0
    ensures IsMultipleOf(r, u)
    ensures Abs(r - x) <= u / 2.0
    ensures Abs(r - x) == u / 2.0 ==> (r / u).Floor % 2 == 0
  {
    IntMultiple(n, u, r);
    assert Abs(r - x) <= u / 2.0 by {
      NearestScaled(x, u, n as real, r);
    }
    if Abs(r - x) == u / 2.0 {
      assert n % 2 == 0 by {
        TieQuotient(x, u, n as real, r);
      }
      QuotientOfProduct(n as real, u, r);
      assert (r / u).Floor == n;
    }
  }

  /** Scaling `a - 1/2 <= x / u <= a + 1/2` back by the positive unit. */
  lemma NearestScaled(x: real, u: real, a: real, r: real)
    requires 0.0 < u && r == a * u
    requires a - 0.5 <= x / u <= a + 0.5
    ensures Abs(r - x) <= u / 2.0
  {
    var q, lo, hi := x / u, (a - 0.5) * u, (a + 0.5) * u;
    assert lo == r - u / 2.0 && hi == r + u / 2.0;
    DivMul(x, u);
    Scaled(a - 0.5, q, u, lo, x);
    Scaled(q, a + 0.5, u, x, hi);
  }

  /** Half a unit away from `a * u` means half away from `a` in units. */
  lemma TieQuotient(x: real, u: real, a: real, r: real)
    requires 0.0 < u && r == a * u && Abs(r - x) == u / 2.0
    ensures x / u == a - 0.5 || x / u == a + 0.5
  {
    if x < r {
      assert x == (a - 0.5) * u;
      QuotientOfProduct(a - 0.5, u, x);
    } else {
      assert x == (a + 0.5) * u;
      QuotientOfProduct(a + 0.5, u, x);
    }
  }

  /** Quantizing never reverses the order of two values. */
  lemma QuantizeHalfEvenMonotone(x: real, y: real, d: Decimal)
    requires x <= y
    ensures QuantizeHalfEven(x, d) <= QuantizeHalfEven(y, d)
  {
    var u := Pow10(d.exponent);
    var nx, ny := RoundHalfEven(x / u), RoundHalfEven(y / u);
    var rx, ry := QuantizeHalfEven(x, d), QuantizeHalfEven(y, d);
    assert rx == nx as real * u by {
      QuantizeHalfEvenScales(x, d, u, nx);
    }
    assert ry == ny as real * u by {
      QuantizeHalfEvenScales(y, d, u, ny);
    }
    HalfEvenOnUnitMonotone(x, y, u, nx, ny, rx, ry);
  }

  lemma QuantizeHalfEvenScales(x: real, d: Decimal, u: real, n: int)
    requires u == Pow10(d.exponent) && n == RoundHalfEven(x / u)
    ensures QuantizeHalfEven(x, d) == n as real * u
  {
  }

  /** Rounding half-even in units of a positive `u` never reverses the order of two values. */
  lemma HalfEvenOnUnitMonotone(x: real, y: real, u: real, nx: int, ny: int, rx: real, ry: real)
    requires x <= y && 0.0 < u
    requires nx == RoundHalfEven(x / u) && ny == RoundHalfEven(y / u)
    requires rx == nx as real * u && ry == ny as real * u
    ensures rx <= ry
  {
    assert nx <= ny by {
      QuotientMono(x, y, u);
      RoundHalfEvenMonotone(x / u, y / u);
    }
    Scaled(nx as real, ny as real, u, rx, ry);
  }

  lemma QuotientMono(x: real, y: real, u: real)
    requires x <= y && 0.0 < u
    ensures x / u <= y / u
  {
    DivMul(x, u);
    DivMul(y, u);
    Scaled(x / u, y / u, u, x, y);
  }

  // The margin estimate.

  /** The estimate fails exactly on a zero leverage, with the error Python raises. */
  lemma MarginFailsOnlyOnZeroLeverage(notional: real, leverage: int)
    ensures var r := EstimateRequiredMargin(notional, leverage);
      && (r.Failure? <==> leverage == 0)
      && (r.Failure? && notional == 0.0 ==> r.error == DivisionUndefined)
      && (r.Failure? && notional != 0.0 ==> r.error == DivisionByZero)
  {
  }

  /**
   With a non-zero leverage the estimate is a multiple of 10^-8 within
   5 * 10^-9 of the buffered notional over the leverage.
   */
  lemma MarginIsNearest(notional: real, leverage: int)
    requires leverage != 0
    ensures var r := EstimateRequiredMargin(notional, leverage);
      && r.Success?
      && IsMultipleOf(r.value, 0.00000001)
      && Abs(r.value - ExactMargin(notional, leverage)) <= 0.000000005
  {
    Pow10MinusEight();
    QuantizeHalfEvenIsNearest(ExactMargin(notional, leverage), MarginPlaces);
  }

  /** With a positive leverage a larger notional never needs a smaller margin. */
  lemma MarginIsMonotone(n1: real, n2: real, leverage: int)
    requires 0 < leverage && n1 <= n2
    ensures EstimateRequiredMargin(n1, leverage).Success?
    ensures EstimateRequiredMargin(n1, leverage).value <= EstimateRequiredMargin(n2, leverage).value
  {
    var l := leverage as real;
    QuotientMono(n1, n2, l);
    Scaled(n1 / l, n2 / l, Buffer, ExactMargin(n1, leverage), ExactMargin(n2, leverage));
    QuantizeHalfEvenMonotone(ExactMargin(n1, leverage), ExactMargin(n2, leverage), MarginPlaces);
  }

  /** With a positive leverage a non-negative notional needs a non-negative margin. */
  lemma MarginIsNonNegative(notional: real, leverage: int)
    requires 0 < leverage && 0.0 <= notional
    ensures EstimateRequiredMargin(notional, leverage).Success?
    ensures 0.0 <= EstimateRequiredMargin(notional, leverage).value
  {
    MarginIsMonotone(0.0, notional, leverage);
    assert RoundHalfEven(0.0) == 0;
  }

  // The pre-flight gate.

  /** What the flow hands to the order placement: the adjusted order and its margin. */
  datatype Submission = Submission(quantity: real, price: real, notional: real, requiredMargin: real)

  /**
   The command-line flow from validation to the balance gate, on the filters,
   the mark price and the balances already fetched: validate the quantity,
   estimate the margin of its notional and refuse when the available USDT
   does not cover it.
   */
  function Preflight(requested: real, f: SymbolFilters, price: real, leverage: int,
                     balances: seq<BalanceEntry>): (r: Result<Submission>)
    ensures leverage == 0 ==> r.Failure?
    ensures r.Success? ==> r.value.price == price
    ensures r.Success? ==> r.value.requiredMargin <= GetUsdtAvailable(balances).Value()
    ensures r.Failure? && r.error.InsufficientBalance? ==>
      r.error.available == GetUsdtAvailable(balances).Value() && r.error.available < r.error.required
  {
    var p :- PrepareQuantity(requested, f, price);
    var m :- EstimateRequiredMargin(p.notional, leverage);
    var available := GetUsdtAvailable(balances).Value();
    if available < m then Failure(InsufficientBalance(available, m))
    else Success(Submission(p.quantity, p.price, p.notional, m))
  }

  /**
   An order is submitted only when the available USDT covers the margin
   estimated for the validated quantity's notional.
   */
  lemma PreflightSubmitsOnlyWhenCovered(requested: real, f: SymbolFilters, price: real, leverage: int,
                                        balances: seq<BalanceEntry>)
    ensures var r := Preflight(requested, f, price, leverage, balances);
      r.Success? ==>
        && PrepareQuantity(requested, f, price).Success?
        && r.value.quantity == PrepareQuantity(requested, f, price).value.quantity
        && r.value.notional == PrepareQuantity(requested, f, price).value.notional
        && EstimateRequiredMargin(r.value.notional, leverage) == Success(r.value.requiredMargin)
        && GetUsdtAvailable(balances).Value() >= r.value.requiredMargin
  {
  }

  /**
   The gate refuses exactly when validation and estimation succeed and the
   available USDT is below the estimate.
   */
  lemma PreflightRefusesOnlyWhenShort(requested: real, f: SymbolFilters, price: real, leverage: int,
                                      balances: seq<BalanceEntry>)
    ensures var r := Preflight(requested, f, price, leverage, balances);
      var p := PrepareQuantity(requested, f, price);
      r.Failure? && r.error.InsufficientBalance? <==>
        && p.Success?
        && EstimateRequiredMargin(p.value.notional, leverage).Success?
        && GetUsdtAvailable(balances).Value() < EstimateRequiredMargin(p.value.notional, leverage).value
  {
  }

  /**
   Apart from a short balance, the flow fails exactly when validation fails
   (a zero price with a positive minimum notional) or the leverage is zero,
   and validation's failure comes first.
   */
  lemma PreflightFailures(requested: real, f: SymbolFilters, price: real, leverage: int,
                          balances: seq<BalanceEntry>)
    ensures var r := Preflight(requested, f, price, leverage, balances);
      && (r.Failure? && !r.error.InsufficientBalance? <==>
            (price == 0.0 && f.minNotional.Value() > 0.0) || leverage == 0)
      && (price == 0.0 && f.minNotional.Value() > 0.0 ==> r == Failure(DivisionByZero))
  {
    PrepareQuantityFailsOnlyOnZeroPrice(requested, f, price);
  }
}
