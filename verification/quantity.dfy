/**
 The quantity validator and adjuster, `validate_and_prepare_quantity`, as a
 pure function of the requested quantity, the symbol's filters and the mark
 price. The stages follow `bot.py`: round the request down to the step,
 raise it to the minimum quantity, compute the notional, raise it once to
 reach the minimum notional, and fail if the notional is still short.

 A zero step size disables rounding; a minimum quantity or minimum notional
 that is not positive disables its check.
 */
module Quantity {
  import opened Decimals
  import opened Steps
  import opened Results
  import opened Exchange

  /** What the validator hands back: `(qty_adj, price, notional, filters)`. */
  datatype Prepared = Prepared(quantity: real, price: real, notional: real, filters: SymbolFilters)

  /**
   The filter values the adjuster computes with: the step size, the unit of
   the step's last decimal place (ten to its exponent), the minimum quantity
   and the minimum notional.
   */
  datatype Limits = Limits(step: real, unit: real, minQty: real, minNotional: real)

  function LimitsOf(f: SymbolFilters): (l: Limits)
    ensures 0.0 < l.unit
  {
    Limits(f.stepSize.Value(), Pow10(f.stepSize.exponent), f.minQty.Value(), f.minNotional.Value())
  }

  /** Stage 1: the request rounded down to the step, unless the step is zero. */
  function Floored(requested: real, l: Limits): real {
    if l.step != 0.0 then FloorToStep(requested, l.step) else requested
  }

  /** Stage 2 fires: a positive minimum quantity exceeds the rounded request. */
  predicate MinQtyRaiseFires(requested: real, l: Limits) {
    l.minQty > 0.0 && Floored(requested, l) < l.minQty
  }

  /** The quantity after stage 2. */
  function AfterMinQty(requested: real, l: Limits): real {
    if MinQtyRaiseFires(requested, l) then l.minQty else Floored(requested, l)
  }

  /** The notional value of a quantity at a price. */
  function Notional(qty: real, price: real): real {
    qty * price
  }

  /** A positive minimum notional exceeds the notional of `qty`. */
  predicate ShortOfNotional(qty: real, l: Limits, price: real) {
    l.minNotional > 0.0 && Notional(qty, price) < l.minNotional
  }

  /** Stage 4 fires: the quantity after stage 2 is short of the minimum notional. */
  predicate MinNotionalRaiseFires(requested: real, l: Limits, price: real) {
    ShortOfNotional(AfterMinQty(requested, l), l, price)
  }

  /**
   Stage 4's new quantity: the minimum notional divided by the price, rounded
   away from zero to the unit of the step and then to the step itself.
   */
  function MinNotionalTarget(l: Limits, price: real): (r: real)
    requires price != 0.0
    ensures 0.0 <= l.minNotional / price ==> l.minNotional / price <= r
    ensures l.minNotional / price <= 0.0 ==> r <= l.minNotional / price
  {
    var target := if l.step != 0.0 then CeilToStep(l.minNotional / price, l.unit)
                  else l.minNotional / price;
    if l.step != 0.0 then CeilToStep(target, l.step) else target
  }

  /** Stage 5: fail when a positive minimum notional is still not met. */
  function FinalCheck(qty: real, l: Limits, price: real): Result<real> {
    if ShortOfNotional(qty, l, price) then
      Failure(NotionalTooLow(qty, Notional(qty, price), l.minNotional))
    else
      Success(qty)
  }

  /**
   Stages 3 to 5 on the quantity after stage 2: raise the quantity once if
   its notional is short of the minimum, then check. A zero price cannot be
   divided by, so it fails whenever the raise is needed.
   */
  function Settle(qty: real, l: Limits, price: real): (r: Result<real>)
    ensures price == 0.0 && l.minNotional > 0.0 ==> r == Failure(DivisionByZero)
  {
    if ShortOfNotional(qty, l, price) then
      if price == 0.0 then Failure(DivisionByZero)
      else FinalCheck(MinNotionalTarget(l, price), l, price)
    else
      FinalCheck(qty, l, price)
  }

  /** The adjuster over the filter values: the quantity it settles on. */
  function Adjust(requested: real, l: Limits, price: real): (r: Result<real>)
    ensures price == 0.0 && l.minNotional > 0.0 ==> r == Failure(DivisionByZero)
  {
    Settle(AfterMinQty(requested, l), l, price)
  }

  /**
   `validate_and_prepare_quantity` on filters and a mark price already
   fetched: the adjusted quantity, the price, the notional of the adjusted
   quantity and the filters.
   */
  function PrepareQuantity(requested: real, f: SymbolFilters, price: real): (r: Result<Prepared>)
    ensures price == 0.0 && f.minNotional.Value() > 0.0 ==> r == Failure(DivisionByZero)
    ensures r.Success? ==> r.value.price == price && r.value.filters == f
    ensures r.Success? <==> Adjust(requested, LimitsOf(f), price).Success?
    ensures r.Success? ==> r.value.quantity == Adjust(requested, LimitsOf(f), price).value
  {
    var qty :- Adjust(requested, LimitsOf(f), price);
    Success(Prepared(qty, price, Notional(qty, price), f))
  }

  // Stages 3 to 5.

  /**
   The stage-4 quantity always reaches the minimum notional: rounding away
   from zero moves the quantity beyond the exact quotient, whatever the signs.
   */
  lemma TargetReachesMinimum(l: Limits, price: real)
    requires price != 0.0 && l.minNotional > 0.0
    ensures MinNotionalTarget(l, price) * price >= l.minNotional
  {
    var x := l.minNotional / price;
    var q := MinNotionalTarget(l, price);
    assert (0.0 < price ==> x <= q) && (price < 0.0 ==> q <= x) by {
      if 0.0 < price {
        ProductVsQuotient(0.0, l.minNotional, price);
      }
    }
    ReachedByRounding(l.minNotional, price, q);
  }

  /** A quantity whose notional is not short passes stages 3 to 5 unchanged. */
  lemma SettleKeeps(qty: real, l: Limits, price: real)
    requires !ShortOfNotional(qty, l, price)
    ensures Settle(qty, l, price) == Success(qty)
  {
  }

  /** A short quantity is replaced by the stage-4 quantity, which passes the final check. */
  lemma SettleRaises(qty: real, l: Limits, price: real)
    requires price != 0.0 && ShortOfNotional(qty, l, price)
    ensures Settle(qty, l, price) == Success(MinNotionalTarget(l, price))
  {
    TargetReachesMinimum(l, price);
  }

  /**
   The only failure of stages 3 to 5 is the division by a zero price: with
   exact arithmetic the final check never fires.
   */
  lemma SettleFailsOnlyOnZeroPrice(qty: real, l: Limits, price: real)
    ensures Settle(qty, l, price).Failure? <==> price == 0.0 && l.minNotional > 0.0
    ensures Settle(qty, l, price).Failure? ==> Settle(qty, l, price).error == DivisionByZero
  {
    if ShortOfNotional(qty, l, price) {
      if price != 0.0 {
        SettleRaises(qty, l, price);
      }
    } else {
      SettleKeeps(qty, l, price);
    }
  }

  /**
   A settled quantity is not short of the minimum notional, and with a
   positive price it is never below the quantity it started from.
   */
  lemma SettleMeetsMinimum(qty: real, l: Limits, price: real)
    ensures Settle(qty, l, price).Success? ==> !ShortOfNotional(Settle(qty, l, price).value, l, price)
    ensures Settle(qty, l, price).Success? && price > 0.0 ==> qty <= Settle(qty, l, price).value
  {
    if ShortOfNotional(qty, l, price) {
      if price != 0.0 {
        SettleRaises(qty, l, price);
        TargetReachesMinimum(l, price);
        if price > 0.0 {
          ProductOrder(qty, MinNotionalTarget(l, price), price, l.minNotional);
        }
      }
    } else {
      SettleKeeps(qty, l, price);
    }
  }

  // The adjuster.

  /** The adjuster depends on the request only through the quantity after stage 2. */
  lemma AdjustDependsOnAfterMinQty(r1: real, r2: real, l: Limits, price: real)
    requires AfterMinQty(r1, l) == AfterMinQty(r2, l)
    ensures Adjust(r1, l, price) == Adjust(r2, l, price)
  {
  }

  /** A positive minimum quantity is met after stage 2. */
  lemma AfterMinQtyMeetsMinimum(requested: real, l: Limits)
    requires 0.0 < l.minQty
    ensures l.minQty <= AfterMinQty(requested, l)
  {
  }

  /**
   With exact arithmetic the only failure of the adjuster is the division by
   a zero price, when a minimum notional must be reached: the final check of
   `bot.py` never fires. Under Python's 28-digit context it can.
   */
  lemma AdjustFailsOnlyOnZeroPrice(requested: real, l: Limits, price: real)
    ensures Adjust(requested, l, price).Failure? <==> price == 0.0 && l.minNotional > 0.0
    ensures Adjust(requested, l, price).Failure? ==> Adjust(requested, l, price).error == DivisionByZero
  {
    SettleFailsOnlyOnZeroPrice(AfterMinQty(requested, l), l, price);
  }

  /**
   On success the quantity is not short of the minimum notional, and with a
   positive price it meets a positive minimum quantity.
   */
  lemma AdjustMeetsMinimums(requested: real, l: Limits, price: real)
    ensures var r := Adjust(requested, l, price);
      r.Success? ==>
        && !ShortOfNotional(r.value, l, price)
        && (l.minQty > 0.0 && price > 0.0 ==> r.value >= l.minQty)
  {
    SettleMeetsMinimum(AfterMinQty(requested, l), l, price);
    if 0.0 < l.minQty {
      AfterMinQtyMeetsMinimum(requested, l);
    }
  }

  /**
   The validator fails exactly on a zero price with a positive minimum
   notional, and then with a division by zero.
   */
  lemma PrepareQuantityFailsOnlyOnZeroPrice(requested: real, f: SymbolFilters, price: real)
    ensures var r := PrepareQuantity(requested, f, price);
      && (r.Failure? <==> price == 0.0 && f.minNotional.Value() > 0.0)
      && (r.Failure? ==> r.error == DivisionByZero)
  {
    AdjustFailsOnlyOnZeroPrice(requested, LimitsOf(f), price);
  }

  /**
   On success the validator reports the notional of the quantity it returns,
   that notional meets a positive minimum notional and, with a positive
   price, the quantity meets a positive minimum quantity.
   */
  lemma PrepareQuantityMeetsMinimums(requested: real, f: SymbolFilters, price: real)
    ensures var r := PrepareQuantity(requested, f, price);
      r.Success? ==>
        && r.value.notional == Notional(r.value.quantity, price)
        && (f.minNotional.Value() > 0.0 ==> r.value.notional >= f.minNotional.Value())
        && (f.minQty.Value() > 0.0 && price > 0.0 ==> r.value.quantity >= f.minQty.Value())
  {
    var l := LimitsOf(f);
    var a := Adjust(requested, l, price);
    var r := PrepareQuantity(requested, f, price);
    if a.Success? {
      var q := a.value;
      assert r.Success? && r.value.quantity == q && r.value.notional == Notional(q, price);
      AdjustMeetsMinimums(requested, l, price);
      assert !ShortOfNotional(q, l, price);
    }
  }

  /**
   When neither raise fires, the result is the request rounded down to the
   step: the request is never rounded up, and with a positive step it is
   short of the result by less than one step.
   */
  lemma NoRaiseKeepsFloor(requested: real, l: Limits, price: real)
    requires !MinQtyRaiseFires(requested, l) && !MinNotionalRaiseFires(requested, l, price)
    ensures Adjust(requested, l, price) == Success(Floored(requested, l))
    ensures 0.0 <= requested ==> Floored(requested, l) <= requested
    ensures 0.0 <= requested && 0.0 < l.step ==>
              IsMultipleOf(Floored(requested, l), l.step) && requested < Floored(requested, l) + l.step
  {
    SettleKeeps(AfterMinQty(requested, l), l, price);
    if 0.0 <= requested && 0.0 < l.step {
      FloorToStepBounds(requested, l.step);
    }
  }

  /** When only the minimum-quantity raise fires, the result is the minimum quantity itself. */
  lemma MinQtyRaiseGivesMinQty(requested: real, l: Limits, price: real)
    requires MinQtyRaiseFires(requested, l) && !MinNotionalRaiseFires(requested, l, price)
    ensures Adjust(requested, l, price) == Success(l.minQty)
  {
    SettleKeeps(AfterMinQty(requested, l), l, price);
  }

  /** When the minimum-notional raise fires with a non-zero price, the result is the stage-4 quantity. */
  lemma MinNotionalRaiseGivesTarget(requested: real, l: Limits, price: real)
    requires price != 0.0 && MinNotionalRaiseFires(requested, l, price)
    ensures Adjust(requested, l, price) == Success(MinNotionalTarget(l, price))
    ensures price > 0.0 ==> MinNotionalTarget(l, price) > AfterMinQty(requested, l)
  {
    var a, q := AfterMinQty(requested, l), MinNotionalTarget(l, price);
    SettleRaises(a, l, price);
    if price > 0.0 {
      assert q * price >= l.minNotional by {
        TargetReachesMinimum(l, price);
      }
      ProductOrder(a, q, price, l.minNotional);
    }
  }

  // Step alignment of the stage-4 quantity.

  /** The step is a positive whole number of units of its last decimal place. */
  ghost predicate StepInUnits(l: Limits) {
    0.0 < l.step && 0.0 < l.unit && IsMultipleOf(l.step, l.unit)
  }

  /** A positive step size is a whole number of units of its own exponent. */
  lemma LimitsOfStepInUnits(f: SymbolFilters)
    requires 0.0 < f.stepSize.Value()
    ensures StepInUnits(LimitsOf(f))
  {
    ValueIsMultipleOfUnit(f.stepSize);
  }

  /** A step in units is a positive whole number of units. */
  lemma StepMultiple(l: Limits) returns (m: int)
    requires StepInUnits(l)
    ensures 0 < m && l.step == m as real * l.unit
  {
    m := (l.step / l.unit).Floor;
    assert l.step / l.unit == m as real;
    DivMul(l.step, l.unit);
    Scaled(0.0, m as real, l.unit, 0.0, l.step);
  }

  lemma TargetWithStep(l: Limits, price: real)
    requires l.step != 0.0 && price != 0.0
    ensures MinNotionalTarget(l, price) == CeilToStep(CeilToStep(l.minNotional / price, l.unit), l.step)
  {
  }

  /** With the step a whole number of units, the stage-4 quantity is the ceiling to the step. */
  lemma TargetIsCeiling(l: Limits, price: real)
    requires StepInUnits(l) && 0.0 < price && 0.0 < l.minNotional
    ensures MinNotionalTarget(l, price) == CeilToStep(l.minNotional / price, l.step)
  {
    var x := l.minNotional / price;
    var m := StepMultiple(l);
    TargetWithStep(l, price);
    CeilOfCeil(x, l.unit, m, l.step);
  }

  /**
   With a positive step and price, the stage-4 quantity is the least multiple
   of the step whose notional reaches the minimum: a multiple, reaching the
   minimum, and one step less falls short.
   */
  lemma TargetIsLeast(l: Limits, price: real)
    requires StepInUnits(l) && 0.0 < price && 0.0 < l.minNotional
    ensures IsMultipleOf(MinNotionalTarget(l, price), l.step)
    ensures ReachesWithinStep(MinNotionalTarget(l, price), l.step, l.minNotional, price)
  {
    TargetIsCeiling(l, price);
    CeilingOfQuotient(l.minNotional, price, l.step, MinNotionalTarget(l, price));
  }

  /** No smaller multiple of the step reaches the minimum notional. */
  lemma TargetIsMinimal(l: Limits, price: real, k: int)
    requires StepInUnits(l) && 0.0 < price && 0.0 < l.minNotional
    requires l.minNotional <= k as real * l.step * price
    ensures MinNotionalTarget(l, price) <= k as real * l.step
  {
    TargetIsCeiling(l, price);
    CeilingOfQuotientIsLeast(l.minNotional, price, l.step, MinNotionalTarget(l, price), k);
  }

  /**
   When the minimum-notional raise fires with a positive step and price, the
   result is the stage-4 quantity: the least multiple of the step whose
   notional reaches the minimum, larger than the quantity it replaced.
   */
  lemma MinNotionalRaiseIsLeast(requested: real, l: Limits, price: real, k: int)
    requires StepInUnits(l) && 0.0 < price
    requires MinNotionalRaiseFires(requested, l, price)
    ensures var q := MinNotionalTarget(l, price);
      && Adjust(requested, l, price) == Success(q)
      && IsMultipleOf(q, l.step)
      && ReachesWithinStep(q, l.step, l.minNotional, price)
      && (l.minNotional <= k as real * l.step * price ==> q <= k as real * l.step)
      && q > AfterMinQty(requested, l)
  {
    MinNotionalRaiseGivesTarget(requested, l, price);
    TargetIsLeast(l, price);
    if l.minNotional <= k as real * l.step * price {
      TargetIsMinimal(l, price, k);
    }
  }

  /** A multiple of the step is rounded down to itself. */
  lemma FloorToStepOfMultiple(q: real, s: real)
    requires IsMultipleOf(q, s)
    ensures FloorToStep(q, s) == q
  {
    var n := (q / s).Floor;
    assert n as real == q / s;
    assert RoundDown(q / s) == n;
    DivMul(q, s);
  }

  /** The stage-4 quantity is a multiple of a non-zero step. */
  lemma TargetIsMultiple(l: Limits, price: real)
    requires l.step != 0.0 && price != 0.0
    ensures IsMultipleOf(MinNotionalTarget(l, price), l.step)
  {
    CeilToStepIsNearMultiple(CeilToStep(l.minNotional / price, l.unit), l.step);
  }

  /**
   With a positive step and price, and a minimum quantity that is itself a
   multiple of the step (or no minimum), the result is a multiple of the step.
   */
  lemma AlignedWhenMinQtyAligned(requested: real, l: Limits, price: real)
    requires StepInUnits(l) && 0.0 < price
    requires l.minQty <= 0.0 || IsMultipleOf(l.minQty, l.step)
    ensures Adjust(requested, l, price).Success?
    ensures IsMultipleOf(Adjust(requested, l, price).value, l.step)
  {
    if MinNotionalRaiseFires(requested, l, price) {
      MinNotionalRaiseGivesTarget(requested, l, price);
      TargetIsMultiple(l, price);
    } else {
      SettleKeeps(AfterMinQty(requested, l), l, price);
      if !MinQtyRaiseFires(requested, l) {
        FloorToStepIsNearMultiple(requested, l.step);
      }
    }
  }

  /**
   With a positive step and price, the result leaves the step grid only in
   one way: the minimum-quantity raise fired, the minimum-notional raise did
   not, and the result is the minimum quantity itself.
   */
  lemma OffStepOnlyFromMinQty(requested: real, l: Limits, price: real)
    requires StepInUnits(l) && 0.0 < price
    ensures Adjust(requested, l, price).Success?
    ensures MinQtyRaiseFires(requested, l) && !MinNotionalRaiseFires(requested, l, price) ==>
      Adjust(requested, l, price).value == l.minQty
    ensures !IsMultipleOf(Adjust(requested, l, price).value, l.step) ==>
      MinQtyRaiseFires(requested, l) && !MinNotionalRaiseFires(requested, l, price)
  {
    if MinNotionalRaiseFires(requested, l, price) {
      MinNotionalRaiseGivesTarget(requested, l, price);
      TargetIsMultiple(l, price);
    } else {
      SettleKeeps(AfterMinQty(requested, l), l, price);
      if !MinQtyRaiseFires(requested, l) {
        FloorToStepIsNearMultiple(requested, l.step);
      }
    }
  }

  /**
   The step alignment is only as good as the minimum quantity: a minimum
   quantity of 0.0015 with a step of 0.001 is returned as it is.
   */
  lemma MisalignedMinQtyPassesThrough()
    ensures var f := SymbolFilters(Decimal(1, -3), Decimal(15, -4), Zero);
      && PrepareQuantity(0.0, f, 1.0) == Success(Prepared(0.0015, 1.0, 0.0015, f))
      && !IsMultipleOf(0.0015, 0.001)
  {
    var f := SymbolFilters(Decimal(1, -3), Decimal(15, -4), Zero);
    assert f.stepSize.Value() == 0.001;
    assert f.minQty.Value() == 0.0015;
    assert 1.5.Floor == 1;
  }

  /**
   Re-validating an adjusted quantity with the same filters and a positive
   price changes nothing: every stage leaves it where it is.
   */
  lemma AdjustIsIdempotent(requested: real, l: Limits, price: real)
    requires 0.0 < price
    ensures Adjust(requested, l, price).Success?
    ensures Adjust(Adjust(requested, l, price).value, l, price) == Adjust(requested, l, price)
  {
    AdjustFailsOnlyOnZeroPrice(requested, l, price);
    var q := Adjust(requested, l, price).value;
    if MinNotionalRaiseFires(requested, l, price) {
      MinNotionalRaiseGivesTarget(requested, l, price);
      assert AfterMinQty(q, l) == q by {
        if l.step != 0.0 {
          TargetIsMultiple(l, price);
          FloorToStepOfMultiple(q, l.step);
        }
        if 0.0 < l.minQty {
          AfterMinQtyMeetsMinimum(requested, l);
        }
      }
      AdjustMeetsMinimums(requested, l, price);
      SettleKeeps(q, l, price);
    } else {
      assert AfterMinQty(q, l) == AfterMinQty(requested, l) by {
        SettleKeeps(AfterMinQty(requested, l), l, price);
        if !MinQtyRaiseFires(requested, l) && l.step != 0.0 {
          FloorToStepIsNearMultiple(requested, l.step);
          FloorToStepOfMultiple(q, l.step);
        }
      }
      AdjustDependsOnAfterMinQty(q, requested, l, price);
    }
  }
}
