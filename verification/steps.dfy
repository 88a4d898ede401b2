/**
 The step-rounding helpers `floor_to_step` and `ceil_to_step`, and the
 `quantize(..., ROUND_UP)` the adjuster applies before them.

 Both helpers divide by the step, round the quotient to an integer and multiply
 back. `floor_to_step` truncates the quotient towards zero and `ceil_to_step`
 rounds it away from zero, so they are a true floor and ceiling only for a
 non-negative quantity and a positive step; the general facts are stated by
 magnitude. The trailing `normalize()` only changes the representation.
 */
module Steps {
  import opened Decimals

  /**
   `floor_to_step`: a zero step leaves the quantity alone; otherwise the
   quantity moves towards zero, never past it.
   */
  function FloorToStep(qty: real, step: real): (r: real)
    ensures step == 0.0 ==> r == qty
    ensures step != 0.0 && 0.0 <= qty ==> 0.0 <= r <= qty
    ensures step != 0.0 && qty <= 0.0 ==> qty <= r <= 0.0
  {
    if step == 0.0 then qty
    else
      var r := RoundDown(qty / step) as real * step;
      assert (0.0 <= qty ==> 0.0 <= r <= qty) && (qty <= 0.0 ==> qty <= r <= 0.0) by {
        ScaledTowardZero(qty, step, RoundDown(qty / step) as real, r);
      }
      r
  }

  /**
   `ceil_to_step`: a zero step leaves the quantity alone; otherwise the
   quantity moves away from zero.
   */
  function CeilToStep(qty: real, step: real): (r: real)
    ensures step == 0.0 ==> r == qty
    ensures step != 0.0 && 0.0 <= qty ==> qty <= r
    ensures step != 0.0 && qty <= 0.0 ==> r <= qty
  {
    if step == 0.0 then qty
    else
      var r := RoundUp(qty / step) as real * step;
      assert (0.0 <= qty ==> qty <= r) && (qty <= 0.0 ==> r <= qty) by {
        ScaledAwayFromZero(qty, step, RoundUp(qty / step) as real, r);
      }
      r
  }

  /**
   `x.quantize(d, rounding=ROUND_UP)`: round away from zero to a multiple of
   ten to the exponent of `d`.
   */
  function QuantizeUp(x: real, d: Decimal): (r: real)
    ensures 0.0 <= x ==> x <= r
    ensures x <= 0.0 ==> r <= x
  {
    CeilToStep(x, Pow10(d.exponent))
  }

  /** `floor_to_step` lands on a multiple of the step, less than a step nearer zero. */
  lemma FloorToStepIsNearMultiple(qty: real, step: real)
    requires step != 0.0
    ensures IsMultipleOf(FloorToStep(qty, step), step)
    ensures Abs(FloorToStep(qty, step)) <= Abs(qty)
    ensures Abs(qty - FloorToStep(qty, step)) < Abs(step)
  {
    var n := RoundDown(qty / step);
    var r := FloorToStep(qty, step);
    assert r == n as real * step;
    IntMultiple(n, step, r);
    ScaledTowardZero(qty, step, n as real, r);
  }

  /** `ceil_to_step` lands on a multiple of the step, less than a step further from zero. */
  lemma CeilToStepIsNearMultiple(qty: real, step: real)
    requires step != 0.0
    ensures IsMultipleOf(CeilToStep(qty, step), step)
    ensures Abs(qty) <= Abs(CeilToStep(qty, step))
    ensures Abs(CeilToStep(qty, step) - qty) < Abs(step)
  {
    var n := RoundUp(qty / step);
    var r := CeilToStep(qty, step);
    assert r == n as real * step;
    IntMultiple(n, step, r);
    ScaledAwayFromZero(qty, step, n as real, r);
  }

  /** Quantizing up lands on a multiple of the unit, less than one unit away. */
  lemma QuantizeUpBounds(x: real, d: Decimal)
    ensures IsMultipleOf(QuantizeUp(x, d), Pow10(d.exponent))
    ensures 0.0 <= x ==> x <= QuantizeUp(x, d) < x + Pow10(d.exponent)
    ensures x <= 0.0 ==> x - Pow10(d.exponent) < QuantizeUp(x, d) <= x
  {
    CeilToStepIsNearMultiple(x, Pow10(d.exponent));
  }

  /** Any whole number of steps is a multiple of the step. */
  lemma IntMultiple(n: int, step: real, r: real)
    requires step != 0.0 && r == n as real * step
    ensures IsMultipleOf(r, step)
  {
    QuotientOfProduct(n as real, step, r);
    IntegralOfInt(n);
  }

  /** Dividing a product by one of its non-zero factors gives back the other. */
  lemma QuotientOfProduct(a: real, step: real, r: real)
    requires step != 0.0 && r == a * step
    ensures r / step == a
  {
  }

  /**
   A quotient truncated towards zero, scaled back by the step, moves the
   quantity towards zero by less than one step.
   */
  lemma ScaledTowardZero(qty: real, step: real, a: real, r: real)
    requires step != 0.0 && r == a * step
    requires 0.0 <= qty / step ==> 0.0 <= a <= qty / step < a + 1.0
    requires qty / step < 0.0 ==> a - 1.0 < qty / step <= a <= 0.0
    ensures Abs(r) <= Abs(qty) && Abs(qty - r) < Abs(step)
    ensures (0.0 <= qty ==> 0.0 <= r) && (qty <= 0.0 ==> r <= 0.0)
  {
    var q := qty / step;
    DivMul(qty, step);
    ScaledNeighbours(q, step, a, qty, r);
  }

  /**
   A quotient rounded away from zero, scaled back by the step, moves the
   quantity away from zero by less than one step.
   */
  lemma ScaledAwayFromZero(qty: real, step: real, a: real, r: real)
    requires step != 0.0 && r == a * step
    requires 0.0 <= qty / step ==> 0.0 <= a && a - 1.0 < qty / step <= a
    requires qty / step < 0.0 ==> a < 0.0 && a <= qty / step < a + 1.0
    requires qty / step == 0.0 ==> a == 0.0
    ensures Abs(qty) <= Abs(r) && Abs(r - qty) < Abs(step)
    ensures (0.0 <= qty ==> qty <= r) && (qty <= 0.0 ==> r <= qty)
  {
    var q := qty / step;
    DivMul(qty, step);
    ScaledNeighbours(q, step, a, qty, r);
  }

  /**
   Scaling by the step orders `a * step` against `q * step` as `a` is ordered
   against `q`, zero and `q`'s integer neighbours, reversed for a negative step.
   */
  lemma ScaledNeighbours(q: real, step: real, a: real, x: real, r: real)
    requires step != 0.0 && x == q * step && r == a * step
    ensures 0.0 < step ==> (a <= q <==> r <= x) && (a < q <==> r < x)
    ensures step < 0.0 ==> (a <= q <==> x <= r) && (a < q <==> x < r)
    ensures 0.0 < step ==> (0.0 <= a <==> 0.0 <= r) && (a <= 0.0 <==> r <= 0.0)
    ensures step < 0.0 ==> (0.0 <= a <==> r <= 0.0) && (a <= 0.0 <==> 0.0 <= r)
    ensures 0.0 < step ==> (q < a + 1.0 <==> x < r + step) && (a - 1.0 < q <==> r - step < x)
    ensures step < 0.0 ==> (q < a + 1.0 <==> r + step < x) && (a - 1.0 < q <==> x < r - step)
  {
    var up, down := (a + 1.0) * step, (a - 1.0) * step;
    assert up == r + step && down == r - step;
    Scaled(a, q, step, r, x);
    Scaled(0.0, a, step, 0.0, r);
    Scaled(a, 0.0, step, r, 0.0);
    Scaled(q, a + 1.0, step, x, up);
    Scaled(a - 1.0, q, step, down, x);
  }

  /** Multiplying by a non-zero factor keeps the order of two values, or reverses it for a negative one. */
  lemma Scaled(x: real, y: real, s: real, px: real, py: real)
    requires s != 0.0 && px == x * s && py == y * s
    ensures 0.0 < s ==> (x <= y <==> px <= py) && (x < y <==> px < py)
    ensures s < 0.0 ==> (x <= y <==> py <= px) && (x < y <==> py < px)
  {
    assert py - px == (y - x) * s;
    ProductSign(y - x, s, py - px);
  }

  /** The sign of a product with a non-zero factor. */
  lemma ProductSign(d: real, s: real, p: real)
    requires p == d * s
    ensures 0.0 < s ==> (0.0 <= d <==> 0.0 <= p) && (0.0 < d <==> 0.0 < p)
    ensures s < 0.0 ==> (0.0 <= d <==> p <= 0.0) && (0.0 < d <==> p < 0.0)
  {
    if 0.0 < s {
      if 0.0 < d {
        assert 0.0 < p;
      } else if d < 0.0 {
        assert p < 0.0;
      }
    } else if s < 0.0 {
      if 0.0 < d {
        assert p < 0.0;
      } else if d < 0.0 {
        assert 0.0 < p;
      }
    }
  }

  lemma DivMul(x: real, s: real)
    requires s != 0.0
    ensures (x / s) * s == x
  {
  }

  /** Comparing with a quotient by a positive divisor is comparing the product. */
  lemma ProductVsQuotient(y: real, n: real, p: real)
    requires 0.0 < p
    ensures y < n / p <==> y * p < n
    ensures 0.0 <= n ==> 0.0 <= n / p
  {
    var q := n / p;
    DivMul(n, p);
    Scaled(y, q, p, y * p, n);
    Scaled(0.0, q, p, 0.0, n);
  }

  /**
   Rounding the quotient `n / p` of a positive `n` beyond itself, away from
   zero, gives a quantity whose product with `p` reaches `n`.
   */
  lemma ReachedByRounding(n: real, p: real, q: real)
    requires 0.0 < n && p != 0.0
    requires 0.0 < p ==> n / p <= q
    requires p < 0.0 ==> q <= n / p
    ensures n <= q * p
  {
    var x := n / p;
    DivMul(n, p);
    Scaled(x, q, p, n, q * p);
  }

  /** A value within one step above a quotient, scaled back by the positive divisor. */
  lemma BracketTimes(q: real, s: real, n: real, p: real)
    requires 0.0 < p && q - s < n / p <= q
    ensures n <= q * p && (q - s) * p < n
  {
    ProductVsQuotient(q, n, p);
    ProductVsQuotient(q - s, n, p);
  }

  /** Products with the same positive factor keep the order of the other factors. */
  lemma ProductOrder(a: real, b: real, p: real, n: real)
    requires 0.0 < p && a * p < n <= b * p
    ensures a < b
  {
    Scaled(a, b, p, a * p, b * p);
  }

  /**
   For a non-negative quantity and a positive step, `floor_to_step` is the
   greatest multiple of the step not above the quantity.
   */
  lemma FloorToStepBounds(qty: real, step: real)
    requires 0.0 <= qty && 0.0 < step
    ensures IsMultipleOf(FloorToStep(qty, step), step)
    ensures FloorToStep(qty, step) <= qty < FloorToStep(qty, step) + step
  {
    FloorToStepIsNearMultiple(qty, step);
  }

  lemma FloorToStepIsGreatest(qty: real, step: real, k: int)
    requires 0.0 <= qty && 0.0 < step
    requires k as real * step <= qty
    ensures k as real * step <= FloorToStep(qty, step)
  {
    var q, n := qty / step, RoundDown(qty / step);
    var f, ks := FloorToStep(qty, step), k as real * step;
    assert f == n as real * step;
    DivMul(qty, step);
    Scaled(k as real, q, step, ks, qty);
    assert k <= n;
    Scaled(k as real, n as real, step, ks, f);
  }

  /** The product of `q` and `p` reaches `n`, and that of `q - s` falls short of it. */
  predicate ReachesWithinStep(q: real, s: real, n: real, p: real) {
    n <= q * p && (q - s) * p < n
  }

  /**
   The ceiling of a quotient `n / p` to a positive step is the least multiple
   of the step whose product with `p` reaches `n`: it reaches `n`, and one
   step less does not.
   */
  lemma CeilingOfQuotient(n: real, p: real, s: real, q: real)
    requires 0.0 <= n && 0.0 < p && 0.0 < s && q == CeilToStep(n / p, s)
    ensures IsMultipleOf(q, s) && ReachesWithinStep(q, s, n, p)
  {
    ProductVsQuotient(0.0, n, p);
    CeilToStepBounds(n / p, s);
    BracketTimes(q, s, n, p);
  }

  /** No multiple of the step smaller than the ceiling of `n / p` has a product with `p` reaching `n`. */
  lemma CeilingOfQuotientIsLeast(n: real, p: real, s: real, q: real, k: int)
    requires 0.0 <= n && 0.0 < p && 0.0 < s && q == CeilToStep(n / p, s)
    requires n <= k as real * s * p
    ensures q <= k as real * s
  {
    ProductVsQuotient(0.0, n, p);
    ProductVsQuotient(k as real * s, n, p);
    CeilToStepIsLeast(n / p, s, k);
  }

  /**
   For a non-negative quantity and a positive step, `ceil_to_step` is the
   least multiple of the step not below the quantity.
   */
  lemma CeilToStepBounds(qty: real, step: real)
    requires 0.0 <= qty && 0.0 < step
    ensures IsMultipleOf(CeilToStep(qty, step), step)
    ensures CeilToStep(qty, step) - step < qty <= CeilToStep(qty, step)
  {
    CeilToStepIsNearMultiple(qty, step);
  }

  lemma CeilToStepIsLeast(qty: real, step: real, k: int)
    requires 0.0 <= qty && 0.0 < step
    requires qty <= k as real * step
    ensures CeilToStep(qty, step) <= k as real * step
  {
    var q, n := qty / step, RoundUp(qty / step);
    var c, ks := CeilToStep(qty, step), k as real * step;
    assert c == n as real * step;
    DivMul(qty, step);
    Scaled(q, k as real, step, qty, ks);
    assert n <= k;
    Scaled(n as real, k as real, step, c, ks);
  }

  /**
   Rounding up to the exponent of the step first and then to the step itself
   is the same as rounding up to the step directly: the step is a whole
   number of units of its own exponent.
   */
  lemma QuantizeThenCeil(x: real, step: Decimal)
    requires 0.0 <= x && 0 < step.coefficient
    ensures CeilToStep(QuantizeUp(x, step), step.Value()) == CeilToStep(x, step.Value())
  {
    var u := Pow10(step.exponent);
    var m := step.coefficient;
    var q := QuantizeUp(x, step);
    assert q == CeilToStep(x, u);
    var v := step.Value();
    assert v == m as real * u;
    CeilOfCeil(x, u, m, v);
  }

  /** Rounding up to a unit and then to a whole number of units is rounding up once. */
  lemma CeilOfCeil(x: real, u: real, m: int, s: real)
    requires 0.0 <= x && 0.0 < u && 0 < m && s == m as real * u
    ensures CeilToStep(CeilToStep(x, u), s) == CeilToStep(x, s)
  {
    var v := CeilToStep(x, u);
    var y := x / u;
    var t := RoundUp(y);
    assert v == t as real * u;
    QuotientsOfMultiple(x, u, m, s, t as real, v);
    NestedRoundUp(y, m);
    RoundUpCongruent(v / s, t as real / m as real);
    RoundUpCongruent(x / s, y / m as real);
    SameCeilingCount(v, x, s);
  }

  lemma RoundUpCongruent(a: real, b: real)
    requires a == b
    ensures RoundUp(a) == RoundUp(b)
  {
  }

  /** Two quantities whose quotients round up alike have the same ceiling. */
  lemma SameCeilingCount(a: real, b: real, s: real)
    requires s != 0.0 && RoundUp(a / s) == RoundUp(b / s)
    ensures CeilToStep(a, s) == CeilToStep(b, s)
  {
  }

  /** Dividing by a whole number of units is dividing by the unit, then by the number. */
  lemma QuotientsOfMultiple(x: real, u: real, m: int, s: real, t: real, v: real)
    requires 0.0 < u && 0 < m && s == m as real * u && v == t * u
    ensures x / s == (x / u) / m as real
    ensures v / s == t / m as real
  {
  }

  /**
   The ceiling of a ceiling: for a positive integer `m`, rounding `y / m` up
   equals rounding `ceiling(y) / m` up.
   */
  lemma NestedRoundUp(y: real, m: int)
    requires 0.0 <= y && 0 < m
    ensures RoundUp(RoundUp(y) as real / m as real) == RoundUp(y / m as real)
  {
    var c := RoundUp(y / m as real);
    var t := RoundUp(y);
    CeilingBracket(y, m, t, c);
  }

  /**
   If `c` is the ceiling of `y / m` and `t` the ceiling of `y`, then `c` is
   also the ceiling of `t / m`: the interval `((c - 1) * m, c * m]` has whole
   endpoints, so it holds `t` as soon as it holds `y`.
   */
  lemma CeilingBracket(y: real, m: int, t: int, c: int)
    requires 0.0 <= y && 0 < m
    requires (t - 1) as real < y <= t as real
    requires (c - 1) as real < y / m as real <= c as real
    ensures (c - 1) as real < t as real / m as real <= c as real
  {
    ScaleBounds(y, m as real, (c - 1) as real, c as real);
    assert (c - 1) * m < t <= c * m;
    ShrinkBounds(t as real, m as real, (c - 1) as real, c as real);
  }

  lemma ScaleBounds(y: real, m: real, lo: real, hi: real)
    requires 0.0 < m && lo < y / m <= hi
    ensures lo * m < y <= hi * m
  {
    var z := y / m;
    DivMul(y, m);
    Scaled(lo, z, m, lo * m, y);
    Scaled(z, hi, m, y, hi * m);
  }

  lemma ShrinkBounds(t: real, m: real, lo: real, hi: real)
    requires 0.0 < m && lo * m < t <= hi * m
    ensures lo < t / m <= hi
  {
    var z := t / m;
    DivMul(t, m);
    Scaled(lo, z, m, lo * m, t);
    Scaled(z, hi, m, t, hi * m);
  }
}
