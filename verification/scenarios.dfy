/**
 Worked examples of the adjuster and the pre-flight gate on concrete filters,
 prices and balances.
 */
module Scenarios {
  import opened Decimals
  import opened Steps
  import opened Results
  import opened Exchange
  import opened Quantity
  import opened Margin

  /** A BTC-like symbol: step and minimum quantity 0.001, minimum notional 100. */
  const BtcFilters: SymbolFilters := SymbolFilters(Decimal(1, -3), Decimal(1, -3), Decimal(100, 0))

  /**
   A request of 0.0005 at a price of 50000 rounds down to zero, is raised to
   the minimum quantity 0.001 (notional 50), and then to 0.002, whose notional
   of 100 meets the minimum.
   */
  lemma SmallRequestIsRaisedTwice()
    ensures PrepareQuantity(0.0005, BtcFilters, 50000.0) == Success(Prepared(0.002, 50000.0, 100.0, BtcFilters))
  {
    var l := LimitsOf(BtcFilters);
    assert l == Limits(0.001, 0.001, 0.001, 100.0);
    assert FloorToStep(0.0005, 0.001) == 0.0;
    assert AfterMinQty(0.0005, l) == 0.001;
    assert CeilToStep(100.0 / 50000.0, 0.001) == 0.002 by {
      assert 100.0 / 50000.0 / 0.001 == 2.0;
    }
    assert MinNotionalTarget(l, 50000.0) == 0.002;
  }

  /** A request of 0.00019 at the same price ends on the same quantity. */
  lemma TinyRequestIsRaisedTwice()
    ensures PrepareQuantity(0.00019, BtcFilters, 50000.0) == Success(Prepared(0.002, 50000.0, 100.0, BtcFilters))
  {
    var l := LimitsOf(BtcFilters);
    assert l == Limits(0.001, 0.001, 0.001, 100.0);
    assert FloorToStep(0.00019, 0.001) == 0.0 by {
      assert 0.00019 / 0.001 == 0.19;
    }
    assert AfterMinQty(0.00019, l) == 0.001;
    assert CeilToStep(100.0 / 50000.0, 0.001) == 0.002 by {
      assert 100.0 / 50000.0 / 0.001 == 2.0;
    }
    assert MinNotionalTarget(l, 50000.0) == 0.002;
  }

  /** A whole-unit step: a request of 50 at price 1 is raised to 100 to reach the minimum notional. */
  lemma WholeUnitRequestIsRaised()
    ensures var f := SymbolFilters(Decimal(1, 0), Zero, Decimal(100, 0));
      PrepareQuantity(50.0, f, 1.0) == Success(Prepared(100.0, 1.0, 100.0, f))
  {
    var f := SymbolFilters(Decimal(1, 0), Zero, Decimal(100, 0));
    var l := LimitsOf(f);
    assert l == Limits(1.0, 1.0, 0.0, 100.0);
    assert FloorToStep(50.0, 1.0) == 50.0;
    assert CeilToStep(100.0, 1.0) == 100.0;
    assert MinNotionalTarget(l, 1.0) == 100.0;
  }

  /**
   A quantity of 0.003 at 50000 has a notional of 150; at leverage 11 its
   buffered margin is 15 USDT, which an available balance of 10 does not cover.
   */
  lemma ShortBalanceIsRefused()
    ensures var balances := [BalanceEntry(Usdt, map["availableBalance" := Decimal(10, 0)])];
      Preflight(0.003, BtcFilters, 50000.0, 11, balances) == Failure(InsufficientBalance(10.0, 15.0))
  {
    var balances := [BalanceEntry(Usdt, map["availableBalance" := Decimal(10, 0)])];
    var l := LimitsOf(BtcFilters);
    assert l == Limits(0.001, 0.001, 0.001, 100.0);
    assert FloorToStep(0.003, 0.001) == 0.003 by {
      assert 0.003 / 0.001 == 3.0;
    }
    assert PrepareQuantity(0.003, BtcFilters, 50000.0) == Success(Prepared(0.003, 50000.0, 150.0, BtcFilters));
    Pow10MinusEight();
    assert QuantizeHalfEven(150.0 / 11.0 * Buffer, MarginPlaces) == 15.0 by {
      assert 150.0 / 11.0 * Buffer == 15.0;
      assert 15.0 / 0.00000001 == 1500000000.0;
    }
    assert GetUsdtAvailable(balances) == Decimal(10, 0);
  }
}
