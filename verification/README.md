# Binance futures bot: exact-decimal quantity core

This project models the quantity and filter logic of a small Binance
futures testnet trading bot (`bot.py`) and proves properties of it in Dafny.
The bot takes a symbol, a side, a quantity and a leverage. It then runs these
stages:

1. It reads the symbol's trading filters (step size, minimum quantity,
   minimum notional) from the exchange information.
2. It reads the mark price.
3. It adjusts the requested quantity so that it satisfies the filters.
4. It estimates the margin the order needs.
5. It refuses the order when the available USDT balance does not cover that
   margin.

Python's `Decimal` arithmetic is modelled as exact rational arithmetic
(`real`). A `Decimal` the bot receives from the exchange is modelled as a
pair of an integer coefficient and a power-of-ten exponent. The pair form is
needed because `quantize` rounds to the exponent of its argument: a step size
given as `0.00100000` quantizes to eight places, not three.

The modules are:

- `Decimals`: decimal values and the three integral roundings the bot uses.
  `ROUND_DOWN` truncates toward zero. `ROUND_UP` rounds away from zero.
  `ROUND_HALF_EVEN` is the context default.
- `Steps`: `floor_to_step`, `ceil_to_step` and `quantize(..., ROUND_UP)`,
  with their bounds and their minimality.
- `Results`: the bot's failures, as a `Result` type.
- `Exchange`: the lookups on already-fetched exchange responses.
  - `get_symbol_filters` is modelled as a loop with a recursive reference
    definition.
  - `get_mark_price` is modelled with its ticker fallback.
  - `get_usdt_available` is modelled directly.
- `Quantity`: `validate_and_prepare_quantity`, stage by stage, together with
  its guarantees.
- `Margin`: `estimate_required_margin`, and the pre-flight balance gate of the
  command-line flow.
- `Scenarios`: worked examples on concrete filters and prices.

Rounding is modelled exactly for every sign, so no modelling function
(`FloorToStep`, `CeilToStep`, `Adjust`, `PrepareQuantity`) requires a
positive quantity or step.

A zero price is not excluded either. When a positive minimum notional must be
reached, the division by the price raises Python's `DivisionByZero`. The model
returns it as the `DivisionByZero` error. With exact arithmetic this division
is the adjuster's only failure, and the final "still below minimum notional"
check cannot fire (`Quantity.AdjustFailsOnlyOnZeroPrice`). This is a fact
about exact arithmetic only. Under Python's 28-digit context the check can
fire (see "## Left out").

The result of the minimum-quantity raise is the minimum quantity itself, and
the model follows the code here. The comments at bot.py:114 and bot.py:127
state the intent that the quantity is rounded to a multiple of the step. The
adjusted quantity can still end up off the step, but only in one way: the
minimum-quantity raise fires, the minimum-notional raise does not, and the
minimum quantity is not itself a multiple of the step
(`Quantity.OffStepOnlyFromMinQty`). `Quantity.MisalignedMinQtyPassesThrough`
is a concrete case, and `Quantity.AlignedWhenMinQtyAligned` states when
alignment holds.

## Model

| member | source | states |
|---|---|---|
| Decimals.RoundDown | bot.py:29 | truncation toward zero: the integer lies between zero and the value, less than one away |
| Decimals.RoundUp | bot.py:35 | rounding away from zero: the integer lies beyond the value, less than one away |
| Decimals.RoundHalfEven | bot.py:141 | the integer is within one half of the value, and a tie goes to the even neighbour |
| Decimals.RoundHalfEvenMonotone | bot.py:141 | round-half-even never reverses the order of two values |
| Decimals.ValueIsMultipleOfUnit | bot.py:125 | a decimal's value is a whole number of units of ten to its exponent |
| Steps.FloorToStep | bot.py:25-30 | a zero step returns the quantity unchanged; otherwise the result lies between zero and the quantity |
| Steps.FloorToStepIsNearMultiple | bot.py:25-30 | for every sign: a multiple of the step, no further from zero than the quantity, less than one step away |
| Steps.FloorToStepBounds | bot.py:25-30 | with a non-negative quantity and a positive step: a multiple of the step with result <= qty < result + step |
| Steps.FloorToStepIsGreatest | bot.py:25-30 | every multiple of a positive step not above the quantity is at most the result |
| Steps.CeilToStep | bot.py:32-36 | a zero step returns the quantity unchanged; otherwise the result lies beyond the quantity, away from zero |
| Steps.CeilToStepIsNearMultiple | bot.py:32-36 | for every sign: a multiple of the step, at least as far from zero as the quantity, less than one step away |
| Steps.CeilToStepBounds | bot.py:32-36 | with a non-negative quantity and a positive step: a multiple of the step with result - step < qty <= result |
| Steps.CeilToStepIsLeast | bot.py:32-36 | every multiple of a positive step not below the quantity is at least the result |
| Steps.QuantizeUp | bot.py:125 | `quantize(..., ROUND_UP)` never moves a value toward zero: a non-negative value is not decreased and a non-positive one is not increased |
| Steps.QuantizeUpBounds | bot.py:125 | quantizing up to a decimal's exponent gives a multiple of that unit, less than one unit beyond the value |
| Steps.CeilOfCeil | bot.py:124-127 | rounding up to a unit and then to a whole number of units equals rounding up once to that number of units |
| Steps.QuantizeThenCeil | bot.py:124-127 | quantizing up to the step's exponent before `ceil_to_step` changes nothing |
| Exchange.ScanFiltersDescribes | bot.py:61-71 | the left-to-right scan yields the step and minimum quantity of the last LOT_SIZE filter and the minimum notional of the last MIN_NOTIONAL filter (`notional` before `minNotional`), zero where there is none |
| Exchange.ReadFilters | bot.py:61-72 | the loop over a symbol's filters computes constraints satisfying the last-filter-wins description above |
| Exchange.DescribesIsUnique | bot.py:61-72 | a filter list determines its constraints uniquely |
| Exchange.GetSymbolFilters | bot.py:57-73 | fails with SymbolNotFound exactly when no entry names the symbol; otherwise returns the constraints of the first entry that does |
| Exchange.GetMarkPrice | bot.py:75-86 | a list answer gives its first entry's mark price, and an empty list or one without the field fails; an object with a mark price gives it; otherwise the ticker's price is used, and a ticker without one fails |
| Exchange.TickerOnlyAsFallback | bot.py:78-85 | the ticker cannot change the result when the response is a list or carries its own mark price |
| Exchange.GetUsdtAvailable | bot.py:50-55 | zero when no USDT entry exists; otherwise the first USDT entry's available balance, falling back to its balance |
| Quantity.MinNotionalTarget | bot.py:124-128 | the raised quantity is never nearer zero than the exact quotient of the minimum notional by the price |
| Quantity.Settle | bot.py:121-133 | a zero price with a positive minimum notional fails with DivisionByZero |
| Quantity.Adjust | bot.py:114-133 | a zero price with a positive minimum notional fails with DivisionByZero |
| Quantity.PrepareQuantity | bot.py:105-135 | a zero price with a positive minimum notional fails with DivisionByZero; on success the price and filters are returned unchanged and the quantity is the adjusted one |
| Quantity.TargetReachesMinimum | bot.py:123-129 | for any non-zero price, the raised quantity's notional reaches a positive minimum notional |
| Quantity.SettleKeeps | bot.py:121-135 | a quantity whose notional is not short passes the minimum-notional stages unchanged |
| Quantity.SettleRaises | bot.py:123-133 | a short quantity at a non-zero price is replaced by the raised quantity, which passes the final check |
| Quantity.SettleFailsOnlyOnZeroPrice | bot.py:121-133 | the minimum-notional stages fail exactly on a zero price with a positive minimum notional |
| Quantity.SettleMeetsMinimum | bot.py:123-133 | on success the quantity is not short of the minimum notional, and at a positive price it never decreases |
| Quantity.AfterMinQtyMeetsMinimum | bot.py:117-119 | after the minimum-quantity raise a positive minimum quantity is met |
| Quantity.AdjustFailsOnlyOnZeroPrice | bot.py:105-135 | the adjuster fails exactly on a zero price with a positive minimum notional, and then with DivisionByZero; the final check never fires |
| Quantity.AdjustMeetsMinimums | bot.py:117-133 | on success the minimum notional is met, and at a positive price a positive minimum quantity is met |
| Quantity.PrepareQuantityFailsOnlyOnZeroPrice | bot.py:105-135 | the validator fails exactly on a zero price with a positive minimum notional, with DivisionByZero |
| Quantity.PrepareQuantityMeetsMinimums | bot.py:121-135 | on success the returned notional is quantity times price, it meets a positive minimum notional, and at a positive price the quantity meets a positive minimum quantity |
| Quantity.NoRaiseKeepsFloor | bot.py:114-121 | when neither raise fires the result is the request rounded down to the step: never above a non-negative request, and within one step of it |
| Quantity.MinQtyRaiseGivesMinQty | bot.py:117-119 | when only the minimum-quantity raise fires the result is the minimum quantity itself |
| Quantity.MinNotionalRaiseGivesTarget | bot.py:123-129 | when the minimum-notional raise fires at a non-zero price the result is the raised quantity; at a positive price it is larger than before |
| Quantity.LimitsOfStepInUnits | bot.py:125 | a positive step size is a whole number of units of its own exponent |
| Quantity.TargetIsCeiling | bot.py:124-127 | with such a step, the raised quantity is the minimum notional over the price rounded up to the step |
| Quantity.TargetIsLeast | bot.py:123-129 | the raised quantity is a multiple of the step whose notional reaches the minimum, and one step less falls short |
| Quantity.TargetIsMinimal | bot.py:123-129 | no smaller multiple of the step has a notional reaching the minimum |
| Quantity.MinNotionalRaiseIsLeast | bot.py:123-133 | when the raise fires at a positive price, the result is the least multiple of the step meeting the minimum notional, and it is above the quantity it replaced |
| Quantity.TargetIsMultiple | bot.py:124-127 | with a non-zero step the raised quantity is a multiple of the step |
| Quantity.AlignedWhenMinQtyAligned | bot.py:114-129 | with a positive step and price, and a minimum quantity that is zero or aligned, the result is a multiple of the step |
| Quantity.OffStepOnlyFromMinQty | bot.py:114-129 | with a positive step and price, the result is off the step only when the minimum-quantity raise fires and the minimum-notional raise does not, and then it is the minimum quantity itself |
| Quantity.MisalignedMinQtyPassesThrough | bot.py:117-119 | a minimum quantity of 0.0015 with step 0.001 is returned as it is, off the step |
| Quantity.AdjustIsIdempotent | bot.py:105-135 | re-validating an adjusted quantity at the same positive price returns it unchanged |
| Margin.QuantizeHalfEven | bot.py:141 | quantizing with the default rounding moves a value by at most half a unit |
| Margin.QuantizeHalfEvenIsNearest | bot.py:141 | quantizing gives a multiple of the unit at most half a unit away, with a tie going to an even multiple |
| Margin.QuantizeHalfEvenMonotone | bot.py:141 | quantizing never reverses the order of two values |
| Margin.EstimateRequiredMargin | bot.py:137-141 | fails exactly on a zero leverage, with DivisionUndefined for a zero notional and DivisionByZero otherwise; a success is within 5e-9 of notional / leverage * 1.1 |
| Margin.MarginFailsOnlyOnZeroLeverage | bot.py:137-141 | the estimate fails exactly on a zero leverage: DivisionUndefined for a zero notional, DivisionByZero otherwise |
| Margin.MarginIsNearest | bot.py:137-141 | with a non-zero leverage the estimate is a multiple of 1e-8 within 5e-9 of notional / leverage * 1.1 |
| Margin.MarginIsMonotone | bot.py:137-141 | with a positive leverage the estimate never decreases as the notional grows |
| Margin.MarginIsNonNegative | bot.py:137-141 | with a positive leverage a non-negative notional gets a non-negative estimate |
| Margin.Preflight | bot.py:188-212 | a zero leverage always fails; a submission keeps the mark price and its margin is covered by the available USDT; a refusal reports the available USDT, which is below the required margin |
| Margin.PreflightSubmitsOnlyWhenCovered | bot.py:188-213 | an order goes through only with the validated quantity and notional, and only when the available USDT covers the margin estimated for that notional |
| Margin.PreflightRefusesOnlyWhenShort | bot.py:196-212 | the gate refuses exactly when validation and estimation succeed and the available USDT is below the estimate |
| Margin.PreflightFailures | bot.py:188-212 | other than by a short balance, the flow fails exactly on a zero price with a positive minimum notional (with DivisionByZero, before the margin is estimated) or on a zero leverage |
| Scenarios.SmallRequestIsRaisedTwice | bot.py:105-135 | step 0.001, minimum quantity 0.001, minimum notional 100, price 50000: a request of 0.0005 becomes 0.002 with notional 100 |
| Scenarios.TinyRequestIsRaisedTwice | bot.py:105-135 | the same filters and price turn a request of 0.00019 into 0.002 with notional 100 |
| Scenarios.WholeUnitRequestIsRaised | bot.py:105-135 | step 1, minimum notional 100, price 1: a request of 50 becomes 100 |
| Scenarios.ShortBalanceIsRefused | bot.py:188-212 | a quantity of 0.003 at 50000 with leverage 11 needs a margin of 15; 10 USDT available is refused with InsufficientBalance |

## Left out

- `BasicBot.__init__`, `set_margin_type`, `set_leverage` and `place_market_order` (bot.py:40-48, 88-103, 144-156): these are calls into the external `python-binance` client. Request signing and query canonicalisation also happen inside `python-binance` and are not modelled. The `float(quantity)` conversion at bot.py:150 is a floating-point hand-off to that library.
- The network calls themselves (`futures_exchange_info`, `futures_mark_price`, `futures_symbol_ticker`, `futures_account_balance`): each lookup receives the already-fetched response as a parameter. JSON decoding is replaced by records and maps, and missing mandatory keys (`symbol`, `filterType`, `asset`) are not modelled.
- Exchange.GetMarkPrice: Python's `IndexError`, `KeyError` and the `InvalidOperation` of `Decimal("None")` are all reported as the single error PriceUnavailable.
- Quantity.PrepareQuantity: takes the filters and the mark price as parameters instead of fetching them. Its `leverage` argument is unused in the bot, so it is dropped.
- Margin.Preflight: starts from the fetched filters, price and balances. The failures of fetching them are those of `Exchange.GetSymbolFilters` and `Exchange.GetMarkPrice`. The bot does not catch a failure of the margin estimate; the model returns it as an error.
- The `cli` console input and output, environment variables, `load_dotenv` and logging (bot.py:11-19, 159-225). LIMIT and STOP orders are not implemented in the bot either (bot.py:222-223).
- The 28-significant-digit precision of Python's default decimal context: every division and product is exact here. A `quantize` whose result would exceed that precision raises `InvalidOperation` in Python; this is not modelled.
- Quantity.AdjustFailsOnlyOnZeroPrice: holds for exact arithmetic only. Under Python's 28-digit context the final check at bot.py:131-133 is reachable. Example: a zero step, a minimum notional of 100 and a price of 3. Then 100 / 3 rounds to 33.33…33 (28 digits), its notional 99.99…99 is below 100, and `ValueError` is raised. The same limit applies to Quantity.PrepareQuantityFailsOnlyOnZeroPrice and Margin.PreflightFailures, which would then also fail with NotionalTooLow.
- `normalize()` (bot.py:30, 36): it changes the representation of a decimal but not its value.
- The duplicated `("MIN_NOTIONAL", "MIN_NOTIONAL")` test at bot.py:69 is modelled as a comparison with `MIN_NOTIONAL` alone. No other filter type sets the minimum notional.
- `main.py`: it only constructs a client and has no logic.
