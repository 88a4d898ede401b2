/**
 The lookups the bot performs on the exchange's JSON responses, as pure
 functions of the already-fetched responses: the trading filters of a symbol
 from the exchange information, the mark price (with its ticker fallback) and
 the available USDT balance.

 A JSON object is modelled as a map from field names to decimals; a field that
 the bot reads with `.get(key, default)` may be absent.
 */
module Exchange {
  import opened Decimals
  import opened Results

  type Fields = map<string, Decimal>

  /** `fields.get(key, default)`. */
  function FieldOr(fields: Fields, key: string, default: Decimal): Decimal {
    if key in fields then fields[key] else default
  }

  /** One entry of a symbol's `filters` list. */
  datatype FilterEntry = FilterEntry(filterType: string, fields: Fields)

  /** One entry of the exchange information's `symbols` list. */
  datatype SymbolEntry = SymbolEntry(symbol: string, filters: seq<FilterEntry>)

  /** The three trading constraints the adjuster enforces; zero means "no constraint". */
  datatype SymbolFilters = SymbolFilters(stepSize: Decimal, minQty: Decimal, minNotional: Decimal)

  const LotSize: string := "LOT_SIZE"
  const MinNotional: string := "MIN_NOTIONAL"

  function LotStepSize(f: FilterEntry): Decimal {
    FieldOr(f.fields, "stepSize", Zero)
  }

  function LotMinQty(f: FilterEntry): Decimal {
    FieldOr(f.fields, "minQty", Zero)
  }

  /** Payloads name the minimum either `notional` or `minNotional`; `notional` wins. */
  function NotionalMinimum(f: FilterEntry): Decimal {
    FieldOr(f.fields, "notional", FieldOr(f.fields, "minNotional", Zero))
  }

  ghost predicate NoneOfType(fs: seq<FilterEntry>, t: string) {
    forall k :: 0 <= k < |fs| ==> fs[k].filterType != t
  }

  /** `fs[k]` is the last filter of type `t`. */
  ghost predicate IsLastOfType(fs: seq<FilterEntry>, k: int, t: string) {
    && 0 <= k < |fs|
    && fs[k].filterType == t
    && forall j :: k < j < |fs| ==> fs[j].filterType != t
  }

  /**
   The constraints a filter list determines: the step size and minimum
   quantity come from the last `LOT_SIZE` filter and the minimum notional from
   the last `MIN_NOTIONAL` filter; a constraint without such a filter is zero.
   */
  ghost predicate Describes(fs: seq<FilterEntry>, r: SymbolFilters) {
    && (NoneOfType(fs, LotSize) ==> r.stepSize == Zero && r.minQty == Zero)
    && (forall k :: IsLastOfType(fs, k, LotSize) ==>
          r.stepSize == LotStepSize(fs[k]) && r.minQty == LotMinQty(fs[k]))
    && (NoneOfType(fs, MinNotional) ==> r.minNotional == Zero)
    && (forall k :: IsLastOfType(fs, k, MinNotional) ==> r.minNotional == NotionalMinimum(fs[k]))
  }

  /** The constraints before any filter is read: all zero. */
  const NoFilters: SymbolFilters := SymbolFilters(Zero, Zero, Zero)

  /** Reading one filter: a filter of a known type overrides that type's constraints only. */
  function Override(cur: SymbolFilters, f: FilterEntry): SymbolFilters {
    SymbolFilters(
      if f.filterType == LotSize then LotStepSize(f) else cur.stepSize,
      if f.filterType == LotSize then LotMinQty(f) else cur.minQty,
      if f.filterType == MinNotional then NotionalMinimum(f) else cur.minNotional)
  }

  /** The constraints after reading a filter list from the first entry to the last. */
  function ScanFilters(fs: seq<FilterEntry>): SymbolFilters
    decreases |fs|
  {
    if |fs| == 0 then NoFilters else Override(ScanFilters(fs[..|fs| - 1]), fs[|fs| - 1])
  }

  /** Scanning the list yields the constraints of the last filter of each type. */
  lemma {:induction false} ScanFiltersDescribes(fs: seq<FilterEntry>)
    ensures Describes(fs, ScanFilters(fs))
    decreases |fs|
  {
    if |fs| > 0 {
      var init, last := fs[..|fs| - 1], fs[|fs| - 1];
      assert init + [last] == fs;
      assert ScanFilters(fs) == Override(ScanFilters(init), last);
      ScanFiltersDescribes(init);
      DescribesExtend(init, last, ScanFilters(init));
    }
  }

  /** The scan over one symbol's filter list inside `get_symbol_filters`. */
  method ReadFilters(fs: seq<FilterEntry>) returns (r: SymbolFilters)
    ensures Describes(fs, r)
  {
    r := NoFilters;
    var i := 0;
    while i < |fs|
      invariant 0 <= i <= |fs|
      invariant r == ScanFilters(fs[..i])
    {
      assert fs[..i + 1][..i] == fs[..i];
      r := Override(r, fs[i]);
      i := i + 1;
    }
    assert fs[..|fs|] == fs;
    ScanFiltersDescribes(fs);
  }

  /** Appending one filter updates the described constraints as `Override` does. */
  lemma DescribesExtend(fs: seq<FilterEntry>, f: FilterEntry, cur: SymbolFilters)
    requires Describes(fs, cur)
    ensures Describes(fs + [f], Override(cur, f))
  {
    var gs := fs + [f];
    forall k | 0 <= k < |fs|
      ensures gs[k] == fs[k]
    {
    }
    LastOfTypeExtend(fs, f, LotSize);
    LastOfTypeExtend(fs, f, MinNotional);
  }

  /** How the last filter of a type moves when one filter is appended. */
  lemma LastOfTypeExtend(fs: seq<FilterEntry>, f: FilterEntry, t: string)
    ensures f.filterType == t ==> IsLastOfType(fs + [f], |fs|, t)
    ensures f.filterType == t ==> forall k :: IsLastOfType(fs + [f], k, t) ==> k == |fs|
    ensures f.filterType != t ==> (NoneOfType(fs + [f], t) <==> NoneOfType(fs, t))
    ensures f.filterType != t ==> forall k :: IsLastOfType(fs + [f], k, t) <==> IsLastOfType(fs, k, t)
  {
    var gs := fs + [f];
    assert gs[|fs|] == f;
    forall k | 0 <= k < |fs|
      ensures gs[k] == fs[k]
    {
    }
  }

  /** `symbols[i]` is the first entry for `symbol`. */
  ghost predicate IsFirstSymbol(symbols: seq<SymbolEntry>, symbol: string, i: int) {
    && 0 <= i < |symbols|
    && symbols[i].symbol == symbol
    && forall j :: 0 <= j < i ==> symbols[j].symbol != symbol
  }

  /**
   `get_symbol_filters`: the constraints of the first entry for the symbol, or
   `SymbolNotFound` when no entry names it.
   */
  method GetSymbolFilters(symbols: seq<SymbolEntry>, symbol: string) returns (r: Result<SymbolFilters>)
    ensures r.Failure? <==> forall i :: 0 <= i < |symbols| ==> symbols[i].symbol != symbol
    ensures r.Failure? ==> r.error == SymbolNotFound(symbol)
    ensures forall i :: IsFirstSymbol(symbols, symbol, i) ==> r.Success? && Describes(symbols[i].filters, r.value)
  {
    var i := 0;
    while i < |symbols|
      invariant 0 <= i <= |symbols|
      invariant forall j :: 0 <= j < i ==> symbols[j].symbol != symbol
    {
      if symbols[i].symbol == symbol {
        var filters := ReadFilters(symbols[i].filters);
        r := Success(filters);
        forall k | IsFirstSymbol(symbols, symbol, k)
          ensures Describes(symbols[k].filters, r.value)
        {
          FirstSymbolIsUnique(symbols, symbol, i, k);
        }
        return;
      }
      i := i + 1;
    }
    return Failure(SymbolNotFound(symbol));
  }

  /** The first entry for a symbol is unique. */
  lemma FirstSymbolIsUnique(symbols: seq<SymbolEntry>, symbol: string, i: int, j: int)
    requires 0 <= i < |symbols| && symbols[i].symbol == symbol
    requires forall k :: 0 <= k < i ==> symbols[k].symbol != symbol
    requires IsFirstSymbol(symbols, symbol, j)
    ensures i == j
  {
  }

  /** A list holding a filter of type `t` has a last one. */
  lemma {:induction false} LastOfTypeExists(fs: seq<FilterEntry>, t: string)
    requires !NoneOfType(fs, t)
    ensures exists k :: IsLastOfType(fs, k, t)
    decreases |fs|
  {
    var n := |fs| - 1;
    if fs[n].filterType == t {
      assert IsLastOfType(fs, n, t);
    } else {
      var init := fs[..n];
      assert !NoneOfType(init, t) by {
        var k :| 0 <= k < |fs| && fs[k].filterType == t;
        assert init[k] == fs[k];
      }
      LastOfTypeExists(init, t);
      var k :| IsLastOfType(init, k, t);
      assert IsLastOfType(fs, k, t);
    }
  }

  /** A filter list determines its constraints uniquely. */
  lemma DescribesIsUnique(fs: seq<FilterEntry>, a: SymbolFilters, b: SymbolFilters)
    requires Describes(fs, a) && Describes(fs, b)
    ensures a == b
  {
    if !NoneOfType(fs, LotSize) {
      LastOfTypeExists(fs, LotSize);
    }
    if !NoneOfType(fs, MinNotional) {
      LastOfTypeExists(fs, MinNotional);
    }
  }

  /** The two shapes `futures_mark_price` may answer with, or anything else. */
  datatype MarkPriceResponse =
    | MarkPriceList(entries: seq<Fields>)
    | MarkPriceObject(fields: Fields)
    | OtherResponse

  /** The response carries a mark price without needing the ticker. */
  predicate HasOwnMarkPrice(res: MarkPriceResponse) {
    || (res.MarkPriceList? && |res.entries| > 0 && "markPrice" in res.entries[0])
    || (res.MarkPriceObject? && "markPrice" in res.fields)
  }

  /**
   `get_mark_price`, given the mark-price response and the ticker response
   that the fallback would fetch. A list answer is read from its first entry
   and never falls back; an object falls back when it has no `markPrice`.
   */
  function GetMarkPrice(res: MarkPriceResponse, ticker: Fields): (r: Result<Decimal>)
    ensures r.Failure? ==> r.error == PriceUnavailable
    ensures HasOwnMarkPrice(res) ==> r.Success?
    ensures res.MarkPriceList? && HasOwnMarkPrice(res) ==> r.value == res.entries[0]["markPrice"]
    ensures res.MarkPriceList? && !HasOwnMarkPrice(res) ==> r.Failure?
    ensures res.MarkPriceObject? && HasOwnMarkPrice(res) ==> r.value == res.fields["markPrice"]
    ensures !res.MarkPriceList? && !HasOwnMarkPrice(res) ==>
              (r.Success? <==> "price" in ticker) && (r.Success? ==> r.value == ticker["price"])
  {
    match res
    case MarkPriceList(entries) =>
      if |entries| > 0 && "markPrice" in entries[0] then Success(entries[0]["markPrice"])
      else Failure(PriceUnavailable)
    case MarkPriceObject(fields) =>
      if "markPrice" in fields then Success(fields["markPrice"])
      else TickerPrice(ticker)
    case OtherResponse =>
      TickerPrice(ticker)
  }

  /** `to_decimal(ticker.get("price"))`: a missing price cannot be converted. */
  function TickerPrice(ticker: Fields): Result<Decimal> {
    if "price" in ticker then Success(ticker["price"]) else Failure(PriceUnavailable)
  }

  /** The ticker is consulted only when the mark-price response lacks a price. */
  lemma TickerOnlyAsFallback(res: MarkPriceResponse, t1: Fields, t2: Fields)
    requires res.MarkPriceList? || HasOwnMarkPrice(res)
    ensures GetMarkPrice(res, t1) == GetMarkPrice(res, t2)
  {
  }

  /** One entry of `futures_account_balance`. */
  datatype BalanceEntry = BalanceEntry(asset: string, fields: Fields)

  const Usdt: string := "USDT"

  /** The available balance of an entry, falling back to its total balance. */
  function AvailableOf(b: BalanceEntry): Decimal {
    FieldOr(b.fields, "availableBalance", FieldOr(b.fields, "balance", Zero))
  }

  /** `balances[i]` is the first entry for `asset`. */
  ghost predicate IsFirstAsset(balances: seq<BalanceEntry>, asset: string, i: int) {
    && 0 <= i < |balances|
    && balances[i].asset == asset
    && forall j :: 0 <= j < i ==> balances[j].asset != asset
  }

  /** `get_usdt_available`: the first USDT entry decides; no entry means zero. */
  function GetUsdtAvailable(balances: seq<BalanceEntry>): (r: Decimal)
    ensures (forall i :: 0 <= i < |balances| ==> balances[i].asset != Usdt) ==> r == Zero
    ensures forall i :: IsFirstAsset(balances, Usdt, i) ==> r == AvailableOf(balances[i])
    decreases |balances|
  {
    if |balances| == 0 then Zero
    else if balances[0].asset == Usdt then AvailableOf(balances[0])
    else
      var rest := balances[1..];
      assert forall i :: IsFirstAsset(balances, Usdt, i) ==> IsFirstAsset(rest, Usdt, i - 1);
      GetUsdtAvailable(rest)
  }
}
