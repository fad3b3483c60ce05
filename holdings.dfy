/**
 * One stored investment (a row of the `investments` table) and the
 * per-holding logic: its rupee metrics, the row `create_investment` builds,
 * the partial update of `update_investment`, the price refresh of
 * `update_all_prices` and the currency backfill of `migrate_existing_data`.
 * Timestamps are integer seconds.
 */
module Holdings {
  import opened Wrappers
  import opened Text
  import opened CurrencyRules
  import opened Currency
  import opened Prices

  /** A row. `currency` and `investmentThesis` are nullable columns. */
  datatype Investment = Investment(
    id: int,
    assetType: string,
    ticker: string,
    name: string,
    units: real,
    avgBuyPrice: real,
    currentPrice: real,
    currency: Option<string>,
    investmentThesis: Option<string>,
    convictionLevel: string,
    purchaseDate: int,
    lastPriceUpdate: int,
    createdAt: int,
    updatedAt: int)

  /** Amount paid, in rupees. */
  function InvestedInr(h: Investment, usdToInr: real): real
    requires h.currency.Some?
  {
    ConvertToInr(h.units * h.avgBuyPrice, h.currency.value, usdToInr)
  }

  /** Value at the current price, in rupees. */
  function ValueInr(h: Investment, usdToInr: real): real
    requires h.currency.Some?
  {
    ConvertToInr(h.units * h.currentPrice, h.currency.value, usdToInr)
  }

  /** Return as a percentage of the amount invested, 0 when nothing positive was invested. */
  function ReturnPercent(pnl: real, invested: real): (r: real)
    ensures invested > 0.0 ==> r * invested == pnl * 100.0
    ensures invested <= 0.0 ==> r == 0.0
    ensures invested > 0.0 ==> (r > 0.0 <==> pnl > 0.0) && (r < 0.0 <==> pnl < 0.0)
  {
    if invested > 0.0 then pnl / invested * 100.0 else 0.0
  }

  /** The dictionary `calculate_metrics` returns. */
  datatype Metrics = Metrics(
    totalValueInr: real,
    totalInvestedInr: real,
    unrealizedPnlInr: real,
    unrealizedPnlPercent: real,
    usdToInrRate: Option<real>)

  /**
   * `calculate_metrics` with the rate the cache returned. A NULL currency
   * would make `convert_to_inr` fail; no stored row has one after migration.
   * P/L is value minus cost, the percentage has the zero guard, and the rate
   * is reported only for the exact code "USD".
   */
  function CalculateMetrics(h: Investment, usdToInr: real): (m: Metrics)
    requires h.currency.Some?
    ensures m.unrealizedPnlInr == m.totalValueInr - m.totalInvestedInr
    ensures m.totalInvestedInr > 0.0 ==> m.unrealizedPnlPercent * m.totalInvestedInr == m.unrealizedPnlInr * 100.0
    ensures m.totalInvestedInr <= 0.0 ==> m.unrealizedPnlPercent == 0.0
    ensures m.usdToInrRate.Some? <==> h.currency.value == "USD"
    ensures m.usdToInrRate.Some? ==> m.usdToInrRate.value == usdToInr
  {
    var value := ValueInr(h, usdToInr);
    var invested := InvestedInr(h, usdToInr);
    var pnl := value - invested;
    Metrics(value, invested, pnl, ReturnPercent(pnl, invested),
            if h.currency.value == "USD" then Some(usdToInr) else None)
  }

  /**
   * Value and cost are in rupees: the row's amounts times the rate for
   * dollars (in any letter case) and times one for every other code.
   */
  lemma MetricsContract(h: Investment, usdToInr: real)
    requires h.currency.Some?
    ensures var m := CalculateMetrics(h, usdToInr);
      var factor := if Upper(h.currency.value) == "USD" then usdToInr else 1.0;
      && m.totalValueInr == h.units * h.currentPrice * factor
      && m.totalInvestedInr == h.units * h.avgBuyPrice * factor
  {
  }

  /** For holdings in any code other than dollars the metrics do not depend on the exchange rate. */
  lemma MetricsIgnoreRateWithoutUsd(h: Investment, rate1: real, rate2: real)
    requires h.currency.Some? && Upper(h.currency.value) != "USD"
    ensures CalculateMetrics(h, rate1) == CalculateMetrics(h, rate2)
  {
    assert Upper("USD") == "USD";
  }

  /**
   * Conversion upper-cases the code but the reported rate compares it
   * exactly: a holding stored as "usd" is converted at the rate and yet
   * reports no rate.
   */
  lemma LowercaseUsdConvertedButUnreported(h: Investment, usdToInr: real)
    requires h.currency == Some("usd")
    ensures CalculateMetrics(h, usdToInr).totalValueInr == h.units * h.currentPrice * usdToInr
    ensures CalculateMetrics(h, usdToInr).usdToInrRate == None
  {
    assert Upper("usd") == "USD";
  }

  // ---------------------------------------------------------------------
  // create_investment

  /** The request body of `POST /api/investments`. */
  datatype InvestmentCreate = InvestmentCreate(
    assetType: string,
    ticker: string,
    name: string,
    units: real,
    avgBuyPrice: real,
    currency: string,
    investmentThesis: Option<string>,
    convictionLevel: string,
    purchaseDate: int)

  /**
   * The row `create_investment` adds, `id` being the key the database
   * assigns. The stored currency is the inferred one; the currency that comes
   * with the fetched price is not used.
   */
  function NewInvestment(req: InvestmentCreate, id: int, now: int, feeds: PriceFeeds): (r: Investment)
    ensures r.currency.Some? && r.id == id
    ensures r.lastPriceUpdate == now && r.createdAt == now && r.updatedAt == now
  {
    Investment(id, req.assetType, req.ticker, req.name, req.units, req.avgBuyPrice,
               NativeQuote(req.assetType, req.ticker, feeds).0,
               Some(InferCurrency(req.currency, req.ticker, req.assetType)),
               req.investmentThesis, req.convictionLevel, req.purchaseDate, now, now, now)
  }

  /** The new row copies the request, prices it in its native currency and stores the inferred currency. */
  lemma NewInvestmentContract(req: InvestmentCreate, id: int, now: int, feeds: PriceFeeds)
    ensures var r := NewInvestment(req, id, now, feeds);
      && r.assetType == req.assetType && r.ticker == req.ticker && r.name == req.name
      && r.units == req.units && r.avgBuyPrice == req.avgBuyPrice
      && r.investmentThesis == req.investmentThesis && r.convictionLevel == req.convictionLevel
      && r.purchaseDate == req.purchaseDate
      && r.currentPrice == NativeQuote(req.assetType, req.ticker, feeds).0
      && r.currency == Some(InferCurrency(req.currency, req.ticker, req.assetType))
      && (req.currency != "" && req.currency != "INR" ==> r.currency == Some(req.currency))
  {
  }

  // ---------------------------------------------------------------------
  // update_investment

  /**
   * The request body of `PUT /api/investments/{id}`: `Some` marks a field
   * the client supplied.
   */
  datatype InvestmentUpdate = InvestmentUpdate(
    units: Option<real>,
    avgBuyPrice: Option<real>,
    currency: Option<string>,
    investmentThesis: Option<string>,
    convictionLevel: Option<string>)

  /** One entry of `investment_update.dict(exclude_unset=True)`. */
  datatype Field =
    | Units(units: real)
    | AvgBuyPrice(price: real)
    | CurrencyCode(code: string)
    | Thesis(text: string)
    | Conviction(level: string)

  function Entry<T>(o: Option<T>, f: T -> Field): seq<Field>
  {
    if o.Some? then [f(o.value)] else []
  }

  /** The supplied fields, in declaration order. */
  function SuppliedFields(u: InvestmentUpdate): seq<Field>
  {
    Entry(u.units, x => Units(x))
    + Entry(u.avgBuyPrice, x => AvgBuyPrice(x))
    + Entry(u.currency, x => CurrencyCode(x))
    + Entry(u.investmentThesis, x => Thesis(x))
    + Entry(u.convictionLevel, x => Conviction(x))
  }

  /** `setattr(row, field, value)` */
  function SetField(h: Investment, f: Field): Investment
  {
    match f
    case Units(x) => h.(units := x)
    case AvgBuyPrice(x) => h.(avgBuyPrice := x)
    case CurrencyCode(x) => h.(currency := Some(x))
    case Thesis(x) => h.(investmentThesis := Some(x))
    case Conviction(x) => h.(convictionLevel := x)
  }

  /** The `setattr` calls applied in order. */
  function ApplyFields(h: Investment, fs: seq<Field>): Investment
    decreases |fs|
  {
    if fs == [] then h else ApplyFields(SetField(h, fs[0]), fs[1..])
  }

  lemma {:induction false} ApplyFieldsAppend(h: Investment, a: seq<Field>, b: seq<Field>)
    ensures ApplyFields(h, a + b) == ApplyFields(ApplyFields(h, a), b)
    decreases |a|
  {
    if a == [] {
      assert a + b == b;
    } else {
      assert (a + b)[0] == a[0] && (a + b)[1..] == a[1..] + b;
      ApplyFieldsAppend(SetField(h, a[0]), a[1..], b);
    }
  }

  /** Reference definition of a partial update: each supplied field is overwritten, nothing else. */
  function Patched(h: Investment, u: InvestmentUpdate): Investment
  {
    h.(units := u.units.GetOr(h.units),
       avgBuyPrice := u.avgBuyPrice.GetOr(h.avgBuyPrice),
       currency := if u.currency.Some? then Some(u.currency.value) else h.currency,
       investmentThesis := if u.investmentThesis.Some? then Some(u.investmentThesis.value) else h.investmentThesis,
       convictionLevel := u.convictionLevel.GetOr(h.convictionLevel))
  }

  /** The `setattr` loop over the supplied fields performs exactly the reference update. */
  lemma ApplySuppliedFields(h: Investment, u: InvestmentUpdate)
    ensures ApplyFields(h, SuppliedFields(u)) == Patched(h, u)
  {
    var e1 := Entry(u.units, x => Units(x));
    var e2 := Entry(u.avgBuyPrice, x => AvgBuyPrice(x));
    var e3 := Entry(u.currency, x => CurrencyCode(x));
    var e4 := Entry(u.investmentThesis, x => Thesis(x));
    var e5 := Entry(u.convictionLevel, x => Conviction(x));
    assert SuppliedFields(u) == e1 + e2 + e3 + e4 + e5;
    ApplyFieldsAppend(h, e1 + e2 + e3 + e4, e5);
    ApplyFieldsAppend(h, e1 + e2 + e3, e4);
    ApplyFieldsAppend(h, e1 + e2, e3);
    ApplyFieldsAppend(h, e1, e2);
  }

  /** `update_investment` on a found row: the `setattr` loop, then the `updated_at` stamp. */
  method ApplyUpdate(h: Investment, u: InvestmentUpdate, now: int) returns (r: Investment)
    ensures r == Patched(h, u).(updatedAt := now)
  {
    var fields := SuppliedFields(u);
    r := h;
    var i := 0;
    while i < |fields|
      invariant 0 <= i <= |fields|
      invariant ApplyFields(r, fields[i..]) == ApplyFields(h, fields)
    {
      assert fields[i..][1..] == fields[i + 1..];
      r := SetField(r, fields[i]);
      i := i + 1;
    }
    ApplySuppliedFields(h, u);
    r := r.(updatedAt := now);
  }

  /** A supplied field takes the supplied value; every field that was not supplied, and every other column, keeps its stored value. */
  lemma PatchedOverwritesOnlySupplied(h: Investment, u: InvestmentUpdate)
    ensures var r := Patched(h, u);
      && (u.units.Some? ==> r.units == u.units.value) && (u.units.None? ==> r.units == h.units)
      && (u.avgBuyPrice.Some? ==> r.avgBuyPrice == u.avgBuyPrice.value) && (u.avgBuyPrice.None? ==> r.avgBuyPrice == h.avgBuyPrice)
      && (u.currency.Some? ==> r.currency == Some(u.currency.value)) && (u.currency.None? ==> r.currency == h.currency)
      && (u.investmentThesis.Some? ==> r.investmentThesis == Some(u.investmentThesis.value))
      && (u.investmentThesis.None? ==> r.investmentThesis == h.investmentThesis)
      && (u.convictionLevel.Some? ==> r.convictionLevel == u.convictionLevel.value)
      && (u.convictionLevel.None? ==> r.convictionLevel == h.convictionLevel)
      && r.id == h.id && r.assetType == h.assetType && r.ticker == h.ticker && r.name == h.name
      && r.currentPrice == h.currentPrice && r.purchaseDate == h.purchaseDate
      && r.lastPriceUpdate == h.lastPriceUpdate && r.createdAt == h.createdAt && r.updatedAt == h.updatedAt
  {
  }

  const NoChanges: InvestmentUpdate := InvestmentUpdate(None, None, None, None, None)

  /** An empty update changes nothing; applying the same update twice is the same as once. */
  lemma PatchedEmptyAndIdempotent(h: Investment, u: InvestmentUpdate)
    ensures Patched(h, NoChanges) == h
    ensures Patched(Patched(h, u), u) == Patched(h, u)
  {
  }

  /** Two updates in a row: the fields of the second win, the rest come from the first. */
  function Then(u1: InvestmentUpdate, u2: InvestmentUpdate): InvestmentUpdate
  {
    InvestmentUpdate(
      if u2.units.Some? then u2.units else u1.units,
      if u2.avgBuyPrice.Some? then u2.avgBuyPrice else u1.avgBuyPrice,
      if u2.currency.Some? then u2.currency else u1.currency,
      if u2.investmentThesis.Some? then u2.investmentThesis else u1.investmentThesis,
      if u2.convictionLevel.Some? then u2.convictionLevel else u1.convictionLevel)
  }

  lemma PatchedCompose(h: Investment, u1: InvestmentUpdate, u2: InvestmentUpdate)
    ensures Patched(Patched(h, u1), u2) == Patched(h, Then(u1, u2))
  {
  }

  // ---------------------------------------------------------------------
  // update_all_prices

  const StaleSeconds: int := 900

  /** The price is more than fifteen minutes old. */
  predicate IsStale(h: Investment, now: int)
  {
    now - h.lastPriceUpdate > StaleSeconds
  }

  /** `not investment.currency`: NULL or the empty string. */
  predicate CurrencyUnknown(c: Option<string>)
  {
    c.None? || c.value == ""
  }

  /**
   * One holding after the background refresh. The job reads the clock three
   * times for it: `checkedAt` when it tests the age of the price,
   * `fetchedAt` after the price sources have answered, and `committedAt`
   * when the transaction commits and the `onupdate` hook of `updated_at`
   * stamps every changed row. A holding changes only when its price is
   * stale and the fetched price is positive; then it takes the price, the
   * fetch time and the commit time, and takes the price's currency only
   * when it had none. No other column changes.
   */
  function RefreshHolding(h: Investment, checkedAt: int, fetchedAt: int, committedAt: int, feeds: PriceFeeds): (r: Investment)
    ensures var (price, priceCurrency) := NativeQuote(h.assetType, h.ticker, feeds);
      && (r != h ==> IsStale(h, checkedAt) && price > 0.0)
      && (IsStale(h, checkedAt) && price > 0.0 ==>
            r.currentPrice == price && r.lastPriceUpdate == fetchedAt && r.updatedAt == committedAt)
      && (r.currency != h.currency ==> CurrencyUnknown(h.currency) && r.currency == Some(priceCurrency))
      && (IsStale(h, checkedAt) && price > 0.0 && CurrencyUnknown(h.currency) ==> r.currency == Some(priceCurrency))
      && (!CurrencyUnknown(h.currency) ==> r.currency == h.currency)
      && r.(currentPrice := h.currentPrice, lastPriceUpdate := h.lastPriceUpdate,
            currency := h.currency, updatedAt := h.updatedAt) == h
  {
    if IsStale(h, checkedAt) then
      var (price, priceCurrency) := NativeQuote(h.assetType, h.ticker, feeds);
      if price > 0.0 then
        h.(currentPrice := price,
           lastPriceUpdate := fetchedAt,
           currency := if CurrencyUnknown(h.currency) then Some(priceCurrency) else h.currency,
           updatedAt := committedAt)
      else h
    else h
  }

  /**
   * With the clock read in order, a holding changes exactly when its price
   * is stale and the fetched price is positive, and a changed holding's new
   * price time is later than the old one and no later than its commit stamp.
   */
  lemma RefreshChangesExactlyStaleRows(h: Investment, checkedAt: int, fetchedAt: int, committedAt: int, feeds: PriceFeeds)
    requires checkedAt <= fetchedAt <= committedAt
    ensures var r := RefreshHolding(h, checkedAt, fetchedAt, committedAt, feeds);
      && (r != h <==> IsStale(h, checkedAt) && NativeQuote(h.assetType, h.ticker, feeds).0 > 0.0)
      && (r != h ==> h.lastPriceUpdate < r.lastPriceUpdate <= r.updatedAt)
  {
  }

  /** A refreshed holding is left alone by any refresh that checks within the following fifteen minutes. */
  lemma RefreshedHoldingStaysFresh(h: Investment, checkedAt: int, fetchedAt: int, committedAt: int, feeds: PriceFeeds,
                                   later: int, fetched': int, committed': int, feeds': PriceFeeds)
    requires RefreshHolding(h, checkedAt, fetchedAt, committedAt, feeds) != h
    requires later - fetchedAt <= StaleSeconds
    ensures var r := RefreshHolding(h, checkedAt, fetchedAt, committedAt, feeds);
      RefreshHolding(r, later, fetched', committed', feeds') == r
  {
  }

  /**
   * Refreshing twice with the same clock reads and the same answers is the
   * same as once, when the price is fetched no earlier than its age is checked.
   */
  lemma RefreshIdempotent(h: Investment, checkedAt: int, fetchedAt: int, committedAt: int, feeds: PriceFeeds)
    requires checkedAt <= fetchedAt
    ensures var r := RefreshHolding(h, checkedAt, fetchedAt, committedAt, feeds);
      RefreshHolding(r, checkedAt, fetchedAt, committedAt, feeds) == r
  {
  }

  // ---------------------------------------------------------------------
  // migrate_existing_data

  /**
   * A row after the startup migration committed at `committedAt`: a NULL
   * currency is backfilled and the `onupdate` hook stamps `updated_at`;
   * a row that had a currency is untouched.
   */
  function Backfilled(h: Investment, committedAt: int): (r: Investment)
    ensures r.currency.Some?
    ensures h.currency.Some? ==> r == h
    ensures h.currency.None? ==>
      r == h.(currency := Some(BackfillCurrency(h.ticker, h.assetType)), updatedAt := committedAt)
  {
    if h.currency.None? then
      h.(currency := Some(BackfillCurrency(h.ticker, h.assetType)), updatedAt := committedAt)
    else h
  }
}
