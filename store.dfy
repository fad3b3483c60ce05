/**
 * The `investments` table and the endpoints and jobs that change it:
 * `create_investment`, `update_investment`, the background
 * `update_all_prices` and the startup `migrate_existing_data`. Each commits
 * its changes as one transaction; the table is a sequence of rows that the
 * methods replace.
 */
module Store {
  import opened Wrappers
  import opened Text
  import opened Prices
  import opened Holdings
  import opened Stats

  /** The primary key: no two rows share an `id`. */
  predicate UniqueIds(rows: seq<Investment>)
  {
    forall i, j :: 0 <= i < j < |rows| ==> rows[i].id != rows[j].id
  }

  /** `query(Investment).filter(Investment.id == id).first()`, as a position. */
  function FindById(rows: seq<Investment>, id: int): (r: Option<nat>)
    ensures r.Some? ==> r.value < |rows| && rows[r.value].id == id
                        && forall j :: 0 <= j < r.value ==> rows[j].id != id
    ensures r.None? ==> forall j :: 0 <= j < |rows| ==> rows[j].id != id
  {
    if rows == [] then None
    else if rows[0].id == id then Some(0)
    else match FindById(rows[1..], id)
      case None => None
      case Some(k) => Some(k + 1)
  }

  /** HTTP 404 "Investment not found". */
  datatype ApiError = NotFound

  class Portfolio {
    var investments: seq<Investment>

    ghost predicate Valid()
      reads this
    {
      UniqueIds(investments)
    }

    constructor (rows: seq<Investment>)
      requires UniqueIds(rows)
      ensures Valid() && investments == rows
    {
      investments := rows;
    }

    /**
     * `migrate_existing_data`, committed at `committedAt`: every row without
     * a currency gets the backfilled one, and the commit stamps it.
     */
    method MigrateExistingData(committedAt: int)
      requires Valid()
      modifies this
      ensures Valid() && CurrenciesKnown(investments)
      ensures |investments| == |old(investments)|
      ensures forall i :: 0 <= i < |investments| ==> investments[i] == Backfilled(old(investments)[i], committedAt)
    {
      var i := 0;
      while i < |investments|
        invariant 0 <= i <= |investments| == |old(investments)|
        invariant forall j :: 0 <= j < i ==> investments[j] == Backfilled(old(investments)[j], committedAt)
        invariant forall j :: i <= j < |investments| ==> investments[j] == old(investments)[j]
        invariant forall j :: 0 <= j < |investments| ==> investments[j].id == old(investments)[j].id
      {
        var inv := investments[i];
        if inv.currency.None? {
          var currency;
          if EndsWith(inv.ticker, ".NS") || EndsWith(inv.ticker, ".BO") {
            currency := "INR";
          } else if Lower(inv.assetType) == "crypto" {
            currency := "USD";
          } else {
            currency := "USD";
          }
          // the `onupdate` hook of `updated_at` fires for the changed row at the commit
          investments := investments[i := inv.(currency := Some(currency), updatedAt := committedAt)];
        }
        i := i + 1;
      }
    }

    /**
     * `create_investment`: the row gets the inferred currency, the price
     * fetched in its native currency and the current time; `id` is the key
     * the database assigns.
     */
    method CreateInvestment(req: InvestmentCreate, id: int, now: int, feeds: PriceFeeds) returns (row: Investment)
      requires Valid()
      requires forall i :: 0 <= i < |investments| ==> investments[i].id != id
      modifies this
      ensures Valid()
      ensures row == NewInvestment(req, id, now, feeds)
      ensures investments == old(investments) + [row]
      ensures CurrenciesKnown(old(investments)) ==> CurrenciesKnown(investments)
    {
      var currency := req.currency;
      if currency == "" || currency == "INR" {
        if EndsWith(req.ticker, ".NS") || EndsWith(req.ticker, ".BO") {
          currency := "INR";
        } else if Lower(req.assetType) == "crypto" {
          currency := "USD";
        } else if Lower(req.assetType) == "stock" {
          currency := "USD";
        } else {
          currency := "INR";
        }
      }
      var currentPrice, priceCurrency := PriceInNativeCurrency(req.assetType, req.ticker, feeds);
      row := Investment(id, req.assetType, req.ticker, req.name, req.units, req.avgBuyPrice,
                        currentPrice, Some(currency), req.investmentThesis, req.convictionLevel,
                        req.purchaseDate, now, now, now);
      investments := investments + [row];
    }

    /**
     * `update_investment`: 404 when no row has the id; otherwise the supplied
     * fields are written to that row, which is stamped with the time and
     * returned. No other row changes.
     */
    method UpdateInvestment(id: int, u: InvestmentUpdate, now: int) returns (res: Result<Investment, ApiError>)
      requires Valid()
      modifies this
      ensures Valid()
      ensures FindById(old(investments), id).None? ==> res == Failure(NotFound) && investments == old(investments)
      ensures FindById(old(investments), id).Some? ==>
        var k := FindById(old(investments), id).value;
        && investments == old(investments)[k := Patched(old(investments)[k], u).(updatedAt := now)]
        && res == Success(investments[k])
      ensures CurrenciesKnown(old(investments)) ==> CurrenciesKnown(investments)
    {
      var found := FindById(investments, id);
      if found.None? {
        return Failure(NotFound);
      }
      var k := found.value;
      var updated := ApplyUpdate(investments[k], u, now);
      investments := investments[k := updated];
      res := Success(updated);
    }

    /**
     * `update_all_prices`. For row `i`, `checkedAt[i]` is the clock when its
     * age is tested, `fetchedAt[i]` the clock after the price sources have
     * answered, and `feeds[i]` what they answered; `committedAt` is the
     * clock at the commit, when the `onupdate` hook stamps the changed rows.
     * Only rows whose price is stale are fetched for.
     */
    method UpdateAllPrices(checkedAt: seq<int>, fetchedAt: seq<int>, committedAt: int, feeds: seq<PriceFeeds>)
      requires Valid()
      requires |checkedAt| == |fetchedAt| == |feeds| == |investments|
      modifies this
      ensures Valid()
      ensures |investments| == |old(investments)|
      ensures forall i :: 0 <= i < |investments| ==>
        investments[i] == RefreshHolding(old(investments)[i], checkedAt[i], fetchedAt[i], committedAt, feeds[i])
      ensures CurrenciesKnown(old(investments)) ==> CurrenciesKnown(investments)
    {
      var i := 0;
      while i < |investments|
        invariant 0 <= i <= |investments| == |old(investments)|
        invariant forall j :: 0 <= j < i ==>
          investments[j] == RefreshHolding(old(investments)[j], checkedAt[j], fetchedAt[j], committedAt, feeds[j])
        invariant forall j :: i <= j < |investments| ==> investments[j] == old(investments)[j]
        invariant forall j :: 0 <= j < |investments| ==> investments[j].id == old(investments)[j].id
        invariant CurrenciesKnown(old(investments)) ==> CurrenciesKnown(investments)
      {
        var inv := investments[i];
        if checkedAt[i] - inv.lastPriceUpdate > StaleSeconds {
          var newPrice, priceCurrency := PriceInNativeCurrency(inv.assetType, inv.ticker, feeds[i]);
          if newPrice > 0.0 {
            var currency := inv.currency;
            if inv.currency.None? || inv.currency.value == "" {
              currency := Some(priceCurrency);
            }
            // the `onupdate` hook of `updated_at` fires for the changed row at the commit
            investments := investments[i := inv.(currentPrice := newPrice, lastPriceUpdate := fetchedAt[i],
                                                 currency := currency, updatedAt := committedAt)];
          }
        }
        i := i + 1;
      }
    }
  }
}
