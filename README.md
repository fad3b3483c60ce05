# Portfolio tracker backend: a verified model of its portfolio logic

This project models the deterministic business logic inside the FastAPI
backend of a personal investment tracker (`backend/main.py`). The backend
stores investments (stocks, crypto, mutual funds) with units, buy price,
current price and a currency. It converts dollar amounts to rupees using a
cached USD/INR rate and computes per-holding and portfolio-wide profit and
loss. It refreshes prices from a chain of fallback sources, and it fills in
missing currencies using ticker-suffix rules.

Everything live is lifted out and passed in as a parameter: the exchange rate
sources, the price sources, and the clock, which is integer seconds. Each
source result is an `Option<real>`; "nothing" stands for a failed request, a
missing field or a caught exception. Money is `real`.

Profit and loss is value minus cost, both converted at the cached rate.

Modules (one file each):

- `Wrappers` (`wrappers.dfy`): `Option`, `Result`.
- `Text` (`text.dfy`): `str.upper`, `str.lower`, `str.endswith`.
- `Sources` (`sources.dfy`): `FirstWhere`, the "first acceptable source
  wins" choice shared by the rate refresh and the price fallback chain.
- `CurrencyRules` (`currency_rules.dfy`): the three ticker-suffix and
  asset-type currency rules.
- `Currency` (`currency.dfy`): `convert_to_inr` and the rate cache. The cache
  is a `RateCache` class whose `rate` and `lastUpdated` fields the methods
  update. A pure `Step` function on `CacheState` specifies the update.
- `Prices` (`prices.dfy`): `get_price_with_fallbacks` and
  `get_price_in_native_currency`.
- `Holdings` (`holdings.dfy`): the investment row, `calculate_metrics`, the
  row `create_investment` builds, the partial update, the stale-price
  refresh, and the migration backfill.
- `Stats` (`stats.dfy`): the accumulation loop of `get_portfolio_stats`.
- `Store` (`store.dfy`): a `Portfolio` class holding the table as a
  sequence of rows. Its methods are create, update, price refresh and
  migration.

## Model

| member | source | states |
|---|---|---|
| `Currency.ConvertToInr` | backend/main.py:159-168 | A code that upper-cases to "USD" is multiplied by the rate. "INR" and every other code are returned unchanged. |
| `Currency.ConvertAdditive` | backend/main.py:159-168 | Converting a sum equals summing the conversions of its parts. |
| `Currency.RateCache.constructor` | backend/main.py:52-53 | The cache starts at the fallback rate 83.0 with no timestamp. |
| `Currency.RateCache.GetUsdToInrRate` | backend/main.py:56-85 | The loop with early `break` moves the cache to `Step` of its old state and returns the cached rate. The rate stays inside the sanity band. |
| `Currency.RateCache.ConvertAmount` | backend/main.py:159-168 | Only a USD amount reads the cache, and so may refresh it. For other codes the cache is unchanged. The result is `ConvertToInr` at the cache's rate. |
| `Currency.Step` | backend/main.py:56-85 | The cache changes only on a due refresh, and then to a source's rate that passes the sanity band, stamped with the call's time. |
| `Currency.StepWithinWindowKeepsState` | backend/main.py:61 | With a timestamp at most 3600 s old, the sources are ignored and the state does not change. |
| `Currency.StepTakesFirstAcceptable` | backend/main.py:70-77 | A due refresh stores the rate of the first source strictly between 70 and 100, and stores the current time. |
| `Currency.StepWithoutAcceptableKeepsState` | backend/main.py:70-85 | If no source qualifies, rate and timestamp are unchanged, so a due refresh stays due. |
| `Currency.StepKeepsRateAcceptable` | backend/main.py:73-74 | Refreshes keep the cached rate inside the sanity band (83.0 is already inside it). |
| `Currency.RefreshedCacheHoldsForAnHour` | backend/main.py:61-75 | After a successful refresh, any call within the next hour leaves the state unchanged. |
| `Sources.FirstWhere` | backend/main.py:386-393 | A selected value passes the test and is one of the source results. |
| `Sources.FirstWhereNone` | backend/main.py:386-403 | Nothing is selected exactly when no source result passes the test. |
| `Sources.FirstWhereAt` | backend/main.py:70-77 | The first source that passes is the one selected. |
| `Sources.FirstWhereSome` | backend/main.py:386-393 | A selected value comes from the first passing source. |
| `Prices.FallbackPrice` | backend/main.py:368-403 | A non-zero price is either CoinGecko's answer on the crypto route or a positive answer of one of the stock sources. |
| `Prices.FallbackPriceSpec` | backend/main.py:368-403 | On the crypto route (crypto type or "-USD" ticker), a truthy CoinGecko price is returned as it is. Otherwise the result is the first positive price of Yahoo Simple, Yahoo Search, yfinance and Alpha Vantage, and 0.0 exactly when none is positive. |
| `Prices.FallbackPriceNonNegative` | backend/main.py:372-403 | Unless a truthy CoinGecko answer is taken on the crypto route, the price is never negative. |
| `Prices.PriceWithFallbacks` | backend/main.py:368-403 | The first-match loop with early returns computes exactly `FallbackPrice`. |
| `Prices.NativeQuote` | backend/main.py:492-520 | The currency is INR or USD, and a non-zero price is one of the sources' answers. |
| `Prices.NativeQuoteRoute` | backend/main.py:502-520 | A crypto asset is priced on the crypto route. Other assets are priced as stocks, which still try CoinGecko for "-USD" tickers. The currency is `NativeCurrency`. |
| `Prices.PriceInNativeCurrency` | backend/main.py:492-520 | Returns the `NativeQuote` pair, and its currency is INR or USD. |
| `CurrencyRules.InferCurrency` | backend/main.py:693-702 | A requested currency other than "" or "INR" is kept. Otherwise the result is INR or USD. |
| `CurrencyRules.InferredWhenNotProvided` | backend/main.py:694-702 | With "" or "INR" requested, the result is INR exactly for ".NS"/".BO" tickers and for assets that are neither crypto nor stock. Otherwise it is USD. |
| `CurrencyRules.ExplicitInrOnPlainStockBecomesUsd` | backend/main.py:694-700 | An explicit "INR" on the stock "AAPL" is stored as USD. |
| `CurrencyRules.CryptoOnIndianListing` | backend/main.py:695-698 | For "BTC.NS" of type Crypto, create and backfill give INR (suffix first), but the native price currency is USD. |
| `CurrencyRules.InferAgreesWithNative` | backend/main.py:693-702 | The create-time guess equals the native price currency (lines 502-520) unless the asset is crypto with an Indian suffix. |
| `CurrencyRules.BackfillCurrency` | backend/main.py:860-865 | The backfill is INR exactly for ".NS"/".BO" tickers, and USD otherwise. |
| `CurrencyRules.BackfillAgreesWithNative` | backend/main.py:860-865 | Backfill and native currency (lines 502-520) agree exactly for non-crypto Indian listings and for non-Indian crypto or stock. |
| `CurrencyRules.NativeCurrency` | backend/main.py:502-520 | Crypto gives USD before the suffix is checked. Otherwise a ".NS"/".BO" ticker gives INR, a plain stock USD, and anything else INR. |
| `Holdings.ReturnPercent` | backend/main.py:631 | With positive cost, percent × cost = P/L × 100, and the sign follows the P/L. Otherwise the result is 0. |
| `Holdings.CalculateMetrics` | backend/main.py:615-639 | P/L is value − cost. The percent has the zero guard. The rate is reported, and equals the rate used, exactly when the code is case-sensitively "USD". |
| `Holdings.MetricsContract` | backend/main.py:622-629 | Value and cost are units × price × (the rate for a code that upper-cases to USD, else 1). |
| `Holdings.MetricsIgnoreRateWithoutUsd` | backend/main.py:626-638 | The metrics of a holding whose code does not upper-case to USD do not depend on the rate. |
| `Holdings.LowercaseUsdConvertedButUnreported` | backend/main.py:638 | A holding stored as "usd" is converted at the rate, yet reports no rate. |
| `Holdings.NewInvestment` | backend/main.py:711-723 | The new row has the given id, a non-NULL currency, and all three timestamps equal to now. |
| `Holdings.NewInvestmentContract` | backend/main.py:693-723 | The new row copies the request, takes the native-currency price, and stores the inferred currency. An explicit non-INR currency is kept. |
| `Holdings.ApplySuppliedFields` | backend/main.py:765-766 | Running the `setattr` calls over the supplied fields gives exactly the reference update `Patched`. |
| `Holdings.ApplyUpdate` | backend/main.py:765-768 | The `setattr` loop plus the `updated_at` stamp yields `Patched` with `updatedAt` set to now. |
| `Holdings.PatchedOverwritesOnlySupplied` | backend/main.py:765-766 | A supplied field takes the supplied value. Every other field and column keeps its stored value. |
| `Holdings.PatchedEmptyAndIdempotent` | backend/main.py:765-766 | An empty update changes nothing, and applying an update twice equals applying it once. |
| `Holdings.PatchedCompose` | backend/main.py:765-766 | Two updates in a row equal one update in which the second's fields win. |
| `Holdings.RefreshHolding` | backend/main.py:538-560 | A row changes only if its price was over 900 s old when checked and the fetched price is positive. It then takes that price, the clock read after the fetch (line 550), and the commit time as `updated_at` (the `onupdate` hook of line 48). Its currency changes only from NULL or "" to the price's currency, and a refreshed row whose currency was NULL or "" always gets the price's currency. No other column changes. |
| `Holdings.RefreshChangesExactlyStaleRows` | backend/main.py:538-560 | With the clock read in order, a row changes exactly when it is stale and the price is positive, and its new price time is later than the old one and no later than its `updated_at`. |
| `Holdings.RefreshedHoldingStaysFresh` | backend/main.py:538-550 | A refreshed row is left alone by any refresh that checks it within 900 s of its fetch. |
| `Holdings.RefreshIdempotent` | backend/main.py:538-560 | Refreshing twice with the same clock reads and the same answers equals refreshing once. |
| `Holdings.Backfilled` | backend/main.py:858-866 | After migration every row has a currency. Rows that had one are unchanged. A NULL currency gets the backfill, and the commit stamps `updated_at` (the `onupdate` hook of line 48). |
| `Stats.GetPortfolioStats` | backend/main.py:808-841 | It succeeds exactly when every conviction level is High, Medium or Low. Otherwise it reports the first unknown level (the KeyError). On success: total cost and value are the converted sums, P/L is their difference, the return has the zero guard, each counter counts its level, and the holdings count is the number of rows. |
| `Stats.ConvictionCountsPartition` | backend/main.py:810-827 | When every level is known, the three counters sum to the number of holdings. |
| `Stats.TotalsAppend` | backend/main.py:815-824 | The totals of a concatenation are the sums of the totals of the parts. |
| `Stats.TotalsPermutationInvariant` | backend/main.py:806-824 | The totals do not depend on the (unspecified) order in which the rows are returned. |
| `Stats.PortfolioPnlIsSumOfHoldingPnl` | backend/main.py:830 | The portfolio's P/L equals the sum of the per-holding P/L that `calculate_metrics` reports (lines 615-639). |
| `Stats.TotalsIgnoreRateWithoutUsd` | backend/main.py:815-824 | Without USD holdings the totals do not depend on the rate. |
| `Stats.TotalsNonNegative` | backend/main.py:815-824 | Non-negative units, prices and rate give non-negative totals. |
| `Store.FindById` | backend/main.py:760-762 | Returns the position of the first row with the id, or nothing exactly when no row has it. |
| `Store.Portfolio.MigrateExistingData` | backend/main.py:854-869 | Every row becomes `Backfilled` of itself at the commit time, so backfilled rows are stamped. Afterwards every currency is non-NULL, and ids stay unique. |
| `Store.Portfolio.CreateInvestment` | backend/main.py:688-727 | Appends exactly `NewInvestment`, keeps ids unique, and keeps every currency non-NULL. |
| `Store.Portfolio.UpdateInvestment` | backend/main.py:755-770 | With an unknown id: NotFound, and the table is unchanged. Otherwise only the found row becomes the patched, stamped row, which is returned. |
| `Store.Portfolio.UpdateAllPrices` | backend/main.py:529-560 | Every row becomes `RefreshHolding` of itself with its own age-check time, its own post-fetch time, its own source answers, and the job's commit time. Ids stay unique, and non-NULL currencies stay non-NULL. |

## Left out

- HTTP fetchers for rates and prices (backend/main.py:88-156, 236-366): they are network calls with JSON parsing. Their results are parameters, and an exception counts as no result.
- The database engine, sessions, commit and rollback: the table is a sequence of rows, and each method's change is one atomic step.
- FastAPI app, CORS, `root`, `health_check`, `get_investments`, `delete_investment`, `refresh_prices` and the `InvestmentResponse` assembly: these are framework plumbing or field copying outside the modelled logic.
- The background loop, `lifespan`, `asyncio.sleep` and the 0.1 s `time.sleep` between price sources: these are scheduling, not logic.
- `get_crypto_price`, `get_mutual_fund_price`, `get_stock_price` and both earlier `get_price` definitions (backend/main.py:406-489): nothing modelled calls them. `get_crypto_price` is called only by the second `get_price` (line 486), which lines 522-526 replace. `get_mutual_fund_price` is never called. `get_stock_price` is called only from those dead definitions (lines 472, 480, 488). The first `get_price` (lines 428-437) is replaced too.
- Logging with `print`, and environment variables (the Fixer and Alpha Vantage keys only change what a source returns).
- IEEE floating point: amounts are exact reals, so rounding and NaN are not captured.
- `Store.Portfolio.UpdateAllPrices`: the clock is whole seconds, so fractional seconds are not captured. Every clock read of the job is its own parameter: each row's age check (line 538), each row's post-fetch stamp (line 550), and the commit. The model does not bound the times between those reads, which depend on how long the fetches take (up to 8 s timeouts per HTTP source). `Holdings.RefreshChangesExactlyStaleRows` only assumes that the reads come in order.
- `Text.Upper`, `Text.Lower`: case mapping covers ASCII letters only. Python also maps other Unicode letters, and some change length.
- `Holdings.CalculateMetrics`: requires a non-NULL currency. With NULL the source raises AttributeError at the `.upper()` of line 161. The row can still be NULL in the source: `update_investment` with an explicit `"currency": null` writes it (lines 765-766) and commits it (line 769) before its own `calculate_metrics` call raises (line 773). The model leaves that path out (see `Store.Portfolio.UpdateInvestment` below). It takes the rate as a parameter. The source calls the cache again inside each conversion, which can refetch if an earlier refresh in the same request failed.
- `Stats.GetPortfolioStats`: uses one rate for the whole request, for the same reason. It requires every currency to be non-NULL. A NULL currency would raise AttributeError in `.upper()`. In the model `Store.Portfolio.MigrateExistingData` establishes that condition and the other store methods preserve it, only because explicit `null` updates are left out. In the source a committed NULL currency makes every `get_portfolio_stats` call (line 818) and `get_investments` call raise. This lasts until `update_all_prices` fills the currency (lines 553-554, only for a stale row with a positive price) or the next start-up migration runs.
- `Store.Portfolio.UpdateInvestment`: a field explicitly sent as JSON `null` is not modelled. Every supplied field carries a value. So the model never stores a NULL currency through an update, while the source does (committed at line 769, before the AttributeError at line 773).
- `Store.Portfolio.CreateInvestment`: the database assigns the id. Here it is a parameter that no existing row uses.
- Pydantic type validation and coercion of request bodies is not modelled.
