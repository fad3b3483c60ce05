/**
 * `get_portfolio_stats`: one pass over all stored investments accumulating
 * rupee cost and value and counting conviction levels. A conviction level
 * other than "High", "Medium" or "Low" is a missing dictionary key, which
 * aborts the request.
 */
module Stats {
  import opened Wrappers
  import opened Text
  import opened Holdings

  const ConvictionLevels: set<string> := {"High", "Medium", "Low"}

  /** Every row has a currency other than NULL (true of the table once the migration has run). */
  predicate CurrenciesKnown(hs: seq<Investment>)
  {
    forall i :: 0 <= i < |hs| ==> hs[i].currency.Some?
  }

  /** Sum of the rupee cost of every holding. */
  function TotalInvested(hs: seq<Investment>, usdToInr: real): real
    requires CurrenciesKnown(hs)
    decreases |hs|
  {
    if hs == [] then 0.0
    else TotalInvested(hs[..|hs| - 1], usdToInr) + InvestedInr(hs[|hs| - 1], usdToInr)
  }

  /** Sum of the rupee value of every holding at its current price. */
  function TotalValue(hs: seq<Investment>, usdToInr: real): real
    requires CurrenciesKnown(hs)
    decreases |hs|
  {
    if hs == [] then 0.0
    else TotalValue(hs[..|hs| - 1], usdToInr) + ValueInr(hs[|hs| - 1], usdToInr)
  }

  /** Number of holdings whose conviction level is exactly `level`. */
  function CountLevel(hs: seq<Investment>, level: string): nat
    decreases |hs|
  {
    if hs == [] then 0
    else CountLevel(hs[..|hs| - 1], level) + (if hs[|hs| - 1].convictionLevel == level then 1 else 0)
  }

  /** The `PortfolioStats` response. */
  datatype PortfolioStats = PortfolioStats(
    totalInvested: real,
    currentValue: real,
    netReturnPercent: real,
    totalUnrealizedPnl: real,
    highConvictionCount: nat,
    mediumConvictionCount: nat,
    lowConvictionCount: nat,
    totalHoldings: nat)

  /** The first holding whose conviction level is not a key of the counter dictionary. */
  datatype StatsError = UnknownConviction(index: nat, level: string)

  /**
   * `get_portfolio_stats` with the rate the cache returned. The currency of
   * every stored row is present after migration.
   */
  method GetPortfolioStats(hs: seq<Investment>, usdToInr: real) returns (res: Result<PortfolioStats, StatsError>)
    requires CurrenciesKnown(hs)
    ensures res.Success? <==> forall i :: 0 <= i < |hs| ==> hs[i].convictionLevel in ConvictionLevels
    ensures res.Failure? ==>
      var k := res.error.index;
      && k < |hs| && res.error.level == hs[k].convictionLevel && res.error.level !in ConvictionLevels
      && forall j :: 0 <= j < k ==> hs[j].convictionLevel in ConvictionLevels
    ensures res.Success? ==>
      var s := res.value;
      && s.totalInvested == TotalInvested(hs, usdToInr)
      && s.currentValue == TotalValue(hs, usdToInr)
      && s.totalUnrealizedPnl == s.currentValue - s.totalInvested
      && s.netReturnPercent == ReturnPercent(s.totalUnrealizedPnl, s.totalInvested)
      && s.highConvictionCount == CountLevel(hs, "High")
      && s.mediumConvictionCount == CountLevel(hs, "Medium")
      && s.lowConvictionCount == CountLevel(hs, "Low")
      && s.totalHoldings == |hs|
  {
    var totalInvestedInr := 0.0;
    var currentValueInr := 0.0;
    var convictionCounts: map<string, nat> := map["High" := 0, "Medium" := 0, "Low" := 0];
    var i := 0;
    while i < |hs|
      invariant 0 <= i <= |hs|
      invariant totalInvestedInr == TotalInvested(hs[..i], usdToInr)
      invariant currentValueInr == TotalValue(hs[..i], usdToInr)
      invariant CountersMatch(convictionCounts, hs[..i])
      invariant forall j :: 0 <= j < i ==> hs[j].convictionLevel in ConvictionLevels
    {
      var h := hs[i];
      PrefixStep(hs, i, usdToInr);
      totalInvestedInr := totalInvestedInr + InvestedInr(h, usdToInr);
      currentValueInr := currentValueInr + ValueInr(h, usdToInr);
      if h.convictionLevel !in convictionCounts {
        return Failure(UnknownConviction(i, h.convictionLevel));
      }
      CountersStep(convictionCounts, hs, i);
      convictionCounts := convictionCounts[h.convictionLevel := convictionCounts[h.convictionLevel] + 1];
      i := i + 1;
    }
    assert hs[..|hs|] == hs;
    var pnl := currentValueInr - totalInvestedInr;
    var netReturn := if totalInvestedInr > 0.0 then pnl / totalInvestedInr * 100.0 else 0.0;
    res := Success(PortfolioStats(totalInvestedInr, currentValueInr, netReturn, pnl,
                                  convictionCounts["High"], convictionCounts["Medium"], convictionCounts["Low"],
                                  |hs|));
  }

  /** Extending a prefix by one holding adds that holding to each total and counter. */
  lemma PrefixStep(hs: seq<Investment>, i: int, usdToInr: real)
    requires CurrenciesKnown(hs) && 0 <= i < |hs|
    ensures CurrenciesKnown(hs[..i]) && CurrenciesKnown(hs[..i + 1])
    ensures TotalInvested(hs[..i + 1], usdToInr) == TotalInvested(hs[..i], usdToInr) + InvestedInr(hs[i], usdToInr)
    ensures TotalValue(hs[..i + 1], usdToInr) == TotalValue(hs[..i], usdToInr) + ValueInr(hs[i], usdToInr)
  {
    assert hs[..i + 1][..i] == hs[..i];
  }

  /** The counter dictionary holds the counts of a prefix of the holdings. */
  predicate CountersMatch(counts: map<string, nat>, hs: seq<Investment>)
  {
    counts.Keys == ConvictionLevels && forall l :: l in counts ==> counts[l] == CountLevel(hs, l)
  }

  lemma CountersStep(counts: map<string, nat>, hs: seq<Investment>, i: int)
    requires 0 <= i < |hs| && CountersMatch(counts, hs[..i]) && hs[i].convictionLevel in counts
    ensures CountersMatch(counts[hs[i].convictionLevel := counts[hs[i].convictionLevel] + 1], hs[..i + 1])
  {
    assert hs[..i + 1][..i] == hs[..i];
  }

  /** When every level is known, the three counters account for every holding. */
  lemma {:induction false} ConvictionCountsPartition(hs: seq<Investment>)
    requires forall i :: 0 <= i < |hs| ==> hs[i].convictionLevel in ConvictionLevels
    ensures CountLevel(hs, "High") + CountLevel(hs, "Medium") + CountLevel(hs, "Low") == |hs|
    decreases |hs|
  {
    if hs != [] {
      ConvictionCountsPartition(hs[..|hs| - 1]);
    }
  }

  /** Totals of a concatenation are the sums of the parts' totals. */
  lemma {:induction false} TotalsAppend(a: seq<Investment>, b: seq<Investment>, usdToInr: real)
    requires CurrenciesKnown(a) && CurrenciesKnown(b)
    ensures CurrenciesKnown(a + b)
    ensures TotalInvested(a + b, usdToInr) == TotalInvested(a, usdToInr) + TotalInvested(b, usdToInr)
    ensures TotalValue(a + b, usdToInr) == TotalValue(a, usdToInr) + TotalValue(b, usdToInr)
    decreases |b|
  {
    if b == [] {
      assert a + b == a;
    } else {
      var n := |b| - 1;
      assert (a + b)[..|a + b| - 1] == a + b[..n];
      assert (a + b)[|a + b| - 1] == b[n];
      TotalsAppend(a, b[..n], usdToInr);
    }
  }

  /** Taking one holding out of a list takes it out of the totals. */
  lemma TotalsWithout(b: seq<Investment>, k: int, usdToInr: real)
    requires CurrenciesKnown(b) && 0 <= k < |b|
    ensures CurrenciesKnown(b[..k] + b[k + 1..])
    ensures multiset(b[..k] + b[k + 1..]) == multiset(b) - multiset{b[k]}
    ensures TotalInvested(b, usdToInr) == TotalInvested(b[..k] + b[k + 1..], usdToInr) + InvestedInr(b[k], usdToInr)
    ensures TotalValue(b, usdToInr) == TotalValue(b[..k] + b[k + 1..], usdToInr) + ValueInr(b[k], usdToInr)
  {
    var x := b[k];
    assert b == b[..k] + [x] + b[k + 1..];
    assert [x][..0] == [];
    TotalsAppend(b[..k], [x], usdToInr);
    TotalsAppend(b[..k] + [x], b[k + 1..], usdToInr);
    TotalsAppend(b[..k], b[k + 1..], usdToInr);
  }

  /** The stored rows come back in no particular order; the totals do not depend on it. */
  lemma {:induction false} TotalsPermutationInvariant(a: seq<Investment>, b: seq<Investment>, usdToInr: real)
    requires CurrenciesKnown(a) && multiset(a) == multiset(b)
    ensures CurrenciesKnown(b)
    ensures TotalInvested(a, usdToInr) == TotalInvested(b, usdToInr)
    ensures TotalValue(a, usdToInr) == TotalValue(b, usdToInr)
    decreases |a|
  {
    assert CurrenciesKnown(b) by {
      forall i | 0 <= i < |b| ensures b[i].currency.Some? {
        assert b[i] in multiset(a);
      }
    }
    if a == [] {
      assert b == [] by { assert |b| == |multiset(b)| == 0; }
    } else {
      var n := |a| - 1;
      var x := a[n];
      assert x in multiset(b);
      var k :| 0 <= k < |b| && b[k] == x;
      TotalsWithout(a, n, usdToInr);
      TotalsWithout(b, k, usdToInr);
      assert a[..n] + a[n + 1..] == a[..n];
      TotalsPermutationInvariant(a[..n], b[..k] + b[k + 1..], usdToInr);
    }
  }

  /** Sum of the P/L shown for each holding by `calculate_metrics`. */
  function HoldingPnlSum(hs: seq<Investment>, usdToInr: real): real
    requires CurrenciesKnown(hs)
    decreases |hs|
  {
    if hs == [] then 0.0
    else HoldingPnlSum(hs[..|hs| - 1], usdToInr) + CalculateMetrics(hs[|hs| - 1], usdToInr).unrealizedPnlInr
  }

  /** The portfolio's unrealized P/L is the sum of the per-holding P/L figures. */
  lemma {:induction false} PortfolioPnlIsSumOfHoldingPnl(hs: seq<Investment>, usdToInr: real)
    requires CurrenciesKnown(hs)
    ensures TotalValue(hs, usdToInr) - TotalInvested(hs, usdToInr) == HoldingPnlSum(hs, usdToInr)
    decreases |hs|
  {
    if hs != [] {
      PortfolioPnlIsSumOfHoldingPnl(hs[..|hs| - 1], usdToInr);
    }
  }

  /** Without dollar holdings the totals do not depend on the exchange rate. */
  lemma {:induction false} TotalsIgnoreRateWithoutUsd(hs: seq<Investment>, rate1: real, rate2: real)
    requires CurrenciesKnown(hs)
    requires forall i :: 0 <= i < |hs| ==> Upper(hs[i].currency.value) != "USD"
    ensures TotalInvested(hs, rate1) == TotalInvested(hs, rate2)
    ensures TotalValue(hs, rate1) == TotalValue(hs, rate2)
    decreases |hs|
  {
    if hs != [] {
      TotalsIgnoreRateWithoutUsd(hs[..|hs| - 1], rate1, rate2);
    }
  }

  /** Non-negative units, prices and rate give non-negative totals. */
  lemma {:induction false} TotalsNonNegative(hs: seq<Investment>, usdToInr: real)
    requires CurrenciesKnown(hs) && usdToInr >= 0.0
    requires forall i :: 0 <= i < |hs| ==> hs[i].units >= 0.0 && hs[i].avgBuyPrice >= 0.0 && hs[i].currentPrice >= 0.0
    ensures TotalInvested(hs, usdToInr) >= 0.0 && TotalValue(hs, usdToInr) >= 0.0
    decreases |hs|
  {
    if hs != [] {
      TotalsNonNegative(hs[..|hs| - 1], usdToInr);
    }
  }
}
