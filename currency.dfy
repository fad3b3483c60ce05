/**
 * `CurrencyConverter`: conversion of native amounts to rupees, and the
 * process-wide cache of the USD/INR rate. The cache starts at a fallback rate
 * of 83.0 with no timestamp; a call refreshes it when it has never been
 * refreshed or was last refreshed more than an hour ago, taking the first
 * source whose rate lies strictly between 70 and 100. The sources (Yahoo
 * Finance, ExchangeRate-API, Fixer, in that order) are network calls; the
 * model receives what each returned, and the current time in seconds.
 */
module Currency {
  import opened Wrappers
  import opened Text
  import opened Sources

  const FallbackRate: real := 83.0
  const RefreshSeconds: int := 3600

  /**
   * `convert_to_inr`, given the USD/INR rate: US dollars are multiplied by
   * the rate, rupees and every other currency are returned unchanged. The
   * currency code is compared after upper-casing.
   */
  function ConvertToInr(amount: real, currency: string, usdToInr: real): (r: real)
    ensures Upper(currency) == "USD" ==> r == amount * usdToInr
    ensures Upper(currency) != "USD" ==> r == amount
  {
    if Upper(currency) == "INR" then amount
    else if Upper(currency) == "USD" then amount * usdToInr
    else amount
  }

  /** Conversion distributes over the sum of two amounts in the same currency. */
  lemma ConvertAdditive(a: real, b: real, currency: string, usdToInr: real)
    ensures ConvertToInr(a + b, currency, usdToInr)
         == ConvertToInr(a, currency, usdToInr) + ConvertToInr(b, currency, usdToInr)
  {
    if Upper(currency) == "USD" {
      assert (a + b) * usdToInr == a * usdToInr + b * usdToInr;
    }
  }

  /** The state of the class-level cache: `_usd_to_inr_rate` and `_last_updated`. */
  datatype CacheState = CacheState(rate: real, lastUpdated: Option<int>)

  const InitialCache: CacheState := CacheState(FallbackRate, None)

  /** The sanity check a fetched rate must pass (a zero rate is falsy and fails it too). */
  predicate AcceptableRate(r: real)
  {
    r != 0.0 && 70.0 < r && r < 100.0
  }

  predicate RefreshDue(lastUpdated: Option<int>, now: int)
  {
    lastUpdated.None? || now - lastUpdated.value > RefreshSeconds
  }

  /**
   * The cache after one call of `get_usd_to_inr_rate` at time `now`. It
   * changes only on a due refresh, and then to a rate some source returned
   * that passes the sanity check, stamped with `now`.
   */
  function Step(s: CacheState, now: int, sources: seq<Option<real>>): (r: CacheState)
    ensures r != s ==> RefreshDue(s.lastUpdated, now) && AcceptableRate(r.rate)
                       && Some(r.rate) in sources && r.lastUpdated == Some(now)
  {
    var fetched := FirstWhere(sources, AcceptableRate);
    if RefreshDue(s.lastUpdated, now) && fetched.Some? then CacheState(fetched.value, Some(now))
    else s
  }

  /** Inside the one-hour window the sources are not consulted. */
  lemma StepWithinWindowKeepsState(s: CacheState, now: int, sources: seq<Option<real>>)
    requires !RefreshDue(s.lastUpdated, now)
    ensures Step(s, now, sources) == s
  {
  }

  /** A due refresh stores the first acceptable source's rate and the current time. */
  lemma StepTakesFirstAcceptable(s: CacheState, now: int, sources: seq<Option<real>>, k: int)
    requires RefreshDue(s.lastUpdated, now)
    requires IsFirstAccepted(sources, AcceptableRate, k)
    ensures Step(s, now, sources) == CacheState(sources[k].value, Some(now))
  {
    FirstWhereAt(sources, AcceptableRate, k);
  }

  /** When no source passes the sanity check, rate and timestamp stay as they were. */
  lemma StepWithoutAcceptableKeepsState(s: CacheState, now: int, sources: seq<Option<real>>)
    requires forall i :: 0 <= i < |sources| ==> !Accepts(sources[i], AcceptableRate)
    ensures Step(s, now, sources) == s
  {
    FirstWhereNone(sources, AcceptableRate);
  }

  /** The cached rate always passes the sanity check: the fallback does, and so does every stored rate. */
  lemma StepKeepsRateAcceptable(s: CacheState, now: int, sources: seq<Option<real>>)
    requires AcceptableRate(s.rate)
    ensures AcceptableRate(Step(s, now, sources).rate)
  {
  }

  /** After a successful refresh, calls during the next hour change nothing, whatever the sources say. */
  lemma RefreshedCacheHoldsForAnHour(s: CacheState, t: int, sources: seq<Option<real>>, t': int, sources': seq<Option<real>>)
    requires Step(s, t, sources).lastUpdated == Some(t)
    requires t' - t <= RefreshSeconds
    ensures Step(Step(s, t, sources), t', sources') == Step(s, t, sources)
  {
  }

  /**
   * The cache itself. Python keeps it in class attributes shared by every
   * request; here it is an object whose two fields the methods update.
   */
  class RateCache {
    var rate: real
    var lastUpdated: Option<int>

    function State(): CacheState
      reads this
    {
      CacheState(rate, lastUpdated)
    }

    ghost predicate Valid()
      reads this
    {
      AcceptableRate(rate)
    }

    constructor ()
      ensures State() == InitialCache && Valid()
    {
      rate := FallbackRate;
      lastUpdated := None;
    }

    /** `get_usd_to_inr_rate` at time `now`, the sources having returned `sources`. */
    method GetUsdToInrRate(now: int, sources: seq<Option<real>>) returns (r: real)
      requires Valid()
      modifies this
      ensures Valid()
      ensures State() == Step(old(State()), now, sources)
      ensures r == rate
    {
      if lastUpdated.None? || now - lastUpdated.value > RefreshSeconds {
        var i := 0;
        while i < |sources|
          invariant 0 <= i <= |sources|
          invariant FirstWhere(sources, AcceptableRate) == FirstWhere(sources[i..], AcceptableRate)
          invariant State() == old(State())
        {
          var fetched := sources[i];
          if fetched.Some? && AcceptableRate(fetched.value) {
            rate := fetched.value;
            lastUpdated := Some(now);
            break;
          }
          assert sources[i..][1..] == sources[i + 1..];
          i := i + 1;
        }
      }
      r := rate;
    }

    /**
     * The class method `convert_to_inr`: only a USD amount consults (and so
     * may refresh) the cache.
     */
    method ConvertAmount(amount: real, currency: string, now: int, sources: seq<Option<real>>) returns (r: real)
      requires Valid()
      modifies this
      ensures Valid()
      ensures Upper(currency) == "USD" ==> State() == Step(old(State()), now, sources)
      ensures Upper(currency) != "USD" ==> State() == old(State())
      ensures r == ConvertToInr(amount, currency, rate)
    {
      if Upper(currency) == "INR" {
        r := amount;
      } else if Upper(currency) == "USD" {
        var usdToInr := GetUsdToInrRate(now, sources);
        r := amount * usdToInr;
      } else {
        r := amount;
      }
    }
  }
}
