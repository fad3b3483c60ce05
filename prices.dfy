/**
 * `PriceFetcher.get_price_with_fallbacks` and `get_price_in_native_currency`.
 * The HTTP fetchers are not modelled; `PriceFeeds` holds what each one
 * returned for the ticker (nothing when the request failed or raised).
 */
module Prices {
  import opened Wrappers
  import opened Text
  import opened Sources
  import opened CurrencyRules

  /**
   * CoinGecko's answer, and the answers of the stock sources in the order
   * they are tried: Yahoo Simple, Yahoo Search, yfinance, Alpha Vantage.
   */
  datatype PriceFeeds = PriceFeeds(coinGecko: Option<real>, ordered: seq<Option<real>>)

  /** Python truthiness of an optional float: present and non-zero. */
  predicate Truthy(o: Option<real>)
  {
    o.Some? && o.value != 0.0
  }

  predicate Positive(p: real)
  {
    p > 0.0
  }

  /** CoinGecko is asked first for crypto assets and for tickers such as "BTC-USD". */
  predicate CryptoRoute(ticker: string, assetType: string)
  {
    Lower(assetType) == "crypto" || EndsWith(ticker, "-USD")
  }

  /**
   * The price `get_price_with_fallbacks` returns: 0.0, CoinGecko's answer on
   * the crypto route, or a positive answer of one of the stock sources.
   */
  function FallbackPrice(ticker: string, assetType: string, feeds: PriceFeeds): (r: real)
    ensures r != 0.0 ==> (CryptoRoute(ticker, assetType) && Some(r) == feeds.coinGecko)
                         || (r > 0.0 && Some(r) in feeds.ordered)
  {
    if CryptoRoute(ticker, assetType) && Truthy(feeds.coinGecko) then feeds.coinGecko.value
    else FirstWhere(feeds.ordered, Positive).GetOr(0.0)
  }

  /**
   * On the crypto route a truthy CoinGecko price is returned as it is (even a
   * negative one); otherwise the first positive stock-source price is
   * returned, and 0.0 when there is none.
   */
  lemma FallbackPriceSpec(ticker: string, assetType: string, feeds: PriceFeeds)
    ensures CryptoRoute(ticker, assetType) && Truthy(feeds.coinGecko)
        ==> FallbackPrice(ticker, assetType, feeds) == feeds.coinGecko.value
    ensures !(CryptoRoute(ticker, assetType) && Truthy(feeds.coinGecko))
        ==> (FallbackPrice(ticker, assetType, feeds) == 0.0
             <==> forall i :: 0 <= i < |feeds.ordered| ==> !Accepts(feeds.ordered[i], Positive))
    ensures !(CryptoRoute(ticker, assetType) && Truthy(feeds.coinGecko))
        ==> forall k :: IsFirstAccepted(feeds.ordered, Positive, k)
             ==> FallbackPrice(ticker, assetType, feeds) == feeds.ordered[k].value
  {
    FirstWhereNone(feeds.ordered, Positive);
    forall k | IsFirstAccepted(feeds.ordered, Positive, k) {
      FirstWhereAt(feeds.ordered, Positive, k);
    }
  }

  /** A price not taken from a truthy CoinGecko answer on the crypto route is never negative. */
  lemma FallbackPriceNonNegative(ticker: string, assetType: string, feeds: PriceFeeds)
    requires !(CryptoRoute(ticker, assetType) && Truthy(feeds.coinGecko))
    ensures FallbackPrice(ticker, assetType, feeds) >= 0.0
  {
  }

  /** `get_price_with_fallbacks`: a first-match loop with an early return. */
  method PriceWithFallbacks(ticker: string, assetType: string, feeds: PriceFeeds) returns (price: real)
    ensures price == FallbackPrice(ticker, assetType, feeds)
  {
    if Lower(assetType) == "crypto" || EndsWith(ticker, "-USD") {
      var cryptoPrice := feeds.coinGecko;
      if cryptoPrice.Some? && cryptoPrice.value != 0.0 {
        return cryptoPrice.value;
      }
    }
    var sources := feeds.ordered;
    var i := 0;
    while i < |sources|
      invariant 0 <= i <= |sources|
      invariant FirstWhere(sources, Positive) == FirstWhere(sources[i..], Positive)
    {
      var p := sources[i];
      if p.Some? && p.value > 0.0 {
        return p.value;
      }
      assert sources[i..][1..] == sources[i + 1..];
      i := i + 1;
    }
    return 0.0;
  }

  /**
   * The (price, currency) pair `get_price_in_native_currency` returns: the
   * currency is INR or USD, and a non-zero price is one of the sources'
   * answers.
   */
  function NativeQuote(assetType: string, ticker: string, feeds: PriceFeeds): (r: (real, string))
    ensures r.1 == "INR" || r.1 == "USD"
    ensures r.0 != 0.0 ==> Some(r.0) == feeds.coinGecko || Some(r.0) in feeds.ordered
  {
    var kind := if IsCryptoType(assetType) then "Crypto" else "Stock";
    (FallbackPrice(ticker, kind, feeds), NativeCurrency(assetType, ticker))
  }

  /**
   * A crypto asset is priced on the crypto route; any other asset is priced
   * as a stock, which still consults CoinGecko when the ticker ends in "-USD".
   */
  lemma NativeQuoteRoute(assetType: string, ticker: string, feeds: PriceFeeds)
    ensures NativeQuote(assetType, ticker, feeds).1 == NativeCurrency(assetType, ticker)
    ensures IsCryptoType(assetType) || EndsWith(ticker, "-USD")
        ==> NativeQuote(assetType, ticker, feeds).0 == FallbackPrice(ticker, "Crypto", feeds)
    ensures !IsCryptoType(assetType) && !EndsWith(ticker, "-USD")
        ==> NativeQuote(assetType, ticker, feeds).0 == FirstWhere(feeds.ordered, Positive).GetOr(0.0)
  {
    assert Lower("Crypto") == "crypto";
    assert Lower("Stock") != "crypto";
  }

  /** `get_price_in_native_currency` */
  method PriceInNativeCurrency(assetType: string, ticker: string, feeds: PriceFeeds) returns (price: real, currency: string)
    ensures (price, currency) == NativeQuote(assetType, ticker, feeds)
    ensures currency == "INR" || currency == "USD"
  {
    if Lower(assetType) == "crypto" {
      price := PriceWithFallbacks(ticker, "Crypto", feeds);
      currency := "USD";
    } else if EndsWith(ticker, ".NS") || EndsWith(ticker, ".BO") {
      price := PriceWithFallbacks(ticker, "Stock", feeds);
      currency := "INR";
    } else if Lower(assetType) == "stock" {
      price := PriceWithFallbacks(ticker, "Stock", feeds);
      currency := "USD";
    } else {
      price := PriceWithFallbacks(ticker, "Stock", feeds);
      currency := "INR";
    }
  }
}
