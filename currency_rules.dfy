/**
 * The ticker-suffix and asset-type rules that decide which currency a holding
 * is quoted in. Three places in the backend apply such a rule, each in its own
 * order: the inference when an investment is created, the backfill of legacy
 * rows without a currency, and the currency reported with a fetched price.
 */
module CurrencyRules {
  import opened Text

  /** Tickers listed on the National or Bombay Stock Exchange. */
  predicate IsIndianListing(ticker: string)
  {
    EndsWith(ticker, ".NS") || EndsWith(ticker, ".BO")
  }

  predicate IsCryptoType(assetType: string)
  {
    Lower(assetType) == "crypto"
  }

  predicate IsStockType(assetType: string)
  {
    Lower(assetType) == "stock"
  }

  /**
   * The currency stored by `create_investment`. An empty or "INR" request is
   * treated as "not provided" and replaced by a guess: the exchange suffix is
   * checked first, then the asset type.
   */
  function InferCurrency(requested: string, ticker: string, assetType: string): (r: string)
    ensures requested == "" || requested == "INR" ==> r == "INR" || r == "USD"
    ensures requested != "" && requested != "INR" ==> r == requested
  {
    if requested == "" || requested == "INR" then
      if IsIndianListing(ticker) then "INR"
      else if IsCryptoType(assetType) then "USD"
      else if IsStockType(assetType) then "USD"
      else "INR"
    else requested
  }

  /** The currency `migrate_existing_data` gives a row that has none. */
  function BackfillCurrency(ticker: string, assetType: string): (r: string)
    ensures r == "INR" <==> IsIndianListing(ticker)
    ensures r == "INR" || r == "USD"
  {
    if IsIndianListing(ticker) then "INR"
    else if IsCryptoType(assetType) then "USD"
    else "USD"
  }

  /**
   * The currency `get_price_in_native_currency` reports with a price. Here the
   * asset type "crypto" is checked before the exchange suffix.
   */
  function NativeCurrency(assetType: string, ticker: string): (r: string)
    ensures r == "INR" || r == "USD"
    ensures IsCryptoType(assetType) ==> r == "USD"
    ensures !IsCryptoType(assetType) && IsIndianListing(ticker) ==> r == "INR"
    ensures !IsCryptoType(assetType) && !IsIndianListing(ticker) && IsStockType(assetType) ==> r == "USD"
    ensures !IsCryptoType(assetType) && !IsIndianListing(ticker) && !IsStockType(assetType) ==> r == "INR"
  {
    if IsCryptoType(assetType) then "USD"
    else if IsIndianListing(ticker) then "INR"
    else if IsStockType(assetType) then "USD"
    else "INR"
  }

  /** When no currency is given, the guess is INR exactly for Indian listings and for assets that are neither crypto nor stock. */
  lemma InferredWhenNotProvided(requested: string, ticker: string, assetType: string)
    requires requested == "" || requested == "INR"
    ensures InferCurrency(requested, ticker, assetType) == "INR"
        <==> IsIndianListing(ticker) || !(IsCryptoType(assetType) || IsStockType(assetType))
    ensures InferCurrency(requested, ticker, assetType) != "INR"
        ==> InferCurrency(requested, ticker, assetType) == "USD"
  {
  }

  /** An explicit "INR" on a stock without an exchange suffix is overridden to USD. */
  lemma ExplicitInrOnPlainStockBecomesUsd()
    ensures InferCurrency("INR", "AAPL", "Stock") == "USD"
  {
    assert !EndsWith("AAPL", ".NS") && !EndsWith("AAPL", ".BO");
    assert Lower("Stock") == "stock";
  }

  /**
   * The create-time guess and the price's native currency agree except for
   * a crypto asset with an Indian exchange suffix (suffix first versus crypto
   * first).
   */
  lemma InferAgreesWithNative(requested: string, ticker: string, assetType: string)
    requires requested == "" || requested == "INR"
    ensures InferCurrency(requested, ticker, assetType) == NativeCurrency(assetType, ticker)
        <==> !(IsCryptoType(assetType) && IsIndianListing(ticker))
  {
  }

  /**
   * The backfill and the price's native currency disagree for a crypto asset
   * with an Indian suffix and for an asset that is neither crypto nor stock
   * and has no Indian suffix (backfill USD, native INR).
   */
  lemma BackfillAgreesWithNative(ticker: string, assetType: string)
    ensures BackfillCurrency(ticker, assetType) == NativeCurrency(assetType, ticker)
        <==> ((IsIndianListing(ticker) && !IsCryptoType(assetType))
              || (!IsIndianListing(ticker) && (IsCryptoType(assetType) || IsStockType(assetType))))
  {
  }

  /** Crypto does not win over the suffix at create time, but does for the price's currency. */
  lemma CryptoOnIndianListing()
    ensures InferCurrency("", "BTC.NS", "Crypto") == "INR"
    ensures BackfillCurrency("BTC.NS", "Crypto") == "INR"
    ensures NativeCurrency("Crypto", "BTC.NS") == "USD"
  {
    assert EndsWith("BTC.NS", ".NS");
    assert Lower("Crypto") == "crypto";
  }
}
