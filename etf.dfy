/** The records the front-end receives from the ETF data service, as far as
    the core reads them. A field the service may omit or send as `null` is
    an `Option`; a list element that may be `null` is an `Option` too. */
module Etf {
  import opened Wrappers

  /** One entry of a search result list. */
  datatype ETFSummary = ETFSummary(symbol: string, name: Option<string>)

  /** One entry of `top_holdings` or `holdings`. */
  datatype RawHolding = RawHolding(
    ticker: Option<string>,
    symbol: Option<string>,
    name: Option<string>,
    weight: Option<real>)

  datatype Dividend = Dividend(date: Option<string>, amount: Option<real>)

  /** `dividend_info`; `recentDividends` is `None` when the field is absent,
      `null` or not an array. */
  datatype DividendInfo = DividendInfo(recentDividends: Option<seq<Option<Dividend>>>)

  datatype FundOperations = FundOperations(expenseRatio: Option<real>)

  /** The detail record returned for one symbol. `sectorWeightings` lists the
      entries of the `sector_weightings` object in their enumeration order. */
  datatype ETFDetail = ETFDetail(
    name: Option<string>,
    expenseRatio: Option<real>,
    fundOperations: Option<FundOperations>,
    topHoldings: Option<seq<Option<RawHolding>>>,
    holdings: Option<seq<Option<RawHolding>>>,
    sectorWeightings: Option<seq<(string, Option<real>)>>,
    dividendInfo: Option<DividendInfo>)

  /** An ETF in a selection list; `data` is `None` when the service answered
      with `null`. */
  datatype SelectedETF = SelectedETF(symbol: string, name: string, data: Option<ETFDetail>)

  /** The outcome of fetching one ETF's detail: the request failed, or it
      succeeded with a body that may be `null`. */
  datatype Fetch = FetchFailed | Fetched(body: Option<ETFDetail>)

  /** JavaScript truthiness of an optional string: present and not empty. */
  predicate Truthy(o: Option<string>) {
    o.Some? && o.value != ""
  }
}
