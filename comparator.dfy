/** The side-by-side comparator (`src/components/ETFComparator.jsx`): what
    its cards show for one ETF, and the component state its handlers
    update. */
module Comparator {
  import opened Wrappers
  import opened Etf
  import opened Selection
  import opened Search

  // ---- What a card shows ----

  /** `data?.dividend_info || {}`. */
  function DividendsOf(data: Option<ETFDetail>): (r: DividendInfo)
    ensures data.Some? && data.value.dividendInfo.Some? ==> r == data.value.dividendInfo.value
    ensures (data.None? || data.value.dividendInfo.None?) ==> r.recentDividends.None?
  {
    if data.Some? && data.value.dividendInfo.Some? then data.value.dividendInfo.value
    else DividendInfo(None)
  }

  /** `getMostRecentDividend`: the amount of the first recent dividend when
      it is positive, and nothing otherwise. Only the first entry is read. */
  function MostRecentDividend(info: DividendInfo): (r: Option<real>)
    ensures r.Some? <==> (
      info.recentDividends.Some? && |info.recentDividends.value| > 0
      && info.recentDividends.value[0].Some? && info.recentDividends.value[0].value.amount.Some?
      && info.recentDividends.value[0].value.amount.value > 0.0)
    ensures r.Some? ==> r.value == info.recentDividends.value[0].value.amount.value && r.value > 0.0
  {
    match info.recentDividends
    case Some(ds) =>
      if |ds| > 0 && ds[0].Some? && ds[0].value.amount.Some? && ds[0].value.amount.value != 0.0
         && ds[0].value.amount.value > 0.0
      then Some(ds[0].value.amount.value)
      else None
    case None => None
  }

  /** Entries after the first never change the most recent dividend. */
  lemma MostRecentIgnoresLater(d: Option<Dividend>, xs: seq<Option<Dividend>>, ys: seq<Option<Dividend>>)
    ensures MostRecentDividend(DividendInfo(Some([d] + xs))) == MostRecentDividend(DividendInfo(Some([d] + ys)))
  {
    assert ([d] + xs)[0] == d == ([d] + ys)[0];
  }

  /** `data?.expense_ratio || data?.fund_operations?.expense_ratio`: a zero
      or missing top-level ratio falls back to the fund-operations one. */
  function DisplayedExpenseRatio(data: Option<ETFDetail>): (r: Option<real>)
    ensures data.None? ==> r == None
    ensures data.Some? && data.value.expenseRatio.Some? && data.value.expenseRatio.value != 0.0
            ==> r == data.value.expenseRatio
    ensures data.Some? && (data.value.expenseRatio.None? || data.value.expenseRatio.value == 0.0)
            ==> r == (if data.value.fundOperations.Some? then data.value.fundOperations.value.expenseRatio else None)
  {
    match data
    case None => None
    case Some(d) =>
      if d.expenseRatio.Some? && d.expenseRatio.value != 0.0 then d.expenseRatio
      else if d.fundOperations.Some? then d.fundOperations.value.expenseRatio
      else None
  }

  /** A formatted expense ratio: "N/A", or a percentage (the digits that
      `toFixed(3)` would print are not modelled). */
  datatype RatioText = NotAvailable | Percent(value: real)

  /** `formatExpenseRatio`. */
  function FormatExpenseRatio(er: Option<real>): (r: RatioText)
    ensures r.NotAvailable? <==> er.None?
    ensures er.Some? ==> r.Percent? && r.value == er.value * 100.0
  {
    match er
    case None => NotAvailable
    case Some(x) => Percent(x * 100.0)
  }

  /** A ratio of exactly 0 with no fund-operations ratio is shown as "N/A". */
  lemma ZeroRatioNotAvailable(d: ETFDetail)
    requires d.expenseRatio == Some(0.0) && d.fundOperations.None?
    ensures FormatExpenseRatio(DisplayedExpenseRatio(Some(d))) == NotAvailable
  {
  }

  /** A positive top-level ratio is always the one shown, as a percentage. */
  lemma PositiveRatioShown(d: ETFDetail, x: real)
    requires d.expenseRatio == Some(x) && x > 0.0
    ensures FormatExpenseRatio(DisplayedExpenseRatio(Some(d))) == Percent(x * 100.0)
  {
  }

  /** `xs.slice(0, n)`. */
  function Take<T>(xs: seq<T>, n: nat): (r: seq<T>)
    ensures |r| <= n && r <= xs
    ensures |xs| <= n ==> r == xs
    ensures |xs| >= n ==> |r| == n
  {
    if |xs| <= n then xs else xs[..n]
  }

  const HoldingsCap := 10
  const SectorsCap := 5
  const DividendsCap := 4

  /** `data?.top_holdings?.slice(0, 10) || data?.holdings?.slice(0, 10) || []`:
      a present `top_holdings` wins even when empty, since an empty array
      is truthy. */
  function DisplayedHoldings(data: Option<ETFDetail>): (r: seq<Option<RawHolding>>)
    ensures |r| <= HoldingsCap
    ensures data.Some? && data.value.topHoldings.Some? ==> r == Take(data.value.topHoldings.value, HoldingsCap)
    ensures data.Some? && data.value.topHoldings.None? && data.value.holdings.Some?
            ==> r == Take(data.value.holdings.value, HoldingsCap)
    ensures (data.None? || (data.value.topHoldings.None? && data.value.holdings.None?)) ==> r == []
  {
    match data
    case None => []
    case Some(d) =>
      if d.topHoldings.Some? then Take(d.topHoldings.value, HoldingsCap)
      else if d.holdings.Some? then Take(d.holdings.value, HoldingsCap)
      else []
  }

  /** The label of a holding row: `name || ticker || symbol || 'N/A'`. */
  function HoldingLabel(h: RawHolding): (r: string)
    ensures r != ""
    ensures Truthy(h.name) ==> r == h.name.value
    ensures !Truthy(h.name) && Truthy(h.ticker) ==> r == h.ticker.value
    ensures !Truthy(h.name) && !Truthy(h.ticker) && Truthy(h.symbol) ==> r == h.symbol.value
    ensures !Truthy(h.name) && !Truthy(h.ticker) && !Truthy(h.symbol) ==> r == "N/A"
  {
    if Truthy(h.name) then h.name.value
    else if Truthy(h.ticker) then h.ticker.value
    else if Truthy(h.symbol) then h.symbol.value
    else "N/A"
  }

  /** `Object.entries(data?.sector_weightings || {}).slice(0, 5)`. */
  function DisplayedSectors(data: Option<ETFDetail>): (r: seq<(string, Option<real>)>)
    ensures |r| <= SectorsCap
    ensures data.Some? && data.value.sectorWeightings.Some? ==> r == Take(data.value.sectorWeightings.value, SectorsCap)
    ensures (data.None? || data.value.sectorWeightings.None?) ==> r == []
  {
    if data.Some? && data.value.sectorWeightings.Some? then Take(data.value.sectorWeightings.value, SectorsCap)
    else []
  }

  /** The recent-dividend rows: `recent_dividends.slice(0, 4)`, shown only
      when the list is a non-empty array. */
  function DisplayedDividends(data: Option<ETFDetail>): (r: seq<Option<Dividend>>)
    ensures |r| <= DividendsCap
    ensures var ds := DividendsOf(data).recentDividends;
      (ds.Some? ==> r == Take(ds.value, DividendsCap)) && (ds.None? ==> r == [])
  {
    var ds := DividendsOf(data).recentDividends;
    if ds.Some? then Take(ds.value, DividendsCap) else []
  }

  /** A list that is shown at all keeps its first entry first. */
  lemma DisplayedDividendsStartAtMostRecent(data: Option<ETFDetail>)
    requires MostRecentDividend(DividendsOf(data)).Some?
    ensures |DisplayedDividends(data)| > 0
    ensures DisplayedDividends(data)[0] == DividendsOf(data).recentDividends.value[0]
  {
    var ds := DividendsOf(data).recentDividends.value;
    assert Take(ds, DividendsCap) <= ds;
  }

  // ---- Component state ----

  function FetchFailedText(symbol: string): string {
    "Failed to fetch data for " + symbol + ". Please try again."
  }

  /** The comparator's state: the search box, its results, the selected
      ETFs and the fetched data by symbol. */
  class ETFComparator {
    var searchQuery: string
    var searchResults: seq<ETFSummary>
    var selectedETFs: seq<SelectedETF>
    var etfData: map<string, Option<ETFDetail>>

    /** No symbol is selected twice, the selected symbols are exactly the
        keys of `etfData`, and each maps to the data of its entry. */
    ghost predicate Valid()
      reads this
    {
      Consistent(selectedETFs, etfData)
    }

    constructor()
      ensures searchQuery == "" && searchResults == [] && selectedETFs == [] && etfData == map[]
      ensures Valid()
    {
      searchQuery, searchResults, selectedETFs, etfData := "", [], [], map[];
    }

    /** The search box changed. */
    method SetQuery(q: string)
      modifies this
      ensures searchQuery == q
      ensures searchResults == old(searchResults) && selectedETFs == old(selectedETFs) && etfData == old(etfData)
    {
      searchQuery := q;
    }

    /** `handleReset`, with the user's answer to the confirmation. */
    method Reset(confirmed: bool)
      modifies this
      ensures confirmed ==> searchQuery == "" && searchResults == [] && selectedETFs == [] && etfData == map[]
      ensures confirmed ==> Valid()
      ensures !confirmed ==> searchQuery == old(searchQuery) && searchResults == old(searchResults)
                             && selectedETFs == old(selectedETFs) && etfData == old(etfData)
    {
      if confirmed {
        selectedETFs := [];
        etfData := map[];
        searchQuery := "";
        searchResults := [];
      }
    }

    /** `handleSearch`, given what the service answers. Returns whether a
        request was made and the alert shown, if any. */
    method RunSearch(reply: Result<SearchReply, SearchError>) returns (requested: bool, alert: Option<string>)
      modifies `searchResults
      ensures requested <==> !IsBlank(searchQuery)
      ensures !requested ==> searchResults == old(searchResults) && alert == None
      ensures requested && reply.Success? ==> searchResults == SearchResults(reply.value) && alert == None
      ensures requested && reply.Failure? ==> searchResults == [] && alert == Some(SearchFailureMessage(reply.error))
    {
      alert := None;
      if IsBlank(searchQuery) {
        return false, None;
      }
      requested := true;
      searchResults := [];
      match reply
      case Success(response) =>
        searchResults := SearchResults(response);
      case Failure(error) =>
        alert := Some(SearchFailureMessage(error));
    }

    /** `handleAddETF`, given the outcome of fetching `etf`'s data. */
    method AddETF(etf: ETFSummary, fetch: Fetch) returns (alert: Option<string>)
      modifies this
      ensures IsSelected(old(selectedETFs), etf.symbol) ==> (
        selectedETFs == old(selectedETFs) && etfData == old(etfData) && alert == None)
      ensures !IsSelected(old(selectedETFs), etf.symbol) && FetchedEntry(etf, fetch).None? ==> (
        selectedETFs == old(selectedETFs) && etfData == old(etfData)
        && alert == Some(FetchFailedText(etf.symbol)))
      ensures !IsSelected(old(selectedETFs), etf.symbol) && FetchedEntry(etf, fetch).Some? ==> (
        selectedETFs == old(selectedETFs) + [FetchedEntry(etf, fetch).value]
        && etfData == old(etfData)[etf.symbol := FetchedEntry(etf, fetch).value.data]
        && alert == None)
      ensures searchQuery == old(searchQuery) && searchResults == old(searchResults)
      ensures old(Valid()) ==> Valid()
    {
      alert := None;
      if IsSelected(selectedETFs, etf.symbol) {
        return;
      }
      match FetchedEntry(etf, fetch)
      case None =>
        alert := Some(FetchFailedText(etf.symbol));
      case Some(newETF) =>
        if Valid() {
          ConsistentAdd(selectedETFs, etfData, newETF);
        }
        selectedETFs := selectedETFs + [newETF];
        etfData := etfData[etf.symbol := newETF.data];
    }

    /** `handleRemoveETF`: the filter keeps every other entry in order, and
        the copied map loses exactly that key. */
    method RemoveETF(symbol: string)
      modifies this
      ensures selectedETFs == Without(old(selectedETFs), symbol)
      ensures etfData == old(etfData) - {symbol}
      ensures searchQuery == old(searchQuery) && searchResults == old(searchResults)
      ensures old(Valid()) ==> Valid()
    {
      if Valid() {
        ConsistentRemove(selectedETFs, etfData, symbol);
      }
      selectedETFs := Without(selectedETFs, symbol);
      var newData := etfData;
      newData := newData - {symbol};
      etfData := newData;
    }
  }
}
