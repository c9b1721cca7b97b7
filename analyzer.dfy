/** The intersection analyzer's component state
    (`src/components/IntersectionAnalyzer.jsx`): the same search and
    selection handlers as the comparator, plus the computed analysis,
    which the component recomputes whenever the selection changes. */
module Analyzer {
  import opened Wrappers
  import opened Etf
  import opened Selection
  import opened Search
  import Intersections
  import IntersectionEngine
  import Comparator

  class IntersectionAnalyzer {
    var searchQuery: string
    var searchResults: seq<ETFSummary>
    var selectedETFs: seq<SelectedETF>
    var etfData: map<string, Option<ETFDetail>>
    var intersectionData: Option<Intersections.IntersectionData>

    ghost predicate Valid()
      reads this
    {
      Consistent(selectedETFs, etfData)
    }

    constructor()
      ensures searchQuery == "" && searchResults == [] && selectedETFs == [] && etfData == map[]
      ensures intersectionData == None
      ensures Valid()
    {
      searchQuery, searchResults, selectedETFs, etfData := "", [], [], map[];
      intersectionData := None;
    }

    method SetQuery(q: string)
      modifies this
      ensures searchQuery == q
      ensures searchResults == old(searchResults) && selectedETFs == old(selectedETFs)
      ensures etfData == old(etfData) && unchanged(`intersectionData)
    {
      searchQuery := q;
    }

    /** `handleReset`, with the user's answer to the confirmation. */
    method Reset(confirmed: bool)
      modifies this
      ensures confirmed ==> (searchQuery == "" && searchResults == [] && selectedETFs == [] && etfData == map[]
                             && intersectionData == None && Valid())
      ensures !confirmed ==> (searchQuery == old(searchQuery) && searchResults == old(searchResults)
                              && selectedETFs == old(selectedETFs) && etfData == old(etfData)
                              && unchanged(`intersectionData))
    {
      if confirmed {
        selectedETFs := [];
        etfData := map[];
        intersectionData := None;
        searchQuery := "";
        searchResults := [];
      }
    }

    /** `handleSearch`, given what the service answers. */
    method RunSearch(reply: Result<SearchReply, SearchError>) returns (requested: bool, alert: Option<string>)
      modifies `searchResults
      ensures requested <==> !IsBlank(searchQuery)
      ensures !requested ==> searchResults == old(searchResults) && alert == None
      ensures requested && reply.Success? ==> searchResults == SearchResults(reply.value) && alert == None
      ensures requested && reply.Failure? ==> searchResults == [] && alert == Some(SearchFailureMessage(reply.error))
    {
      alert := None;
      if IsBlank(searchQuery) {
        return false, None;
      }
      requested := true;
      searchResults := [];
      match reply
      case Success(response) =>
        searchResults := SearchResults(response);
      case Failure(error) =>
        alert := Some(SearchFailureMessage(error));
    }

    /** `handleAddETF`, given the outcome of fetching `etf`'s data. */
    method AddETF(etf: ETFSummary, fetch: Fetch) returns (alert: Option<string>)
      modifies this
      ensures IsSelected(old(selectedETFs), etf.symbol) ==> (
        selectedETFs == old(selectedETFs) && etfData == old(etfData) && alert == None)
      ensures !IsSelected(old(selectedETFs), etf.symbol) && FetchedEntry(etf, fetch).None? ==> (
        selectedETFs == old(selectedETFs) && etfData == old(etfData)
        && alert == Some(Comparator.FetchFailedText(etf.symbol)))
      ensures !IsSelected(old(selectedETFs), etf.symbol) && FetchedEntry(etf, fetch).Some? ==> (
        selectedETFs == old(selectedETFs) + [FetchedEntry(etf, fetch).value]
        && etfData == old(etfData)[etf.symbol := FetchedEntry(etf, fetch).value.data]
        && alert == None)
      ensures searchQuery == old(searchQuery) && searchResults == old(searchResults)
      ensures unchanged(`intersectionData)
      ensures old(Valid()) ==> Valid()
    {
      alert := None;
      if IsSelected(selectedETFs, etf.symbol) {
        return;
      }
      match FetchedEntry(etf, fetch)
      case None =>
        alert := Some(Comparator.FetchFailedText(etf.symbol));
      case Some(newETF) =>
        if Valid() {
          ConsistentAdd(selectedETFs, etfData, newETF);
        }
        selectedETFs := selectedETFs + [newETF];
        etfData := etfData[etf.symbol := newETF.data];
    }

    /** `handleRemoveETF`: also discards the analysis. */
    method RemoveETF(symbol: string)
      modifies this
      ensures selectedETFs == Without(old(selectedETFs), symbol)
      ensures etfData == old(etfData) - {symbol}
      ensures intersectionData == None
      ensures searchQuery == old(searchQuery) && searchResults == old(searchResults)
      ensures old(Valid()) ==> Valid()
    {
      if Valid() {
        ConsistentRemove(selectedETFs, etfData, symbol);
      }
      selectedETFs := Without(selectedETFs, symbol);
      var newData := etfData;
      newData := newData - {symbol};
      etfData := newData;
      intersectionData := None;
    }

    /** The effect that runs after the selection changes: no analysis for
        fewer than two ETFs, otherwise `calculateIntersections`. */
    method Refresh()
      modifies `intersectionData
      ensures intersectionData == Intersections.Analyze(selectedETFs)
    {
      var result: Option<Intersections.IntersectionData> := None;
      if |selectedETFs| >= 2 {
        result := IntersectionEngine.CalculateIntersections(selectedETFs);
      }
      intersectionData := result;
    }
  }
}
