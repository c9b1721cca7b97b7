/** The ETF search shared by the comparator and the intersection analyzer
    (`handleSearch`): a blank query sends nothing, a reply is adapted to a
    result list, and a failure is turned into an alert text. */
module Search {
  import opened Wrappers
  import opened Strings
  import opened Etf

  /** The shapes a search reply can take: `null` or `undefined`, a bare
      array, an object whose `results` is an array or missing (`None`), or
      any other value (a string, a number, an object whose `results` is not
      an array). */
  datatype SearchReply =
    | NullReply
    | ArrayReply(items: seq<ETFSummary>)
    | ObjectReply(results: Option<seq<ETFSummary>>)
    | ScalarReply

  /** `response?.results || response || []`, kept only when it is an array.
      An empty `results` array is truthy and is kept as it is. */
  function SearchResults(reply: SearchReply): (r: seq<ETFSummary>)
    ensures reply.ArrayReply? ==> r == reply.items
    ensures reply.ObjectReply? && reply.results.Some? ==> r == reply.results.value
    ensures (reply.NullReply? || reply.ScalarReply? || (reply.ObjectReply? && reply.results.None?)) ==> r == []
  {
    match reply
    case ArrayReply(items) => items
    case ObjectReply(results) => results.GetOr([])
    case _ => []
  }

  /** A rejected search: `error.response.data.message` and `error.message`. */
  datatype SearchError = SearchError(responseMessage: Option<string>, message: Option<string>)

  const SearchFailedText := "Failed to search ETFs. Please try again."

  /** The alert text: the first non-empty of the two messages, or a fixed text. */
  function SearchFailureMessage(e: SearchError): (r: string)
    ensures Truthy(e.responseMessage) ==> r == e.responseMessage.value
    ensures !Truthy(e.responseMessage) && Truthy(e.message) ==> r == e.message.value
    ensures !Truthy(e.responseMessage) && !Truthy(e.message) ==> r == SearchFailedText
    ensures r != ""
  {
    if Truthy(e.responseMessage) then e.responseMessage.value
    else if Truthy(e.message) then e.message.value
    else SearchFailedText
  }

  /** `!searchQuery.trim()`. */
  predicate IsBlank(q: string) {
    Trim(q) == ""
  }

  /** A query of white space only is blank; one holding any other character is not. */
  lemma {:induction false} BlankIffAllSpace(q: string)
    ensures IsBlank(q) <==> forall k :: 0 <= k < |q| ==> IsSpace(q[k])
  {
    if forall k :: 0 <= k < |q| ==> IsSpace(q[k]) {
      TrimStartSpaces(q, "");
      assert q + "" == q;
    } else {
      var k :| 0 <= k < |q| && !IsSpace(q[k]);
      var t := TrimStart(q);
      assert |q| - |t| <= k;
      assert t[k - (|q| - |t|)] == q[k];
      assert !IsSpace(t[k - (|q| - |t|)]);
    }
  }
}
