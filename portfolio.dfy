/** The portfolio builder (`src/components/PortfolioBuilder.jsx`): a list
    of dollar allocations, one per ETF symbol, that is sent for comparison
    once at least one amount is positive. */
module Portfolio {
  import opened Wrappers
  import opened Etf
  import opened Search
  import opened CompareErrors

  datatype Allocation = Allocation(symbol: string, name: string, dollars: real)

  /** The comparison the service sends back; the builder only stores it. */
  datatype PortfolioReport = PortfolioReport(body: string)

  function AllocationSymbols(allocs: seq<Allocation>): (r: seq<string>)
    ensures |r| == |allocs| && forall i :: 0 <= i < |allocs| ==> r[i] == allocs[i].symbol
  {
    if allocs == [] then [] else AllocationSymbols(allocs[..|allocs| - 1]) + [allocs[|allocs| - 1].symbol]
  }

  /** `allocations.find(a => a.symbol === s)` finds something. */
  predicate HasAllocation(allocs: seq<Allocation>, s: string) {
    exists i :: 0 <= i < |allocs| && allocs[i].symbol == s
  }

  predicate UniqueAllocations(allocs: seq<Allocation>) {
    forall i, j :: 0 <= i < j < |allocs| ==> allocs[i].symbol != allocs[j].symbol
  }

  /** The allocation added for a search result: `name || symbol`, no dollars yet. */
  function NewAllocation(etf: ETFSummary): (r: Allocation)
    ensures r.symbol == etf.symbol && r.dollars == 0.0
    ensures r.name == if Truthy(etf.name) then etf.name.value else etf.symbol
  {
    Allocation(etf.symbol, if Truthy(etf.name) then etf.name.value else etf.symbol, 0.0)
  }

  /** `allocations.filter(a => a.symbol !== s)`. */
  function WithoutAllocation(allocs: seq<Allocation>, s: string): (r: seq<Allocation>)
    ensures |r| <= |allocs|
    ensures forall a :: a in r <==> a in allocs && a.symbol != s
    ensures !HasAllocation(r, s)
  {
    if allocs == [] then []
    else
      var rest := WithoutAllocation(allocs[..|allocs| - 1], s);
      var last := allocs[|allocs| - 1];
      assert allocs == allocs[..|allocs| - 1] + [last];
      if last.symbol != s then rest + [last] else rest
  }

  /** `allocations.map(a => a.symbol === s ? { ...a, dollars: d } : a)`. */
  function WithDollars(allocs: seq<Allocation>, s: string, d: real): (r: seq<Allocation>)
    ensures |r| == |allocs|
    ensures forall i :: 0 <= i < |allocs| && allocs[i].symbol != s ==> r[i] == allocs[i]
    ensures forall i :: 0 <= i < |allocs| && allocs[i].symbol == s ==> r[i] == allocs[i].(dollars := d)
  {
    seq(|allocs|, i requires 0 <= i < |allocs| =>
      if allocs[i].symbol == s then allocs[i].(dollars := d) else allocs[i])
  }

  /** `parseFloat(text) || 0`: `parsed` is `None` when the text is not a
      number. */
  function ParsedDollars(parsed: Option<real>): real {
    parsed.GetOr(0.0)
  }

  /** `allocations.filter(a => a.dollars > 0)`. */
  function ValidAllocations(allocs: seq<Allocation>): (r: seq<Allocation>)
    ensures |r| <= |allocs|
    ensures forall a :: a in r <==> a in allocs && a.dollars > 0.0
  {
    if allocs == [] then []
    else
      var rest := ValidAllocations(allocs[..|allocs| - 1]);
      var last := allocs[|allocs| - 1];
      assert allocs == allocs[..|allocs| - 1] + [last];
      if last.dollars > 0.0 then rest + [last] else rest
  }

  predicate NoNegativeAmount(allocs: seq<Allocation>) {
    forall i :: 0 <= i < |allocs| ==> allocs[i].dollars >= 0.0
  }

  /** `allocations.reduce((sum, a) => sum + (a.dollars || 0), 0)`; a zero
      amount adds nothing either way. */
  function TotalDollars(allocs: seq<Allocation>): (r: real)
    ensures NoNegativeAmount(allocs) ==> r >= 0.0
  {
    if allocs == [] then 0.0 else TotalDollars(allocs[..|allocs| - 1]) + allocs[|allocs| - 1].dollars
  }

  // ---- Properties of the allocation list ----

  lemma {:induction false} TotalAppend(a: seq<Allocation>, b: seq<Allocation>)
    ensures TotalDollars(a + b) == TotalDollars(a) + TotalDollars(b)
    decreases |b|
  {
    if b == [] {
      assert a + b == a;
    } else {
      var b0 := b[..|b| - 1];
      assert (a + b)[..|a + b| - 1] == a + b0;
      TotalAppend(a, b0);
    }
  }

  /** Adding an ETF leaves the total as it was. */
  lemma TotalAfterAdd(allocs: seq<Allocation>, etf: ETFSummary)
    ensures TotalDollars(allocs + [NewAllocation(etf)]) == TotalDollars(allocs)
  {
    TotalAppend(allocs, [NewAllocation(etf)]);
    assert [NewAllocation(etf)][..0] == [];
  }

  /** The total is the sum of the amounts, first entry first. */
  lemma {:induction false} TotalCons(x: Allocation, rest: seq<Allocation>)
    ensures TotalDollars([x] + rest) == x.dollars + TotalDollars(rest)
  {
    TotalAppend([x], rest);
    assert [x][..0] == [];
  }

  /** Removing a symbol that occurs once takes exactly its amount off the total. */
  lemma {:induction false} TotalAfterRemove(allocs: seq<Allocation>, i: nat)
    requires i < |allocs| && UniqueAllocations(allocs)
    ensures TotalDollars(WithoutAllocation(allocs, allocs[i].symbol)) == TotalDollars(allocs) - allocs[i].dollars
    decreases |allocs|
  {
    var s := allocs[i].symbol;
    var p, last := allocs[..|allocs| - 1], allocs[|allocs| - 1];
    assert allocs == p + [last];
    assert UniqueAllocations(p);
    if i == |allocs| - 1 {
      assert !HasAllocation(p, s);
      WithoutAbsentAllocation(p, s);
    } else {
      assert p[i] == allocs[i];
      TotalAfterRemove(p, i);
      assert last.symbol != s;
      TotalAppend(WithoutAllocation(p, s), [last]);
      assert [last][..0] == [];
    }
  }

  /** Removal keeps symbols unique. */
  lemma {:induction false} WithoutAllocationUnique(allocs: seq<Allocation>, s: string)
    requires UniqueAllocations(allocs)
    ensures UniqueAllocations(WithoutAllocation(allocs, s))
  {
    if allocs != [] {
      var p, last := allocs[..|allocs| - 1], allocs[|allocs| - 1];
      assert UniqueAllocations(p) by {
        forall i, j | 0 <= i < j < |p| ensures p[i].symbol != p[j].symbol {
          assert p[i] == allocs[i] && p[j] == allocs[j];
        }
      }
      WithoutAllocationUnique(p, s);
      var rest := WithoutAllocation(p, s);
      if last.symbol != s {
        forall i | 0 <= i < |rest| ensures rest[i].symbol != last.symbol {
          assert rest[i] in p;
          var k :| 0 <= k < |p| && p[k] == rest[i];
          assert allocs[k] == p[k];
        }
      }
    }
  }

  lemma {:induction false} WithoutAbsentAllocation(allocs: seq<Allocation>, s: string)
    requires !HasAllocation(allocs, s)
    ensures WithoutAllocation(allocs, s) == allocs
  {
    if allocs != [] {
      var p := allocs[..|allocs| - 1];
      assert !HasAllocation(p, s);
      WithoutAbsentAllocation(p, s);
      assert allocs == p + [allocs[|allocs| - 1]];
    }
  }

  /** Changing the amount of a symbol that occurs once moves the total by the difference. */
  lemma {:induction false} TotalAfterUpdate(allocs: seq<Allocation>, i: nat, d: real)
    requires i < |allocs| && UniqueAllocations(allocs)
    ensures TotalDollars(WithDollars(allocs, allocs[i].symbol, d)) == TotalDollars(allocs) - allocs[i].dollars + d
    decreases |allocs|
  {
    var s := allocs[i].symbol;
    var p, last := allocs[..|allocs| - 1], allocs[|allocs| - 1];
    UpdateStep(allocs, s, d);
    if i == |allocs| - 1 {
      assert !HasAllocation(p, s);
      DollarsAbsent(p, s, d);
    } else {
      assert p[i] == allocs[i] && UniqueAllocations(p);
      TotalAfterUpdate(p, i, d);
      assert last.symbol != s;
    }
  }

  /** The update of the last allocation, seen from the total. */
  lemma UpdateStep(allocs: seq<Allocation>, s: string, d: real)
    requires allocs != []
    ensures TotalDollars(WithDollars(allocs, s, d))
            == TotalDollars(WithDollars(allocs[..|allocs| - 1], s, d))
               + (if allocs[|allocs| - 1].symbol == s then d else allocs[|allocs| - 1].dollars)
  {
    var r := WithDollars(allocs, s, d);
    assert r[..|r| - 1] == WithDollars(allocs[..|allocs| - 1], s, d);
  }

  lemma DollarsAbsent(allocs: seq<Allocation>, s: string, d: real)
    requires !HasAllocation(allocs, s)
    ensures WithDollars(allocs, s, d) == allocs
  {
    forall i | 0 <= i < |allocs| ensures allocs[i].symbol != s {
    }
  }

  /** The update keeps every symbol where it was. */
  lemma UpdateKeepsSymbols(allocs: seq<Allocation>, s: string, d: real)
    ensures AllocationSymbols(WithDollars(allocs, s, d)) == AllocationSymbols(allocs)
    ensures UniqueAllocations(allocs) ==> UniqueAllocations(WithDollars(allocs, s, d))
  {
    var r := WithDollars(allocs, s, d);
    assert forall i :: 0 <= i < |r| ==> r[i].symbol == allocs[i].symbol;
  }

  lemma {:induction false} ValidAppend(a: seq<Allocation>, b: seq<Allocation>)
    ensures ValidAllocations(a + b) == ValidAllocations(a) + ValidAllocations(b)
    decreases |b|
  {
    if b == [] {
      assert a + b == a;
    } else {
      var b0 := b[..|b| - 1];
      assert (a + b)[..|a + b| - 1] == a + b0;
      ValidAppend(a, b0);
    }
  }

  /** Nothing is sent exactly when no amount is positive. */
  lemma ValidEmptyIff(allocs: seq<Allocation>)
    ensures ValidAllocations(allocs) == [] <==> forall i :: 0 <= i < |allocs| ==> allocs[i].dollars <= 0.0
  {
    if ValidAllocations(allocs) == [] {
      forall i | 0 <= i < |allocs| ensures allocs[i].dollars <= 0.0 {
        assert allocs[i] in allocs;
      }
    } else {
      var a := ValidAllocations(allocs)[0];
      assert a in ValidAllocations(allocs);
      var i :| 0 <= i < |allocs| && allocs[i] == a;
    }
  }

  /** What is sent is the allocations with a positive amount, in their
      order: every one of them, and each at most as often as it occurs. */
  lemma {:induction false} ValidIsSubsequence(allocs: seq<Allocation>)
    ensures multiset(ValidAllocations(allocs)) <= multiset(allocs)
    ensures forall a :: a in multiset(allocs) && a.dollars > 0.0 ==>
              multiset(ValidAllocations(allocs))[a] == multiset(allocs)[a]
  {
    if allocs != [] {
      var p, last := allocs[..|allocs| - 1], allocs[|allocs| - 1];
      assert allocs == p + [last];
      ValidIsSubsequence(p);
    }
  }

  /** The amount sent is never less than the total shown. */
  lemma {:induction false} ValidTotalAtLeast(allocs: seq<Allocation>)
    ensures TotalDollars(ValidAllocations(allocs)) >= TotalDollars(allocs)
  {
    if allocs != [] {
      var p, last := allocs[..|allocs| - 1], allocs[|allocs| - 1];
      ValidTotalAtLeast(p);
      if last.dollars > 0.0 {
        TotalAppend(ValidAllocations(p), [last]);
        assert [last][..0] == [];
      }
    }
  }

  const NoDollarsMessage := "Please add at least one ETF with a dollar amount greater than 0"

  /** The builder's state: the search box, its results, the allocations and
      the last comparison. */
  class PortfolioBuilder {
    var searchQuery: string
    var searchResults: seq<ETFSummary>
    var allocations: seq<Allocation>
    var portfolioData: Option<PortfolioReport>

    ghost predicate Valid()
      reads this
    {
      UniqueAllocations(allocations)
    }

    constructor()
      ensures searchQuery == "" && searchResults == [] && allocations == [] && portfolioData == None
      ensures Valid()
    {
      searchQuery, searchResults, allocations, portfolioData := "", [], [], None;
    }

    method SetQuery(q: string)
      modifies `searchQuery
      ensures searchQuery == q
    {
      searchQuery := q;
    }

    /** `handleReset`, with the user's answer to the confirmation. */
    method Reset(confirmed: bool)
      modifies this
      ensures confirmed ==> (searchQuery == "" && searchResults == [] && allocations == []
                             && portfolioData == None && Valid())
      ensures !confirmed ==> (searchQuery == old(searchQuery) && searchResults == old(searchResults)
                              && allocations == old(allocations) && portfolioData == old(portfolioData))
    {
      if confirmed {
        allocations := [];
        portfolioData := None;
        searchQuery := "";
        searchResults := [];
      }
    }

    /** `handleSearch`, given what the service answers. */
    method RunSearch(reply: Result<SearchReply, SearchError>) returns (requested: bool, alert: Option<string>)
      modifies `searchResults
      ensures requested <==> !IsBlank(searchQuery)
      ensures !requested ==> searchResults == old(searchResults) && alert == None
      ensures requested && reply.Success? ==> searchResults == SearchResults(reply.value) && alert == None
      ensures requested && reply.Failure? ==> searchResults == [] && alert == Some(SearchFailureMessage(reply.error))
    {
      alert := None;
      if IsBlank(searchQuery) {
        return false, None;
      }
      requested := true;
      searchResults := [];
      match reply
      case Success(response) =>
        searchResults := SearchResults(response);
      case Failure(error) =>
        alert := Some(SearchFailureMessage(error));
    }

    /** `handleAddETF`: a new symbol is appended with no dollars and the
        search is cleared; the last comparison is kept. */
    method AddETF(etf: ETFSummary)
      modifies this
      ensures HasAllocation(old(allocations), etf.symbol) ==> (
        allocations == old(allocations) && searchQuery == old(searchQuery) && searchResults == old(searchResults))
      ensures !HasAllocation(old(allocations), etf.symbol) ==> (
        allocations == old(allocations) + [NewAllocation(etf)] && searchQuery == "" && searchResults == [])
      ensures portfolioData == old(portfolioData)
      ensures old(Valid()) ==> Valid()
    {
      if HasAllocation(allocations, etf.symbol) {
        return;
      }
      ghost var before := allocations;
      allocations := allocations + [NewAllocation(etf)];
      searchQuery := "";
      searchResults := [];
      forall i, j | 0 <= i < j < |allocations| && UniqueAllocations(before)
        ensures allocations[i].symbol != allocations[j].symbol
      {
        if j == |before| {
          assert before[i].symbol != etf.symbol;
        } else {
          assert allocations[i] == before[i] && allocations[j] == before[j];
        }
      }
    }

    /** `handleRemoveETF`: also discards the last comparison. */
    method RemoveETF(symbol: string)
      modifies `allocations, `portfolioData
      ensures allocations == WithoutAllocation(old(allocations), symbol)
      ensures portfolioData == None
      ensures old(Valid()) ==> Valid()
    {
      ghost var before := allocations;
      allocations := WithoutAllocation(allocations, symbol);
      portfolioData := None;
      if UniqueAllocations(before) {
        WithoutAllocationUnique(before, symbol);
      }
    }

    /** `handleUpdateDollars`, given what `parseFloat` makes of the input. */
    method UpdateDollars(symbol: string, parsed: Option<real>)
      modifies `allocations, `portfolioData
      ensures allocations == WithDollars(old(allocations), symbol, ParsedDollars(parsed))
      ensures portfolioData == None
      ensures old(Valid()) ==> Valid()
    {
      UpdateKeepsSymbols(allocations, symbol, ParsedDollars(parsed));
      allocations := WithDollars(allocations, symbol, ParsedDollars(parsed));
      portfolioData := None;
    }

    /** `handleCompare`, given what the service answers. Returns the
        allocations sent, if any, and the alert shown, if any. */
    method Compare(reply: Result<PortfolioReport, CompareError>) returns (sent: Option<seq<Allocation>>, alert: Option<string>)
      modifies `portfolioData
      ensures ValidAllocations(allocations) == [] ==> (
        sent == None && alert == Some(NoDollarsMessage) && portfolioData == old(portfolioData))
      ensures ValidAllocations(allocations) != [] ==> sent == Some(ValidAllocations(allocations))
      ensures ValidAllocations(allocations) != [] && reply.Success? ==> (
        portfolioData == Some(reply.value) && alert == None)
      ensures ValidAllocations(allocations) != [] && reply.Failure? ==> (
        portfolioData == old(portfolioData)
        && alert == Some(FailureText(reply.error, AllocationSymbols(ValidAllocations(allocations)))))
      ensures (ValidAllocations(allocations) != [] && reply.Failure?
               && FailedSymbolsWith(reply.error, true) == FailedSymbols(reply.error)) ==>
        alert == Some(FailureTextAsWritten(reply.error, AllocationSymbols(ValidAllocations(allocations))))
    {
      var validAllocations := ValidAllocations(allocations);
      if |validAllocations| == 0 {
        return None, Some(NoDollarsMessage);
      }
      sent := Some(validAllocations);
      alert := None;
      match reply
      case Success(result) =>
        portfolioData := Some(result);
      case Failure(error) =>
        var userMessage := FailureMessage(error, AllocationSymbols(validAllocations), false);
        alert := Some(userMessage);
    }
  }
}
