/** `calculateIntersections` as the loop program the source runs: each
    `forEach` is a loop, the dictionary, the identifier Set and the result
    list are updated step by step, and every stage is proved to compute the
    specification function of the same stage. Array built-ins the source
    calls (`filter`, `find`, `some`, `sort`, `join`, `reduce`) are the
    specification functions themselves. */
module IntersectionEngine {
  import opened Wrappers
  import opened Etf
  import opened Holdings
  import opened Intersections
  import Ranking
  import Strings

  /** The first `forEach`: fills `holdingsByETF`. */
  method BuildHoldingsMap(sel: seq<SelectedETF>) returns (m: map<string, seq<Holding>>)
    ensures m == HoldingsMap(sel)
  {
    m := map[];
    var i := 0;
    while i < |sel|
      invariant 0 <= i <= |sel|
      invariant m == HoldingsMap(sel[..i])
    {
      var etf := sel[i];
      assert sel[..i + 1][..i] == sel[..i];
      if etf.data.None? {
        var key := if etf.symbol != "" then etf.symbol else "unknown";
        m := m[key := []];
      } else {
        var holdings := etf.data.value.topHoldings.GetOr([]);
        m := m[etf.symbol := NormalizeHoldings(holdings)];
      }
      i := i + 1;
    }
    assert sel[..|sel|] == sel;
  }

  /** The second `forEach`: collects the non-empty identifiers into the Set.
      `ok` is false exactly when some selected symbol has no entry, where the
      source throws. */
  method DiscoverIdentifiers(sel: seq<SelectedETF>, m: map<string, seq<Holding>>)
    returns (ok: bool, ids: seq<string>)
    ensures ok == Keyed(sel, m)
    ensures ok ==> ids == Discover(sel, m)
  {
    ids := [];
    var i := 0;
    while i < |sel|
      invariant 0 <= i <= |sel|
      invariant Keyed(sel[..i], m)
      invariant ids == Discover(sel[..i], m)
    {
      if sel[i].symbol !in m {
        return false, ids;
      }
      var hs := m[sel[i].symbol];
      var prefix := sel[..i + 1];
      assert prefix[..i] == sel[..i];
      assert Keyed(prefix, m);
      var k := 0;
      while k < |hs|
        invariant 0 <= k <= |hs|
        invariant ids == AddIds(Discover(sel[..i], m), hs[..k])
      {
        assert hs[..k + 1][..k] == hs[..k];
        var id := hs[k].identifier;
        if id != "" && id !in ids {
          ids := ids + [id];
        }
        k := k + 1;
      }
      assert hs[..|hs|] == hs;
      i := i + 1;
    }
    assert sel[..|sel|] == sel;
    return true, ids;
  }

  /** The holders loop for one identifier: `holdingData`, `holdingName` and
      `holdingTicker`. */
  method GatherHolders(holders: seq<SelectedETF>, m: map<string, seq<Holding>>, id: string)
    returns (weights: map<string, WeightEntry>, name: Option<string>, ticker: Option<string>)
    requires Keyed(holders, m)
    ensures weights == Weights(holders, m, id)
    ensures name == FirstName(holders, m, id)
    ensures ticker == FirstTicker(holders, m, id)
  {
    weights, name, ticker := map[], None, None;
    var j := 0;
    while j < |holders|
      invariant 0 <= j <= |holders|
      invariant Keyed(holders[..j], m)
      invariant weights == Weights(holders[..j], m, id)
      invariant name == FirstName(holders[..j], m, id)
      invariant ticker == FirstTicker(holders[..j], m, id)
    {
      var etf := holders[j];
      var prefix := holders[..j + 1];
      assert prefix[..j] == holders[..j] && prefix[j] == etf;
      assert Keyed(prefix, m);
      var holding := Find(m[etf.symbol], id);
      if holding.Some? {
        var h := holding.value;
        weights := weights[etf.symbol := WeightEntry(h.weight, h.name)];
        if name.None? && h.name != "" {
          name := Some(h.name);
        }
        if ticker.None? && Truthy(h.ticker) {
          ticker := h.ticker;
        }
      }
      j := j + 1;
    }
    assert holders[..|holders|] == holders;
  }

  /** The `allIdentifiers.forEach` loop: pushes one entry per shared identifier. */
  method CollectShared(ids: seq<string>, sel: seq<SelectedETF>, m: map<string, seq<Holding>>)
    returns (shared: seq<SharedHolding>)
    requires Keyed(sel, m)
    ensures shared == Collect(ids, sel, m)
  {
    shared := [];
    var n := 0;
    while n < |ids|
      invariant 0 <= n <= |ids|
      invariant shared == Collect(ids[..n], sel, m)
    {
      var id := ids[n];
      assert ids[..n + 1][..n] == ids[..n] && ids[..n + 1][n] == id;
      var holders := Holders(sel, m, id);
      if |holders| > 1 {
        var key := SubsetKey(holders);
        var weights, name, ticker := GatherHolders(holders, m, id);
        var displayName := name.GetOr(id);
        var displayTicker := ticker.GetOr(id);
        shared := shared + [SharedHolding(displayTicker, displayName, key, weights, 0.0)];
      }
      n := n + 1;
    }
    assert ids[..|ids|] == ids;
  }

  /** The weighting loop: assigns each entry's `weightedValue`. */
  method AssignWeightedValues(shared: seq<SharedHolding>) returns (out: seq<SharedHolding>)
    ensures out == Valued(shared)
  {
    out := [];
    var i := 0;
    while i < |shared|
      invariant 0 <= i <= |shared|
      invariant out == Valued(shared[..i])
    {
      assert shared[..i + 1][..i] == shared[..i];
      var holding := shared[i];
      var totalWeight := SumWeights(Strings.Split(holding.etfs, SubsetSeparator), holding.weights);
      out := out + [holding.(weightedValue := totalWeight)];
      i := i + 1;
    }
    assert shared[..|shared|] == shared;
  }

  /** The whole of `calculateIntersections`. */
  method CalculateIntersections(sel: seq<SelectedETF>) returns (r: Option<IntersectionData>)
    ensures r == IntersectionsOf(sel)
  {
    var holdingsByETF := BuildHoldingsMap(sel);
    var ok, ids := DiscoverIdentifiers(sel, holdingsByETF);
    if !ok {
      return None;
    }
    var shared := CollectShared(ids, sel, holdingsByETF);
    shared := AssignWeightedValues(shared);
    return Some(IntersectionData(Ranking.SortByValue(shared), holdingsByETF));
  }
}
