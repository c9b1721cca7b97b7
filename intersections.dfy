/** The holdings intersection engine of the intersection analyzer
    (`calculateIntersections` in `src/components/IntersectionAnalyzer.jsx`),
    first as specification functions, stage by stage, then as the loop
    program the source runs. */
module Intersections {
  import opened Wrappers
  import opened Strings
  import opened Etf
  import opened Selection
  import opened Holdings
  import Ranking

  /** The analysis result: the ranked shared holdings and the normalised
      holdings of every selected ETF. */
  datatype IntersectionData = IntersectionData(
    sharedHoldings: seq<SharedHolding>,
    holdingsByETF: map<string, seq<Holding>>)

  const SubsetSeparator := " & "

  // ---- Stage 1: normalised holdings per ETF ----

  /** The dictionary key an ETF's holdings are stored under: an ETF without
      data and with an empty symbol is stored under 'unknown'. */
  function HoldingsKey(e: SelectedETF): string {
    if e.data.None? && e.symbol == "" then "unknown" else e.symbol
  }

  /** An ETF's normalised `top_holdings`; an ETF without data has none. */
  function EtfHoldings(e: SelectedETF): seq<Holding> {
    match e.data
    case None => []
    case Some(d) => NormalizeHoldings(d.topHoldings.GetOr([]))
  }

  /** `holdingsByETF` after the first `forEach`: later ETFs overwrite
      earlier ones stored under the same key. */
  function HoldingsMap(sel: seq<SelectedETF>): map<string, seq<Holding>> {
    if sel == [] then map[]
    else
      var e := sel[|sel| - 1];
      HoldingsMap(sel[..|sel| - 1])[HoldingsKey(e) := EtfHoldings(e)]
  }

  /** The dictionary's keys are exactly the selected ETFs' keys. */
  lemma {:induction false} HoldingsMapKeys(sel: seq<SelectedETF>)
    ensures forall k :: k in HoldingsMap(sel) <==> exists i :: 0 <= i < |sel| && HoldingsKey(sel[i]) == k
  {
    if sel != [] {
      var p := sel[..|sel| - 1];
      HoldingsMapKeys(p);
      assert forall i :: 0 <= i < |p| ==> p[i] == sel[i];
    }
  }

  /** Every selected symbol has an entry; otherwise the second stage reads a
      missing entry, throws, and the analysis yields `null`. */
  predicate Keyed(sel: seq<SelectedETF>, m: map<string, seq<Holding>>) {
    forall i :: 0 <= i < |sel| ==> sel[i].symbol in m
  }

  // ---- Stage 2: distinct identifiers in discovery order ----

  predicate Distinct(ids: seq<string>) {
    forall i, j :: 0 <= i < j < |ids| ==> ids[i] != ids[j]
  }

  /** `hs.some(h => h.identifier === id)`. */
  predicate HeldIn(hs: seq<Holding>, id: string) {
    exists k :: 0 <= k < |hs| && hs[k].identifier == id
  }

  /** `allIdentifiers.add(id)` for a non-empty identifier: a Set keeps its
      first insertion order. */
  function AddId(ids: seq<string>, id: string): seq<string> {
    if id == "" || id in ids then ids else ids + [id]
  }

  function AddIds(ids: seq<string>, hs: seq<Holding>): (r: seq<string>)
    ensures Distinct(ids) && "" !in ids ==> Distinct(r) && "" !in r
    ensures forall x :: x in r <==> x in ids || (x != "" && HeldIn(hs, x))
  {
    if hs == [] then ids
    else
      var p := hs[..|hs| - 1];
      var r0 := AddIds(ids, p);
      assert forall x :: HeldIn(hs, x) <==> HeldIn(p, x) || hs[|hs| - 1].identifier == x by {
        forall x ensures HeldIn(hs, x) <==> HeldIn(p, x) || hs[|hs| - 1].identifier == x {
          if HeldIn(p, x) {
            var k :| 0 <= k < |p| && p[k].identifier == x;
            assert hs[k] == p[k];
          }
          if HeldIn(hs, x) {
            var k :| 0 <= k < |hs| && hs[k].identifier == x;
            if k < |p| {
              assert p[k] == hs[k];
            }
          }
        }
      }
      AddId(r0, hs[|hs| - 1].identifier)
  }

  /** The distinct non-empty identifiers of all selected ETFs, in the order
      they are first met. */
  function Discover(sel: seq<SelectedETF>, m: map<string, seq<Holding>>): (r: seq<string>)
    requires Keyed(sel, m)
    ensures Distinct(r) && "" !in r
    ensures forall x :: x in r <==> x != "" && exists i :: 0 <= i < |sel| && HeldIn(m[sel[i].symbol], x)
  {
    if sel == [] then []
    else
      var p := sel[..|sel| - 1];
      assert forall i :: 0 <= i < |p| ==> p[i] == sel[i];
      AddIds(Discover(p, m), m[sel[|sel| - 1].symbol])
  }

  // ---- Stage 3: holders, subset key, weights, display name and ticker ----

  /** The ETFs whose holdings contain `id`, in selection order. */
  function Holders(sel: seq<SelectedETF>, m: map<string, seq<Holding>>, id: string): (r: seq<SelectedETF>)
    requires Keyed(sel, m)
    ensures Keyed(r, m) && |r| <= |sel|
    ensures forall e :: e in r <==> e in sel && HeldIn(m[e.symbol], id)
  {
    if sel == [] then []
    else
      var p := sel[..|sel| - 1];
      var e := sel[|sel| - 1];
      assert sel == p + [e];
      Holders(p, m, id) + (if HeldIn(m[e.symbol], id) then [e] else [])
  }

  /** The index of the first holding with identifier `id`. */
  function FindIndex(hs: seq<Holding>, id: string): (r: Option<nat>)
    ensures r.Some? ==> (r.value < |hs| && hs[r.value].identifier == id
                         && forall j :: 0 <= j < r.value ==> hs[j].identifier != id)
    ensures r.None? <==> !HeldIn(hs, id)
  {
    if hs == [] then None
    else if hs[0].identifier == id then Some(0)
    else
      match FindIndex(hs[1..], id)
      case Some(k) =>
        assert forall j :: 1 <= j < k + 1 ==> hs[j] == hs[1..][j - 1];
        Some(k + 1)
      case None =>
        assert forall j :: 1 <= j < |hs| ==> hs[j] == hs[1..][j - 1];
        None
  }

  /** `hs.find(h => h.identifier === id)`. */
  function Find(hs: seq<Holding>, id: string): Option<Holding> {
    match FindIndex(hs, id)
    case Some(k) => Some(hs[k])
    case None => None
  }

  /** The subset key: the holders' symbols sorted ascending and joined with " & ". */
  function SubsetKey(holders: seq<SelectedETF>): string {
    Join(SortStrings(Symbols(holders)), SubsetSeparator)
  }

  /** `holdingData` after the holders loop. */
  function Weights(holders: seq<SelectedETF>, m: map<string, seq<Holding>>, id: string): map<string, WeightEntry>
    requires Keyed(holders, m)
  {
    if holders == [] then map[]
    else
      var p := holders[..|holders| - 1];
      var e := holders[|holders| - 1];
      assert forall i :: 0 <= i < |p| ==> p[i] == holders[i];
      var w := Weights(p, m, id);
      match Find(m[e.symbol], id)
      case Some(h) => w[e.symbol := WeightEntry(h.weight, h.name)]
      case None => w
  }

  /** `holdingName` after the holders loop: the first non-empty name. */
  function FirstName(holders: seq<SelectedETF>, m: map<string, seq<Holding>>, id: string): Option<string>
    requires Keyed(holders, m)
  {
    if holders == [] then None
    else
      var p := holders[..|holders| - 1];
      assert forall i :: 0 <= i < |p| ==> p[i] == holders[i];
      var n := FirstName(p, m, id);
      if n.Some? then n
      else
        match Find(m[holders[|holders| - 1].symbol], id)
        case Some(h) => if h.name != "" then Some(h.name) else None
        case None => None
  }

  /** `holdingTicker` after the holders loop: the first non-empty ticker. */
  function FirstTicker(holders: seq<SelectedETF>, m: map<string, seq<Holding>>, id: string): Option<string>
    requires Keyed(holders, m)
  {
    if holders == [] then None
    else
      var p := holders[..|holders| - 1];
      assert forall i :: 0 <= i < |p| ==> p[i] == holders[i];
      var t := FirstTicker(p, m, id);
      if t.Some? then t
      else
        match Find(m[holders[|holders| - 1].symbol], id)
        case Some(h) => if Truthy(h.ticker) then h.ticker else None
        case None => None
  }

  /** The entry pushed for a shared identifier, before weighting. */
  function Entry(sel: seq<SelectedETF>, m: map<string, seq<Holding>>, id: string): SharedHolding
    requires Keyed(sel, m)
  {
    var hs := Holders(sel, m, id);
    SharedHolding(
      FirstTicker(hs, m, id).GetOr(id),
      FirstName(hs, m, id).GetOr(id),
      SubsetKey(hs),
      Weights(hs, m, id),
      0.0)
  }

  /** An identifier is shared when more than one selected ETF holds it. */
  predicate Shared(sel: seq<SelectedETF>, m: map<string, seq<Holding>>, id: string)
    requires Keyed(sel, m)
  {
    |Holders(sel, m, id)| > 1
  }

  /** `sharedHoldings` after the identifiers loop. */
  function Collect(ids: seq<string>, sel: seq<SelectedETF>, m: map<string, seq<Holding>>): seq<SharedHolding>
    requires Keyed(sel, m)
  {
    if ids == [] then []
    else
      var id := ids[|ids| - 1];
      Collect(ids[..|ids| - 1], sel, m) + (if Shared(sel, m, id) then [Entry(sel, m, id)] else [])
  }

  // ---- Stage 4: weighted values ----

  /** `weights[s]?.weight || 0`. */
  function WeightOr0(w: map<string, WeightEntry>, s: string): real {
    if s in w then w[s].weight else 0.0
  }

  /** The `reduce` over the subset's symbols, $100 in each ETF. */
  function SumWeights(syms: seq<string>, w: map<string, WeightEntry>): real {
    if syms == [] then 0.0
    else SumWeights(syms[..|syms| - 1], w) + 100.0 * WeightOr0(w, syms[|syms| - 1]) / 100.0
  }

  function WeightedValue(s: SharedHolding): real {
    SumWeights(Split(s.etfs, SubsetSeparator), s.weights)
  }

  /** The entries after the weighting loop. */
  function Valued(shs: seq<SharedHolding>): (r: seq<SharedHolding>)
    ensures |r| == |shs|
    ensures forall i :: 0 <= i < |shs| ==> r[i] == shs[i].(weightedValue := WeightedValue(shs[i]))
  {
    if shs == [] then []
    else
      var s := shs[|shs| - 1];
      Valued(shs[..|shs| - 1]) + [s.(weightedValue := WeightedValue(s))]
  }

  // ---- The whole analysis ----

  /** `calculateIntersections`; `None` is the `null` the `catch` stores. */
  function IntersectionsOf(sel: seq<SelectedETF>): (r: Option<IntersectionData>)
    ensures r.Some? <==> Keyed(sel, HoldingsMap(sel))
    ensures r.Some? ==> r.value.holdingsByETF == HoldingsMap(sel)
    ensures r.Some? ==> multiset(r.value.sharedHoldings)
                        == multiset(Valued(Collect(Discover(sel, HoldingsMap(sel)), sel, HoldingsMap(sel))))
  {
    var m := HoldingsMap(sel);
    if !Keyed(sel, m) then None
    else
      var shared := Valued(Collect(Discover(sel, m), sel, m));
      Ranking.SortByValuePermutes(shared);
      Some(IntersectionData(Ranking.SortByValue(shared), m))
  }

  /** The effect around it: with fewer than two ETFs the result is `null`. */
  function Analyze(sel: seq<SelectedETF>): (r: Option<IntersectionData>)
    ensures |sel| < 2 ==> r == None
    ensures |sel| >= 2 ==> r == IntersectionsOf(sel)
  {
    if |sel| < 2 then None else IntersectionsOf(sel)
  }
}
