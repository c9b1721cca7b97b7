/** Properties of the intersection analysis: what the holdings dictionary,
    the discovered identifiers, each shared entry and the ranked result are,
    in terms of the selected ETFs. */
module IntersectionFacts {
  import opened Wrappers
  import opened Strings
  import opened Etf
  import opened Selection
  import opened Holdings
  import opened Intersections
  import Ranking

  // ---- The holdings dictionary ----

  /** No ETF after the `i`-th is stored under the same key. */
  predicate NoLaterNamesake(sel: seq<SelectedETF>, i: nat)
    requires i < |sel|
  {
    forall j :: i < j < |sel| ==> HoldingsKey(sel[j]) != HoldingsKey(sel[i])
  }

  /** An ETF's entry is its own normalised holdings when no later ETF is
      stored under the same key. */
  lemma {:induction false} HoldingsMapLast(sel: seq<SelectedETF>, i: nat)
    requires i < |sel|
    requires NoLaterNamesake(sel, i)
    ensures HoldingsKey(sel[i]) in HoldingsMap(sel)
    ensures HoldingsMap(sel)[HoldingsKey(sel[i])] == EtfHoldings(sel[i])
  {
    var p := sel[..|sel| - 1];
    if i < |sel| - 1 {
      assert p[i] == sel[i];
      forall j | i < j < |p| ensures HoldingsKey(p[j]) != HoldingsKey(p[i]) {
        assert p[j] == sel[j];
      }
      assert NoLaterNamesake(p, i);
      HoldingsMapLast(p, i);
    }
  }

  /** Under unique non-empty symbols no later ETF shares an ETF's key. */
  lemma KeysDistinct(sel: seq<SelectedETF>, i: nat)
    requires UniqueSymbols(sel)
    requires forall j :: 0 <= j < |sel| ==> sel[j].symbol != ""
    requires i < |sel|
    ensures NoLaterNamesake(sel, i)
  {
    forall j | i < j < |sel| ensures HoldingsKey(sel[j]) != HoldingsKey(sel[i]) {
      assert HoldingsKey(sel[j]) == sel[j].symbol;
      assert HoldingsKey(sel[i]) == sel[i].symbol;
    }
  }

  /** An ETF with a non-empty symbol and no later namesake has its own entry. */
  lemma HoldingsMapOwn(sel: seq<SelectedETF>, i: nat)
    requires i < |sel| && sel[i].symbol != ""
    requires NoLaterNamesake(sel, i)
    ensures sel[i].symbol in HoldingsMap(sel)
    ensures HoldingsMap(sel)[sel[i].symbol] == EtfHoldings(sel[i])
  {
    assert HoldingsKey(sel[i]) == sel[i].symbol;
    HoldingsMapLast(sel, i);
  }

  /** One ETF's entry, under unique non-empty symbols. */
  lemma {:induction false} HoldingsMapEntry(sel: seq<SelectedETF>, i: nat)
    requires UniqueSymbols(sel)
    requires forall j :: 0 <= j < |sel| ==> sel[j].symbol != ""
    requires i < |sel|
    ensures sel[i].symbol in HoldingsMap(sel)
    ensures HoldingsMap(sel)[sel[i].symbol] == EtfHoldings(sel[i])
  {
    KeysDistinct(sel, i);
    assert NoLaterNamesake(sel, i);
    assert sel[i].symbol != "";
    HoldingsMapOwn(sel, i);
  }

  /** With unique symbols and every data-less ETF named, every selected
      symbol has an entry, and it is that ETF's normalised holdings (empty
      for an ETF without data). */
  lemma {:induction false} HoldingsMapUnique(sel: seq<SelectedETF>)
    requires UniqueSymbols(sel)
    requires forall i :: 0 <= i < |sel| ==> sel[i].symbol != ""
    ensures Keyed(sel, HoldingsMap(sel))
    ensures forall i :: 0 <= i < |sel| ==> HoldingsMap(sel)[sel[i].symbol] == EtfHoldings(sel[i])
    ensures forall i :: 0 <= i < |sel| && sel[i].data.None? ==> HoldingsMap(sel)[sel[i].symbol] == []
  {
    forall i | 0 <= i < |sel|
      ensures sel[i].symbol in HoldingsMap(sel) && HoldingsMap(sel)[sel[i].symbol] == EtfHoldings(sel[i])
    {
      HoldingsMapEntry(sel, i);
    }
    assert Keyed(sel, HoldingsMap(sel));
  }

  /** An ETF without data and with an empty symbol is stored under
      'unknown'; when no ETF with an empty symbol has data, the later lookup
      of the empty symbol fails and the analysis is `null`. */
  lemma UnknownKeyFails(sel: seq<SelectedETF>, i: nat)
    requires i < |sel| && sel[i].data.None? && sel[i].symbol == ""
    requires forall j :: 0 <= j < |sel| && sel[j].symbol == "" ==> sel[j].data.None?
    ensures HoldingsKey(sel[i]) == "unknown"
    ensures IntersectionsOf(sel) == None
  {
    HoldingsMapKeys(sel);
    assert "" !in HoldingsMap(sel);
  }

  // ---- Discovery and matching ----

  /** The identifiers, in discovery order, that more than one ETF holds. */
  function SharedIds(ids: seq<string>, sel: seq<SelectedETF>, m: map<string, seq<Holding>>): (r: seq<string>)
    requires Keyed(sel, m)
    ensures forall x :: x in r <==> x in ids && Shared(sel, m, x)
    ensures Distinct(ids) ==> Distinct(r)
  {
    if ids == [] then []
    else
      var p := ids[..|ids| - 1];
      var id := ids[|ids| - 1];
      assert ids == p + [id];
      assert Distinct(ids) ==> Distinct(p) && id !in p;
      SharedIds(p, sel, m) + (if Shared(sel, m, id) then [id] else [])
  }

  /** The pushed entries are exactly one entry per shared identifier, in
      discovery order. */
  lemma {:induction false} CollectEntries(ids: seq<string>, sel: seq<SelectedETF>, m: map<string, seq<Holding>>)
    requires Keyed(sel, m)
    ensures |Collect(ids, sel, m)| == |SharedIds(ids, sel, m)|
    ensures forall j :: 0 <= j < |SharedIds(ids, sel, m)| ==>
      Collect(ids, sel, m)[j] == Entry(sel, m, SharedIds(ids, sel, m)[j])
  {
    if ids != [] {
      CollectEntries(ids[..|ids| - 1], sel, m);
    }
  }

  /** An identifier is shared exactly when it is non-empty and at least two
      selected ETFs hold it; each shared identifier occurs once. */
  lemma SharedDiscovered(sel: seq<SelectedETF>, m: map<string, seq<Holding>>, x: string)
    requires Keyed(sel, m)
    ensures Distinct(SharedIds(Discover(sel, m), sel, m)) && "" !in SharedIds(Discover(sel, m), sel, m)
    ensures x in SharedIds(Discover(sel, m), sel, m) <==> x != "" && |Holders(sel, m, x)| >= 2
  {
    var hs := Holders(sel, m, x);
    if x != "" && |hs| >= 2 {
      assert hs[0] in hs;
      var i :| 0 <= i < |sel| && sel[i] == hs[0];
    }
  }

  // ---- One shared entry ----

  /** The holders are exactly the selected ETFs that hold the identifier,
      in selection order, and unique symbols stay unique. */
  lemma {:induction false} HoldersUnique(sel: seq<SelectedETF>, m: map<string, seq<Holding>>, id: string)
    requires Keyed(sel, m) && UniqueSymbols(sel)
    ensures UniqueSymbols(Holders(sel, m, id))
  {
    if sel != [] {
      var p := sel[..|sel| - 1];
      UniquePrefix(sel);
      assert Keyed(p, m);
      HoldersUnique(p, m, id);
      var e := sel[|sel| - 1];
      var hp := Holders(p, m, id);
      forall i | 0 <= i < |hp| ensures hp[i].symbol != e.symbol {
        assert hp[i] in p;
      }
    }
  }

  /** The first matching holding of one ETF, as its `weights` entry, name
      and ticker. */
  function NameAt(m: map<string, seq<Holding>>, id: string, e: SelectedETF): string
    requires e.symbol in m
  {
    match Find(m[e.symbol], id)
    case Some(h) => h.name
    case None => ""
  }

  function TickerAt(m: map<string, seq<Holding>>, id: string, e: SelectedETF): Option<string>
    requires e.symbol in m
  {
    match Find(m[e.symbol], id)
    case Some(h) => h.ticker
    case None => None
  }

  /** The `weights` object has exactly the holders' symbols as keys, and the
      entry of each comes from that ETF's first holding with the identifier. */
  lemma {:induction false} WeightsEntries(holders: seq<SelectedETF>, m: map<string, seq<Holding>>, id: string)
    requires Keyed(holders, m)
    requires forall i :: 0 <= i < |holders| ==> HeldIn(m[holders[i].symbol], id)
    ensures forall s :: s in Weights(holders, m, id) <==> s in Symbols(holders)
    ensures forall s :: s in Weights(holders, m, id) ==>
      s in m && Find(m[s], id).Some?
      && Weights(holders, m, id)[s] == WeightEntry(Find(m[s], id).value.weight, Find(m[s], id).value.name)
  {
    if holders != [] {
      var p := holders[..|holders| - 1];
      assert forall i :: 0 <= i < |p| ==> p[i] == holders[i];
      WeightsEntries(p, m, id);
      assert Symbols(holders) == Symbols(p) + [holders[|holders| - 1].symbol];
    }
  }

  /** The display name is the first non-empty name in selection order, or
      the identifier when every holder's name is empty. */
  lemma {:induction false} FirstNameIsFirst(holders: seq<SelectedETF>, m: map<string, seq<Holding>>, id: string)
    requires Keyed(holders, m)
    ensures FirstName(holders, m, id).None? <==> forall i :: 0 <= i < |holders| ==> NameAt(m, id, holders[i]) == ""
    ensures FirstName(holders, m, id).Some? ==>
      exists i :: (0 <= i < |holders|
                   && FirstName(holders, m, id).value == NameAt(m, id, holders[i]) != ""
                   && forall j :: 0 <= j < i ==> NameAt(m, id, holders[j]) == "")
  {
    FirstNameNone(holders, m, id);
    if FirstName(holders, m, id).Some? {
      FirstNameSome(holders, m, id);
    }
  }

  lemma {:induction false} FirstNameNone(holders: seq<SelectedETF>, m: map<string, seq<Holding>>, id: string)
    requires Keyed(holders, m)
    ensures FirstName(holders, m, id).None? <==> forall i :: 0 <= i < |holders| ==> NameAt(m, id, holders[i]) == ""
  {
    if holders != [] {
      var p := holders[..|holders| - 1];
      assert forall i :: 0 <= i < |p| ==> p[i] == holders[i];
      FirstNameNone(p, m, id);
    }
  }

  lemma {:induction false} FirstNameSome(holders: seq<SelectedETF>, m: map<string, seq<Holding>>, id: string)
    requires Keyed(holders, m) && FirstName(holders, m, id).Some?
    ensures exists i :: (0 <= i < |holders|
                         && FirstName(holders, m, id).value == NameAt(m, id, holders[i]) != ""
                         && forall j :: 0 <= j < i ==> NameAt(m, id, holders[j]) == "")
  {
    var p := holders[..|holders| - 1];
    assert forall i :: 0 <= i < |p| ==> p[i] == holders[i];
    if FirstName(p, m, id).Some? {
      FirstNameSome(p, m, id);
      var i :| 0 <= i < |p| && FirstName(p, m, id).value == NameAt(m, id, p[i]) != ""
        && forall j :: 0 <= j < i ==> NameAt(m, id, p[j]) == "";
      assert holders[i] == p[i];
    } else {
      FirstNameNone(p, m, id);
      assert NameAt(m, id, holders[|p|]) != "";
    }
  }

  /** The display ticker is the first non-empty ticker in selection order,
      or the identifier when no holder has one. */
  lemma {:induction false} FirstTickerIsFirst(holders: seq<SelectedETF>, m: map<string, seq<Holding>>, id: string)
    requires Keyed(holders, m)
    ensures FirstTicker(holders, m, id).None? <==> forall i :: 0 <= i < |holders| ==> !Truthy(TickerAt(m, id, holders[i]))
    ensures FirstTicker(holders, m, id).Some? ==>
      exists i :: (0 <= i < |holders|
                   && FirstTicker(holders, m, id) == TickerAt(m, id, holders[i]) && Truthy(TickerAt(m, id, holders[i]))
                   && forall j :: 0 <= j < i ==> !Truthy(TickerAt(m, id, holders[j])))
  {
    FirstTickerNone(holders, m, id);
    if FirstTicker(holders, m, id).Some? {
      FirstTickerSome(holders, m, id);
    }
  }

  lemma {:induction false} FirstTickerNone(holders: seq<SelectedETF>, m: map<string, seq<Holding>>, id: string)
    requires Keyed(holders, m)
    ensures FirstTicker(holders, m, id).None? <==> forall i :: 0 <= i < |holders| ==> !Truthy(TickerAt(m, id, holders[i]))
  {
    if holders != [] {
      var p := holders[..|holders| - 1];
      assert forall i :: 0 <= i < |p| ==> p[i] == holders[i];
      FirstTickerNone(p, m, id);
    }
  }

  lemma {:induction false} FirstTickerSome(holders: seq<SelectedETF>, m: map<string, seq<Holding>>, id: string)
    requires Keyed(holders, m) && FirstTicker(holders, m, id).Some?
    ensures exists i :: (0 <= i < |holders|
                         && FirstTicker(holders, m, id) == TickerAt(m, id, holders[i]) && Truthy(TickerAt(m, id, holders[i]))
                         && forall j :: 0 <= j < i ==> !Truthy(TickerAt(m, id, holders[j])))
  {
    var p := holders[..|holders| - 1];
    assert forall i :: 0 <= i < |p| ==> p[i] == holders[i];
    if FirstTicker(p, m, id).Some? {
      FirstTickerSome(p, m, id);
      var i :| 0 <= i < |p| && FirstTicker(p, m, id) == TickerAt(m, id, p[i]) && Truthy(TickerAt(m, id, p[i]))
        && forall j :: 0 <= j < i ==> !Truthy(TickerAt(m, id, p[j]));
      assert holders[i] == p[i];
    } else {
      FirstTickerNone(p, m, id);
      assert Truthy(TickerAt(m, id, holders[|p|]));
    }
  }

  // ---- Weighted value ----

  /** The sum of the holders' first-match weights: the independent
      definition of the $100-per-ETF weighted value. */
  function HolderWeightSum(holders: seq<SelectedETF>, m: map<string, seq<Holding>>, id: string): real
    requires Keyed(holders, m)
  {
    if holders == [] then 0.0
    else
      var p := holders[..|holders| - 1];
      assert forall i :: 0 <= i < |p| ==> p[i] == holders[i];
      var e := holders[|holders| - 1];
      HolderWeightSum(p, m, id) + (match Find(m[e.symbol], id) case Some(h) => h.weight case None => 0.0)
  }

  lemma {:induction false} SumWeightsAppend(a: seq<string>, b: seq<string>, w: map<string, WeightEntry>)
    ensures SumWeights(a + b, w) == SumWeights(a, w) + SumWeights(b, w)
    decreases |b|
  {
    if b == [] {
      assert a + b == a;
    } else {
      var b0 := b[..|b| - 1];
      assert (a + b)[..|a + b| - 1] == a + b0;
      SumWeightsAppend(a, b0, w);
    }
  }

  /** Taking one symbol out of the sum subtracts its term. */
  lemma SumWeightsRemove(ys: seq<string>, k: nat, w: map<string, WeightEntry>)
    requires k < |ys|
    ensures SumWeights(ys, w) == SumWeights(ys[..k] + ys[k + 1..], w) + 100.0 * WeightOr0(w, ys[k]) / 100.0
  {
    assert ys == ys[..k] + [ys[k]] + ys[k + 1..];
    SumWeightsAppend(ys[..k] + [ys[k]], ys[k + 1..], w);
    SumWeightsAppend(ys[..k], [ys[k]], w);
    SumWeightsAppend(ys[..k], ys[k + 1..], w);
    assert [ys[k]][..0] == [];
  }

  /** The last element of one of two permuted lists occurs in the other,
      and removing both leaves permuted lists. */
  lemma {:induction false} PermutationStep(xs: seq<string>, ys: seq<string>) returns (k: nat)
    requires xs != [] && multiset(xs) == multiset(ys)
    ensures k < |ys| && ys[k] == xs[|xs| - 1]
    ensures multiset(xs[..|xs| - 1]) == multiset(ys[..k] + ys[k + 1..])
  {
    var p, x := xs[..|xs| - 1], xs[|xs| - 1];
    assert xs == p + [x];
    assert x in multiset(ys);
    k :| 0 <= k < |ys| && ys[k] == x;
    RemoveAt(ys, k);
  }

  /** Removing the `k`-th element removes one occurrence of it. */
  lemma RemoveAt(ys: seq<string>, k: nat)
    requires k < |ys|
    ensures multiset(ys[..k] + ys[k + 1..]) == multiset(ys) - multiset{ys[k]}
  {
    assert ys == ys[..k] + [ys[k]] + ys[k + 1..];
  }

  /** The sum does not depend on the order of the symbols. */
  lemma {:induction false} SumWeightsPermutation(xs: seq<string>, ys: seq<string>, w: map<string, WeightEntry>)
    requires multiset(xs) == multiset(ys)
    ensures SumWeights(xs, w) == SumWeights(ys, w)
    decreases |xs|
  {
    if xs == [] {
      assert |ys| == |multiset(ys)| == 0;
    } else {
      var k := PermutationStep(xs, ys);
      SumWeightsPermutation(xs[..|xs| - 1], ys[..k] + ys[k + 1..], w);
      SumWeightsRemove(ys, k, w);
    }
  }

  /** Entries for keys outside the list do not affect the sum. */
  lemma {:induction false} SumWeightsUpdate(syms: seq<string>, w: map<string, WeightEntry>, key: string, v: WeightEntry)
    requires key !in syms
    ensures SumWeights(syms, w[key := v]) == SumWeights(syms, w)
  {
    if syms != [] {
      SumWeightsUpdate(syms[..|syms| - 1], w, key, v);
    }
  }

  /** With unique symbols, summing the `weights` entries over the holders'
      symbols is the sum of their first-match weights. */
  lemma {:induction false} SumOverHolders(holders: seq<SelectedETF>, m: map<string, seq<Holding>>, id: string)
    requires Keyed(holders, m) && UniqueSymbols(holders)
    requires forall i :: 0 <= i < |holders| ==> HeldIn(m[holders[i].symbol], id)
    ensures SumWeights(Symbols(holders), Weights(holders, m, id)) == HolderWeightSum(holders, m, id)
  {
    if holders != [] {
      var p, e := holders[..|holders| - 1], holders[|holders| - 1];
      assert Keyed(p, m) && UniqueSymbols(p) && e.symbol !in Symbols(p) by {
        UniquePrefix(holders);
        assert forall i :: 0 <= i < |p| ==> p[i] == holders[i];
      }
      assert forall i :: 0 <= i < |p| ==> HeldIn(m[p[i].symbol], id) by {
        assert forall i :: 0 <= i < |p| ==> p[i] == holders[i];
      }
      SumOverHolders(p, m, id);
      var h := Find(m[e.symbol], id).value;
      var w0, v := Weights(p, m, id), WeightEntry(h.weight, h.name);
      var w := Weights(holders, m, id);
      assert w == w0[e.symbol := v];
      assert HolderWeightSum(holders, m, id) == HolderWeightSum(p, m, id) + h.weight;
      SumWeightsUpdate(Symbols(p), w0, e.symbol, v);
      assert Symbols(holders) == Symbols(p) + [e.symbol];
      assert SumWeights(Symbols(holders), w) == SumWeights(Symbols(p), w) + 100.0 * WeightOr0(w, e.symbol) / 100.0;
    }
  }

  /** The weighted value of a shared entry is the sum of the holders'
      weights ($100 in each ETF, so 100 * weight / 100 each), when symbols
      are unique and contain no space, so that splitting the key on " & "
      gives the symbols back. */
  lemma WeightedValueIsSum(sel: seq<SelectedETF>, m: map<string, seq<Holding>>, id: string)
    requires Keyed(sel, m) && UniqueSymbols(sel) && Shared(sel, m, id)
    requires forall i :: 0 <= i < |sel| ==> ' ' !in sel[i].symbol
    ensures WeightedValue(Entry(sel, m, id)) == HolderWeightSum(Holders(sel, m, id), m, id)
  {
    var hs := Holders(sel, m, id);
    var syms := Symbols(hs);
    KeySplitsBack(sel, m, id);
    SortStringsSorts(syms);
    HoldersUnique(sel, m, id);
    SumWeightsPermutation(SortStrings(syms), syms, Weights(hs, m, id));
    SumOverHolders(hs, m, id);
  }

  /** Splitting the subset key on " & " gives the sorted symbols back when
      no symbol holds a space. */
  lemma KeySplitsBack(sel: seq<SelectedETF>, m: map<string, seq<Holding>>, id: string)
    requires Keyed(sel, m) && Shared(sel, m, id)
    requires forall i :: 0 <= i < |sel| ==> ' ' !in sel[i].symbol
    ensures Split(SubsetKey(Holders(sel, m, id)), SubsetSeparator) == SortStrings(Symbols(Holders(sel, m, id)))
  {
    var sorted := SortStrings(Symbols(Holders(sel, m, id)));
    SortedWithoutSpace(sel, m, id);
    assert SubsetSeparator[0] == ' ';
    SplitJoin(sorted, SubsetSeparator);
  }

  /** The sorted holder symbols hold no space. */
  lemma SortedWithoutSpace(sel: seq<SelectedETF>, m: map<string, seq<Holding>>, id: string)
    requires Keyed(sel, m)
    requires forall i :: 0 <= i < |sel| ==> ' ' !in sel[i].symbol
    ensures forall i :: 0 <= i < |SortStrings(Symbols(Holders(sel, m, id)))| ==>
      ' ' !in SortStrings(Symbols(Holders(sel, m, id)))[i]
  {
    var hs := Holders(sel, m, id);
    var syms := Symbols(hs);
    var sorted := SortStrings(syms);
    SortStringsSorts(syms);
    forall i | 0 <= i < |sorted| ensures ' ' !in sorted[i] {
      assert sorted[i] in multiset(syms);
      var k :| 0 <= k < |syms| && syms[k] == sorted[i];
      assert hs[k] in sel;
    }
  }

  /** Weights 5 and 10 in the ETFs "A" and "C" give the weighted value 15. */
  lemma WeightedValueExample(key: string, n: string)
    requires key == "A & C"
    ensures WeightedValue(SharedHolding(n, n, key,
      map["A" := WeightEntry(5.0, n), "C" := WeightEntry(10.0, n)], 0.0)) == 15.0
  {
    var xs := ["A", "C"];
    var w := map["A" := WeightEntry(5.0, n), "C" := WeightEntry(10.0, n)];
    assert Join(xs, " & ") == key;
    SplitJoin(xs, " & ");
    assert Split(key, " & ") == xs;
    assert xs[..1] == ["A"] && xs[..1][..0] == [];
    assert SumWeights(["A"], w) == 5.0;
    assert SumWeights(xs, w) == SumWeights(["A"], w) + 100.0 * WeightOr0(w, "C") / 100.0;
  }

  /** The subset key sorts the symbols: "A" and "C" give "A & C" in either
      selection order. */
  lemma SubsetKeyExample(a: SelectedETF, c: SelectedETF)
    requires a.symbol == "A" && c.symbol == "C"
    ensures SubsetKey([c, a]) == "A & C" && SubsetKey([a, c]) == "A & C"
  {
    SymbolsPair(c, a);
    SymbolsPair(a, c);
    SortPair("A", "C");
    JoinPair("A", "C", SubsetSeparator);
  }

  /** Why the weighting lemmas ask for symbols without a space rather than
      only symbols without " & ": "A &" and "B" hold no separator, yet
      their key "A & & B" splits at its first " & " into "A" and "& B". */
  lemma SeparatorFreeSymbolsNotEnough()
    ensures !Contains("A &", SubsetSeparator) && !Contains("B", SubsetSeparator)
    ensures Join(["A &", "B"], SubsetSeparator) == "A & & B"
    ensures Split("A & & B", SubsetSeparator) == ["A", "& B"]
  {
    var sep := SubsetSeparator;
    assert sep == " & " && |sep| == 3 && sep[0] == ' ' && sep[1] == '&' && sep[2] == ' ';
    assert "A &"[..3][0] == 'A' && "A &"[..3][2] == '&';
    assert !StartsWith("A &", sep) && !StartsWith(" &", sep) && !StartsWith("&", sep);
    assert "A &"[1..] == " &" && " &"[1..] == "&" && "&"[1..] == "";
    assert !Contains("B", sep);
    assert Join(["A &", "B"], sep) == "A &" + sep + Join(["B"], sep);
    var s := "A & & B";
    assert s[1..] == sep + "& B" && "& B"[1..] == " B";
    assert "& B"[..3][0] == '&' && s[..3][0] == 'A';
    SplitShort(" B", sep);
    SplitUnmatched("& B", sep);
    assert Split("& B", sep) == [['&'] + " B"];
    SplitAtSeparator(sep, "& B");
    SplitUnmatched(s, sep);
    assert Split(s, sep) == [['A'] + ""] + [['&'] + " B"];
    assert ['A'] + "" == "A" && ['&'] + " B" == "& B";
    assert [['A'] + ""] + [['&'] + " B"] == ["A", "& B"];
  }

  /** A text shorter than the separator is one piece. */
  lemma {:induction false} SplitShort(x: string, sep: string)
    requires sep != [] && |x| < |sep|
    ensures Split(x, sep) == [x]
  {
    if x != [] {
      SplitShort(x[1..], sep);
      assert [x[0]] + x[1..] == x;
    }
  }

  /** A text that starts with the separator has an empty first piece. */
  lemma SplitAtSeparator(sep: string, rest: string)
    requires sep != []
    ensures Split(sep + rest, sep) == [""] + Split(rest, sep)
  {
    assert StartsWith(sep + rest, sep) && (sep + rest)[|sep|..] == rest;
  }

  /** Where the separator does not start, the first character joins the first piece. */
  lemma SplitUnmatched(s: string, sep: string)
    requires sep != [] && s != [] && !StartsWith(s, sep)
    ensures Split(s, sep) == [[s[0]] + Split(s[1..], sep)[0]] + Split(s[1..], sep)[1..]
  {
  }

  lemma SymbolsPair(a: SelectedETF, c: SelectedETF)
    ensures Symbols([a, c]) == [a.symbol, c.symbol]
  {
    assert [a, c][..1] == [a];
  }

  // ---- The ranked result ----

  /** The weighted entry of a shared identifier. */
  function ValuedEntry(sel: seq<SelectedETF>, m: map<string, seq<Holding>>, id: string): SharedHolding
    requires Keyed(sel, m)
  {
    var e := Entry(sel, m, id);
    e.(weightedValue := WeightedValue(e))
  }

  /** Before ranking, the entries are the weighted entries of the shared
      identifiers in discovery order. */
  lemma ValuedEntries(sel: seq<SelectedETF>, m: map<string, seq<Holding>>)
    requires Keyed(sel, m)
    ensures |Valued(Collect(Discover(sel, m), sel, m))| == |SharedIds(Discover(sel, m), sel, m)|
    ensures forall j :: 0 <= j < |SharedIds(Discover(sel, m), sel, m)| ==>
      Valued(Collect(Discover(sel, m), sel, m))[j] == ValuedEntry(sel, m, SharedIds(Discover(sel, m), sel, m)[j])
  {
    CollectEntries(Discover(sel, m), sel, m);
  }

  /** A shared identifier: non-empty, held by at least two selected ETFs. */
  predicate SharedId(sel: seq<SelectedETF>, m: map<string, seq<Holding>>, id: string)
    requires Keyed(sel, m)
  {
    id != "" && |Holders(sel, m, id)| >= 2
  }

  lemma ValuedShared(sel: seq<SelectedETF>, m: map<string, seq<Holding>>, s: SharedHolding) returns (id: string)
    requires Keyed(sel, m) && s in Valued(Collect(Discover(sel, m), sel, m))
    ensures SharedId(sel, m, id) && s == ValuedEntry(sel, m, id)
  {
    var ids := SharedIds(Discover(sel, m), sel, m);
    var valued := Valued(Collect(Discover(sel, m), sel, m));
    ValuedEntries(sel, m);
    var j :| 0 <= j < |valued| && valued[j] == s;
    SharedDiscovered(sel, m, ids[j]);
    assert ids[j] in ids;
    id := ids[j];
  }

  /** The analysis, when it succeeds, unfolded. */
  lemma IntersectionsOfSome(sel: seq<SelectedETF>)
    requires IntersectionsOf(sel).Some?
    ensures Keyed(sel, HoldingsMap(sel))
    ensures IntersectionsOf(sel).value == IntersectionData(
      Ranking.SortByValue(Valued(Collect(Discover(sel, HoldingsMap(sel)), sel, HoldingsMap(sel)))), HoldingsMap(sel))
  {
  }

  /** Every ranked entry is the weighted entry of one non-empty identifier
      that at least two selected ETFs hold. */
  lemma ResultEntries(sel: seq<SelectedETF>, s: SharedHolding)
    requires IntersectionsOf(sel).Some? && s in IntersectionsOf(sel).value.sharedHoldings
    ensures IntersectionsOf(sel).value.holdingsByETF == HoldingsMap(sel)
    ensures exists id :: SharedId(sel, HoldingsMap(sel), id) && s == ValuedEntry(sel, HoldingsMap(sel), id)
  {
    IntersectionsOfSome(sel);
    var m := HoldingsMap(sel);
    var valued := Valued(Collect(Discover(sel, m), sel, m));
    assert s in multiset(valued) by {
      Ranking.SortByValuePermutes(valued);
    }
    var id := ValuedShared(sel, m, s);
  }

  /** The ranked entries are a permutation of the discovered ones; when no
      weighted value is 0 they are ordered non-increasingly, and entries of
      equal value keep their discovery order. */
  lemma ResultRanked(sel: seq<SelectedETF>, v: real)
    requires IntersectionsOf(sel).Some?
    ensures var m := HoldingsMap(sel);
      var valued := Valued(Collect(Discover(sel, m), sel, m));
      var ranked := IntersectionsOf(sel).value.sharedHoldings;
      multiset(ranked) == multiset(valued)
      && (Ranking.AllNonZero(valued) ==>
            Ranking.NonIncreasing(ranked) && Ranking.WithValue(ranked, v) == Ranking.WithValue(valued, v))
  {
    var m := HoldingsMap(sel);
    var valued := Valued(Collect(Discover(sel, m), sel, m));
    Ranking.SortByValuePermutes(valued);
    if Ranking.AllNonZero(valued) {
      Ranking.SortByValueOrdered(valued, v);
    }
  }
}
