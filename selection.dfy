/** The ordered list of selected ETFs, keyed by symbol, shared by the
    comparator and the intersection analyzer. */
module Selection {
  import opened Wrappers
  import opened Etf

  function Symbols(sel: seq<SelectedETF>): (r: seq<string>)
    ensures |r| == |sel| && forall i :: 0 <= i < |sel| ==> r[i] == sel[i].symbol
  {
    if sel == [] then [] else Symbols(sel[..|sel| - 1]) + [sel[|sel| - 1].symbol]
  }

  /** `selectedETFs.find(e => e.symbol === s)` finds something. */
  predicate IsSelected(sel: seq<SelectedETF>, s: string) {
    exists i :: 0 <= i < |sel| && sel[i].symbol == s
  }

  /** No symbol occurs twice. */
  predicate UniqueSymbols(sel: seq<SelectedETF>) {
    forall i, j :: 0 <= i < j < |sel| ==> sel[i].symbol != sel[j].symbol
  }

  /** `selectedETFs.filter(e => e.symbol !== s)`. */
  function Without(sel: seq<SelectedETF>, s: string): (r: seq<SelectedETF>)
    ensures |r| <= |sel|
    ensures forall e :: e in r <==> e in sel && e.symbol != s
    ensures !IsSelected(r, s)
  {
    if sel == [] then []
    else
      var rest := Without(sel[..|sel| - 1], s);
      var last := sel[|sel| - 1];
      assert sel == sel[..|sel| - 1] + [last];
      if last.symbol != s then rest + [last] else rest
  }

  /** Removal keeps the relative order of the others: it distributes over
      concatenation and keeps or drops each single entry. */
  lemma {:induction false} WithoutAppend(a: seq<SelectedETF>, b: seq<SelectedETF>, s: string)
    ensures Without(a + b, s) == Without(a, s) + Without(b, s)
    decreases |b|
  {
    if b == [] {
      assert a + b == a;
    } else {
      var b0 := b[..|b| - 1];
      assert (a + b)[..|a + b| - 1] == a + b0;
      WithoutAppend(a, b0, s);
    }
  }

  lemma WithoutSingle(e: SelectedETF, s: string)
    ensures Without([e], s) == if e.symbol == s then [] else [e]
  {
    assert [e][..0] == [];
  }

  /** Removing an absent symbol changes nothing. */
  lemma {:induction false} WithoutAbsent(sel: seq<SelectedETF>, s: string)
    requires !IsSelected(sel, s)
    ensures Without(sel, s) == sel
  {
    if sel != [] {
      var p := sel[..|sel| - 1];
      assert !IsSelected(p, s) by {
        forall i | 0 <= i < |p| ensures p[i].symbol != s {
          assert p[i] == sel[i];
        }
      }
      WithoutAbsent(p, s);
      assert sel[|sel| - 1].symbol != s;
      assert p + [sel[|sel| - 1]] == sel;
    }
  }

  /** Removal keeps symbols unique. */
  lemma {:induction false} WithoutUnique(sel: seq<SelectedETF>, s: string)
    requires UniqueSymbols(sel)
    ensures UniqueSymbols(Without(sel, s))
  {
    if sel != [] {
      var p := sel[..|sel| - 1];
      var last := sel[|sel| - 1];
      assert UniqueSymbols(p) by {
        forall i, j | 0 <= i < j < |p| ensures p[i].symbol != p[j].symbol {
          assert p[i] == sel[i] && p[j] == sel[j];
        }
      }
      WithoutUnique(p, s);
      var rest := Without(p, s);
      if last.symbol != s {
        forall i | 0 <= i < |rest| ensures rest[i].symbol != last.symbol {
          assert rest[i] in p;
          var k :| 0 <= k < |p| && p[k] == rest[i];
          assert sel[k] == p[k];
        }
      }
    }
  }

  /** Appending an entry whose symbol is not yet selected keeps symbols unique. */
  lemma AppendUnique(sel: seq<SelectedETF>, e: SelectedETF)
    requires UniqueSymbols(sel) && !IsSelected(sel, e.symbol)
    ensures UniqueSymbols(sel + [e])
    ensures Symbols(sel + [e]) == Symbols(sel) + [e.symbol]
  {
    assert (sel + [e])[..|sel|] == sel;
  }

  /** A symbol is selected exactly when it is in the front part or is the last entry's. */
  lemma IsSelectedSplit(sel: seq<SelectedETF>, s: string)
    requires sel != []
    ensures IsSelected(sel, s) <==> IsSelected(sel[..|sel| - 1], s) || sel[|sel| - 1].symbol == s
  {
    var p := sel[..|sel| - 1];
    if IsSelected(p, s) {
      var k :| 0 <= k < |p| && p[k].symbol == s;
      assert sel[k] == p[k];
    }
    if IsSelected(sel, s) && sel[|sel| - 1].symbol != s {
      var k :| 0 <= k < |sel| && sel[k].symbol == s;
      assert k < |p| && p[k] == sel[k];
    }
  }

  lemma UniquePrefix(sel: seq<SelectedETF>)
    requires sel != [] && UniqueSymbols(sel)
    ensures UniqueSymbols(sel[..|sel| - 1]) && !IsSelected(sel[..|sel| - 1], sel[|sel| - 1].symbol)
  {
    var p := sel[..|sel| - 1];
    forall i | 0 <= i < |p| ensures p[i] == sel[i] {
    }
  }

  /** With unique symbols, removing a selected symbol removes exactly one entry. */
  lemma {:induction false} WithoutCount(sel: seq<SelectedETF>, s: string)
    requires UniqueSymbols(sel)
    ensures |Without(sel, s)| == if IsSelected(sel, s) then |sel| - 1 else |sel|
  {
    if sel != [] {
      var p := sel[..|sel| - 1];
      var last := sel[|sel| - 1];
      UniquePrefix(sel);
      WithoutCount(p, s);
      IsSelectedSplit(sel, s);
      assert Without(sel, s) == if last.symbol != s then Without(p, s) + [last] else Without(p, s);
    }
  }

  /** Selection after removal: exactly the other symbols stay selected. */
  lemma WithoutSelected(sel: seq<SelectedETF>, s: string, t: string)
    ensures IsSelected(Without(sel, s), t) <==> IsSelected(sel, t) && t != s
  {
    var r := Without(sel, s);
    if IsSelected(r, t) {
      var i :| 0 <= i < |r| && r[i].symbol == t;
      assert r[i] in sel;
      var j :| 0 <= j < |sel| && sel[j] == r[i];
    }
    if IsSelected(sel, t) && t != s {
      var j :| 0 <= j < |sel| && sel[j].symbol == t;
      assert sel[j] in r;
      var i :| 0 <= i < |r| && r[i] == sel[j];
    }
  }

  /** Removing the entry just added gives the old list back. */
  lemma AddThenRemove(sel: seq<SelectedETF>, e: SelectedETF)
    requires !IsSelected(sel, e.symbol)
    ensures Without(sel + [e], e.symbol) == sel
  {
    WithoutAppend(sel, [e], e.symbol);
    WithoutSingle(e, e.symbol);
    WithoutAbsent(sel, e.symbol);
    assert sel + [] == sel;
  }

  /** The entry `handleAddETF` appends for `etf` after `fetch`, or `None`
      when the handler ends in its `catch`: the request failed, or the body
      is `null` while `etf.name` is empty (reading `data.name` then throws).
      The name is `etf.name || data.name || etf.symbol`. */
  function FetchedEntry(etf: ETFSummary, fetch: Fetch): (r: Option<SelectedETF>)
    ensures fetch.FetchFailed? ==> r == None
    ensures r.Some? ==> (fetch.Fetched? && r.value.symbol == etf.symbol && r.value.data == fetch.body)
    ensures (fetch.Fetched? && Truthy(etf.name)) ==> r.Some? && r.value.name == etf.name.value
    ensures (fetch.Fetched? && !Truthy(etf.name)) ==> (
      match fetch.body
      case None => r == None
      case Some(d) => r.Some? && r.value.name == (if Truthy(d.name) then d.name.value else etf.symbol))
  {
    match fetch
    case FetchFailed => None
    case Fetched(data) =>
      if Truthy(etf.name) then Some(SelectedETF(etf.symbol, etf.name.value, data))
      else if data.None? then None
      else if Truthy(data.value.name) then Some(SelectedETF(etf.symbol, data.value.name.value, data))
      else Some(SelectedETF(etf.symbol, etf.symbol, data))
  }

  /** The invariant tying a selection list to the data kept by symbol: no
      symbol twice, the selected symbols are exactly the keys, and each key
      maps to the data of its entry. */
  ghost predicate Consistent(sel: seq<SelectedETF>, data: map<string, Option<ETFDetail>>) {
    UniqueSymbols(sel)
    && (forall s :: s in data <==> IsSelected(sel, s))
    && (forall i :: 0 <= i < |sel| ==> data[sel[i].symbol] == sel[i].data)
  }

  /** Appending a new entry and storing its data keeps the invariant. */
  lemma ConsistentAdd(sel: seq<SelectedETF>, data: map<string, Option<ETFDetail>>, e: SelectedETF)
    requires Consistent(sel, data) && !IsSelected(sel, e.symbol)
    ensures Consistent(sel + [e], data[e.symbol := e.data])
  {
    var sel', data' := sel + [e], data[e.symbol := e.data];
    AppendUnique(sel, e);
    forall s ensures s in data' <==> IsSelected(sel', s) {
      if IsSelected(sel', s) {
        var i :| 0 <= i < |sel'| && sel'[i].symbol == s;
        if i < |sel| {
          assert sel[i].symbol == s;
        }
      }
      if s in data' && s != e.symbol {
        var i :| 0 <= i < |sel| && sel[i].symbol == s;
        assert sel'[i].symbol == s;
      }
    }
    assert sel'[|sel|] == e;
  }

  /** Filtering a symbol out of the list and deleting its key keeps the invariant. */
  lemma ConsistentRemove(sel: seq<SelectedETF>, data: map<string, Option<ETFDetail>>, s: string)
    requires Consistent(sel, data)
    ensures Consistent(Without(sel, s), data - {s})
  {
    var sel', data' := Without(sel, s), data - {s};
    WithoutUnique(sel, s);
    forall t ensures t in data' <==> IsSelected(sel', t) {
      WithoutSelected(sel, s, t);
    }
    forall i | 0 <= i < |sel'| ensures data'[sel'[i].symbol] == sel'[i].data {
      var e := sel'[i];
      assert e in sel && e.symbol != s;
      var j :| 0 <= j < |sel| && sel[j] == e;
    }
  }
}
