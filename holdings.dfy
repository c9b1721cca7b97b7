/** The per-ETF holdings normaliser of the intersection analyzer
    (`src/components/IntersectionAnalyzer.jsx`, the `.filter().map()` chain
    inside `calculateIntersections`) and the records the analysis produces. */
module Holdings {
  import opened Wrappers
  import opened Strings
  import opened Names
  import opened Etf

  /** A holding after normalisation. `ticker` is `None` where the source has
      `null`; `identifier` is the matching key. */
  datatype Holding = Holding(ticker: Option<string>, name: string, weight: real, identifier: string)

  /** One ETF's entry in a shared holding's `weights` object. */
  datatype WeightEntry = WeightEntry(weight: real, name: string)

  /** A holding held by two or more selected ETFs. `etfs` is the subset key;
      `weightedValue` is 0 until the weighting pass assigns it. */
  datatype SharedHolding = SharedHolding(
    ticker: string,
    name: string,
    etfs: string,
    weights: map<string, WeightEntry>,
    weightedValue: real)

  /** `h.ticker || h.symbol || null`. */
  function RawTicker(h: RawHolding): (r: Option<string>)
    ensures r.Some? <==> Truthy(h.ticker) || Truthy(h.symbol)
    ensures r.Some? ==> r.value != ""
    ensures Truthy(h.ticker) ==> r == h.ticker
    ensures !Truthy(h.ticker) && Truthy(h.symbol) ==> r == h.symbol
  {
    if Truthy(h.ticker) then h.ticker else if Truthy(h.symbol) then h.symbol else None
  }

  /** The raw ticker after `.toUpperCase().trim()`; `None` when there is none. */
  function CleanTicker(h: RawHolding): Option<string> {
    match RawTicker(h)
    case Some(t) => Some(Trim(Upper(t)))
    case None => None
  }

  /** `h.name || ''`. */
  function NameOf(h: RawHolding): string {
    if Truthy(h.name) then h.name.value else ""
  }

  /** `h.weight || 0`. */
  function WeightOf(h: RawHolding): real {
    h.weight.GetOr(0.0)
  }

  /** The catch-all test of the filter, on the cleaned ticker (empty when
      absent) and the name. */
  predicate IsCatchAllText(ticker: string, name: string) {
    ticker == "OTHERS" || ticker == "OTHER"
    || Contains(Upper(name), "OTHER HOLDINGS") || Contains(Upper(name), "OTHERS")
  }

  predicate IsCatchAll(h: RawHolding) {
    IsCatchAllText(CleanTicker(h).GetOr(""), NameOf(h))
  }

  /** The filter predicate: not `null` and not a catch-all line. */
  predicate Kept(h: Option<RawHolding>) {
    h.Some? && !IsCatchAll(h.value)
  }

  /** `ticker || normalizeName(name)`. */
  function Identifier(ticker: Option<string>, name: string): (r: string)
    ensures Truthy(ticker) ==> r == ticker.value
  {
    if Truthy(ticker) then ticker.value else NormalizeName(name)
  }

  /** The `.map` step for one kept holding. */
  function Normalize(h: RawHolding): Holding {
    var ticker := CleanTicker(h);
    Holding(ticker, NameOf(h), WeightOf(h), Identifier(ticker, NameOf(h)))
  }

  /** The `.filter` step. */
  function KeptHoldings(hs: seq<Option<RawHolding>>): (r: seq<RawHolding>)
    ensures |r| <= |hs|
  {
    if hs == [] then []
    else
      var p := hs[..|hs| - 1];
      var last := hs[|hs| - 1];
      KeptHoldings(p) + (if Kept(last) then [last.value] else [])
  }

  /** A holding is kept exactly when it is present and not a catch-all line. */
  lemma {:induction false} KeptHoldingsMembers(hs: seq<Option<RawHolding>>)
    ensures forall x :: x in KeptHoldings(hs) <==> Some(x) in hs && !IsCatchAll(x)
  {
    if hs != [] {
      var p := hs[..|hs| - 1];
      var last := hs[|hs| - 1];
      assert hs == p + [last];
      KeptHoldingsMembers(p);
    }
  }

  /** The `.map` step over the kept holdings. */
  function NormalizeAll(xs: seq<RawHolding>): (r: seq<Holding>)
    ensures |r| == |xs|
  {
    if xs == [] then [] else NormalizeAll(xs[..|xs| - 1]) + [Normalize(xs[|xs| - 1])]
  }

  /** The `.map` step normalises each kept holding in place. */
  lemma {:induction false} NormalizeAllPointwise(xs: seq<RawHolding>)
    ensures forall i :: 0 <= i < |xs| ==> NormalizeAll(xs)[i] == Normalize(xs[i])
  {
    if xs != [] {
      NormalizeAllPointwise(xs[..|xs| - 1]);
    }
  }

  /** The whole normaliser of one ETF's holdings list. */
  function NormalizeHoldings(hs: seq<Option<RawHolding>>): (r: seq<Holding>)
    ensures |r| <= |hs|
  {
    NormalizeAll(KeptHoldings(hs))
  }

  /** Nothing the normaliser returns is a catch-all line, every identifier
      follows the ticker-else-name rule, and every output is the normalised
      form of an input holding. */
  lemma NormalizeHoldingsShape(hs: seq<Option<RawHolding>>)
    ensures var r := NormalizeHoldings(hs);
      && (forall i :: 0 <= i < |r| ==> !IsCatchAllText(r[i].ticker.GetOr(""), r[i].name))
      && (forall i :: 0 <= i < |r| ==>
            r[i].identifier == (if Truthy(r[i].ticker) then r[i].ticker.value else NormalizeName(r[i].name)))
      && (forall i :: 0 <= i < |r| ==> exists h :: Some(h) in hs && r[i] == Normalize(h))
  {
    var kept := KeptHoldings(hs);
    KeptHoldingsMembers(hs);
    NormalizeAllPointwise(kept);
    assert forall i :: 0 <= i < |kept| ==> kept[i] in kept;
  }

  /** Every non-null, non-catch-all holding of the input is kept. */
  lemma NormalizeKeepsOthers(hs: seq<Option<RawHolding>>, h: RawHolding)
    requires Some(h) in hs && !IsCatchAll(h)
    ensures Normalize(h) in NormalizeHoldings(hs)
  {
    var kept := KeptHoldings(hs);
    KeptHoldingsMembers(hs);
    NormalizeAllPointwise(kept);
    var k :| 0 <= k < |kept| && kept[k] == h;
    assert NormalizeHoldings(hs)[k] == Normalize(h);
  }

  /** The normaliser keeps input order: it distributes over concatenation. */
  lemma {:induction false} KeptAppend(a: seq<Option<RawHolding>>, b: seq<Option<RawHolding>>)
    ensures KeptHoldings(a + b) == KeptHoldings(a) + KeptHoldings(b)
    decreases |b|
  {
    if b == [] {
      assert a + b == a;
    } else {
      var b0 := b[..|b| - 1];
      assert (a + b)[..|a + b| - 1] == a + b0;
      KeptAppend(a, b0);
    }
  }

  lemma {:induction false} NormalizeAllAppend(a: seq<RawHolding>, b: seq<RawHolding>)
    ensures NormalizeAll(a + b) == NormalizeAll(a) + NormalizeAll(b)
  {
    var l, r := NormalizeAll(a + b), NormalizeAll(a) + NormalizeAll(b);
    NormalizeAllPointwise(a + b);
    NormalizeAllPointwise(a);
    NormalizeAllPointwise(b);
    assert |l| == |r|;
    forall i | 0 <= i < |l| ensures l[i] == r[i] {
      if i < |a| {
        assert (a + b)[i] == a[i];
      } else {
        assert (a + b)[i] == b[i - |a|];
      }
    }
  }

  lemma NormalizeHoldingsAppend(a: seq<Option<RawHolding>>, b: seq<Option<RawHolding>>)
    ensures NormalizeHoldings(a + b) == NormalizeHoldings(a) + NormalizeHoldings(b)
  {
    KeptAppend(a, b);
    NormalizeAllAppend(KeptHoldings(a), KeptHoldings(b));
  }

  /** A single entry is dropped exactly when it is null or a catch-all line. */
  lemma NormalizeHoldingsSingle(h: Option<RawHolding>)
    ensures NormalizeHoldings([h]) == if Kept(h) then [Normalize(h.value)] else []
  {
    assert [h][..0] == [];
  }
}
