/** The ordering of the shared holdings (`IntersectionAnalyzer.jsx`, the
    `sharedHoldings.sort(...)` call): a stable sort under a comparator that
    puts the larger weighted value first when both values are non-zero and
    treats the pair as equal otherwise. */
module Ranking {
  import opened Holdings

  /** The comparator; a positive result orders `b` before `a`. */
  function Compare(a: SharedHolding, b: SharedHolding): real {
    if a.weightedValue != 0.0 && b.weightedValue != 0.0 then b.weightedValue - a.weightedValue else 0.0
  }

  /** Inserts `x` behind every entry that the comparator does not order
      after it, scanning from the back. */
  function Insert(t: seq<SharedHolding>, x: SharedHolding): (r: seq<SharedHolding>)
    ensures |r| == |t| + 1
  {
    if t == [] then [x]
    else if Compare(t[|t| - 1], x) > 0.0 then Insert(t[..|t| - 1], x) + [t[|t| - 1]]
    else t + [x]
  }

  /** Insertion adds exactly `x`. */
  lemma {:induction false} InsertPermutes(t: seq<SharedHolding>, x: SharedHolding)
    ensures multiset(Insert(t, x)) == multiset(t) + multiset{x}
  {
    if t != [] {
      var p := t[..|t| - 1];
      assert t == p + [t[|t| - 1]];
      if Compare(t[|t| - 1], x) > 0.0 {
        InsertPermutes(p, x);
      }
    }
  }

  /** A stable sort by the comparator: entries are inserted in input order. */
  function SortByValue(s: seq<SharedHolding>): (r: seq<SharedHolding>)
    ensures |r| == |s|
  {
    if s == [] then [] else Insert(SortByValue(s[..|s| - 1]), s[|s| - 1])
  }

  /** The sort is a permutation of its input. */
  lemma {:induction false} SortByValuePermutes(s: seq<SharedHolding>)
    ensures multiset(SortByValue(s)) == multiset(s)
  {
    if s != [] {
      var p := s[..|s| - 1];
      assert s == p + [s[|s| - 1]];
      SortByValuePermutes(p);
      InsertPermutes(SortByValue(p), s[|s| - 1]);
    }
  }

  predicate AllNonZero(s: seq<SharedHolding>) {
    forall i :: 0 <= i < |s| ==> s[i].weightedValue != 0.0
  }

  predicate NonIncreasing(s: seq<SharedHolding>) {
    forall i, j :: 0 <= i < j < |s| ==> s[i].weightedValue >= s[j].weightedValue
  }

  /** The entries whose weighted value is `v`, in order. */
  function WithValue(s: seq<SharedHolding>, v: real): seq<SharedHolding> {
    if s == [] then []
    else WithValue(s[..|s| - 1], v) + (if s[|s| - 1].weightedValue == v then [s[|s| - 1]] else [])
  }

  lemma {:induction false} WithValueAppend(a: seq<SharedHolding>, b: seq<SharedHolding>, v: real)
    ensures WithValue(a + b, v) == WithValue(a, v) + WithValue(b, v)
    decreases |b|
  {
    if b == [] {
      assert a + b == a;
    } else {
      var b0 := b[..|b| - 1];
      assert (a + b)[..|a + b| - 1] == a + b0;
      WithValueAppend(a, b0, v);
    }
  }

  lemma {:induction false} NonZeroMembers(s: seq<SharedHolding>, t: seq<SharedHolding>)
    requires AllNonZero(s) && multiset(t) == multiset(s)
    ensures AllNonZero(t)
  {
    forall i | 0 <= i < |t| ensures t[i].weightedValue != 0.0 {
      assert t[i] in multiset(s);
    }
  }

  /** Inserting a non-zero entry into a non-increasing list of non-zero
      entries keeps it non-increasing. */
  lemma {:induction false} InsertSorted(t: seq<SharedHolding>, x: SharedHolding)
    requires AllNonZero(t) && NonIncreasing(t) && x.weightedValue != 0.0
    ensures NonIncreasing(Insert(t, x))
  {
    if t != [] {
      var p, last := t[..|t| - 1], t[|t| - 1];
      if Compare(last, x) > 0.0 {
        assert AllNonZero(p) && NonIncreasing(p);
        InsertSorted(p, x);
        InsertedAbove(p, x, last.weightedValue);
        assert Insert(t, x) == Insert(p, x) + [last];
        AppendSmaller(Insert(p, x), last);
      } else {
        assert x.weightedValue <= last.weightedValue;
      }
    }
  }

  /** Inserting into entries of at least `b` an entry of at least `b` gives
      entries of at least `b`. */
  lemma InsertedAbove(p: seq<SharedHolding>, x: SharedHolding, b: real)
    requires forall i :: 0 <= i < |p| ==> p[i].weightedValue >= b
    requires x.weightedValue >= b
    ensures forall i :: 0 <= i < |Insert(p, x)| ==> Insert(p, x)[i].weightedValue >= b
  {
    var q := Insert(p, x);
    InsertPermutes(p, x);
    forall i | 0 <= i < |q| ensures q[i].weightedValue >= b {
      assert q[i] in multiset(p) + multiset{x};
      if q[i] != x {
        assert q[i] in p;
      }
    }
  }

  /** An entry no larger than any before it extends a non-increasing list. */
  lemma AppendSmaller(q: seq<SharedHolding>, last: SharedHolding)
    requires NonIncreasing(q)
    requires forall i :: 0 <= i < |q| ==> q[i].weightedValue >= last.weightedValue
    ensures NonIncreasing(q + [last])
  {
  }

  lemma WithValueSingle(e: SharedHolding, v: real)
    ensures WithValue([e], v) == if e.weightedValue == v then [e] else []
  {
    assert [e][..0] == [];
  }

  /** The entries of value `v` that `x` contributes. */
  function Own(x: SharedHolding, v: real): seq<SharedHolding> {
    if x.weightedValue == v then [x] else []
  }

  /** One step of insertion past a smaller last entry keeps the entries of
      value `v` in order. */
  lemma {:induction false} StableStep(p: seq<SharedHolding>, last: SharedHolding, x: SharedHolding, v: real)
    requires Compare(last, x) > 0.0
    requires WithValue(Insert(p, x), v) == WithValue(p, v) + Own(x, v)
    ensures WithValue(Insert(p + [last], x), v) == WithValue(p + [last], v) + Own(x, v)
  {
    var t := p + [last];
    var q := Insert(p, x);
    assert t[..|t| - 1] == p && t[|t| - 1] == last;
    assert Insert(t, x) == q + [last];
    WithValueAppend(q, [last], v);
    WithValueAppend(p, [last], v);
    WithValueSingle(last, v);
    SwapEmpty(WithValue(p, v), Own(x, v), WithValue([last], v));
  }

  /** Two lists of which one is empty can be appended in either order. */
  lemma SwapEmpty(w: seq<SharedHolding>, o: seq<SharedHolding>, l: seq<SharedHolding>)
    requires o == [] || l == []
    ensures w + o + l == w + l + o
  {
    if o == [] {
      assert w + o == w && l + o == l;
    } else {
      assert w + l == w && o + l == o;
    }
  }

  /** Insertion is stable: the entries of value `v` keep their order, with
      `x` after the old ones. */
  lemma {:induction false} InsertStable(t: seq<SharedHolding>, x: SharedHolding, v: real)
    ensures WithValue(Insert(t, x), v) == WithValue(t, v) + Own(x, v)
  {
    WithValueSingle(x, v);
    if t == [] {
      assert [] + [x] == [x];
    } else {
      var p, last := t[..|t| - 1], t[|t| - 1];
      assert t == p + [last];
      if Compare(last, x) > 0.0 {
        InsertStable(p, x, v);
        StableStep(p, last, x, v);
      } else {
        assert Insert(t, x) == t + [x];
        WithValueAppend(t, [x], v);
      }
    }
  }

  /** When no weighted value is 0, the result is ordered non-increasingly
      and equal values keep their input order. */
  lemma {:induction false} SortByValueOrdered(s: seq<SharedHolding>, v: real)
    requires AllNonZero(s)
    ensures NonIncreasing(SortByValue(s))
    ensures WithValue(SortByValue(s), v) == WithValue(s, v)
  {
    if s != [] {
      var p := s[..|s| - 1];
      assert AllNonZero(p);
      SortByValueOrdered(p, v);
      SortByValuePermutes(p);
      NonZeroMembers(p, SortByValue(p));
      InsertSorted(SortByValue(p), s[|s| - 1]);
      InsertStable(SortByValue(p), s[|s| - 1], v);
    }
  }
}
