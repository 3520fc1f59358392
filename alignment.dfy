/** `combined`: `pd.concat([agg_a, agg_b], axis=1).fillna(0)`. */
module Alignment {
  import opened Types

  /** The two counts a group has in the combined frame. */
  datatype Counts = Counts(countA: nat, countB: nat)

  /** One row of the combined frame, in frame order. */
  datatype FrameRow = FrameRow(key: GroupKey, countA: nat, countB: nat)

  /** A series' count for `k`, with a missing group read as 0 (`fillna(0)`). */
  function CountOrZero(m: map<GroupKey, nat>, k: GroupKey): nat
  {
    if k in m then m[k] else 0
  }

  /** Outer join of two group-count series over the union of their groups. */
  function Align(a: map<GroupKey, nat>, b: map<GroupKey, nat>): (c: map<GroupKey, Counts>)
    ensures c.Keys == a.Keys + b.Keys
    ensures forall k :: k in a ==> c[k].countA == a[k]
    ensures forall k :: k in b ==> c[k].countB == b[k]
    ensures forall k :: k in c && k !in a ==> c[k].countA == 0
    ensures forall k :: k in c && k !in b ==> c[k].countB == 0
  {
    map k | k in a.Keys + b.Keys :: Counts(CountOrZero(a, k), CountOrZero(b, k))
  }

  /** `order` lists every group of `keys` exactly once. */
  ghost predicate IsEnumeration(order: seq<GroupKey>, keys: set<GroupKey>)
  {
    && (forall i, j :: 0 <= i < j < |order| ==> order[i] != order[j])
    && (forall k :: k in keys <==> k in order)
  }

  /** The rows of the combined frame, taken in the order `order` gives the groups. */
  function Frame(c: map<GroupKey, Counts>, order: seq<GroupKey>): (f: seq<FrameRow>)
    ensures |f| <= |order|
    ensures forall r :: r in f ==> r.key in c && r.key in order
    ensures forall r :: r in f ==> r.countA == c[r.key].countA && r.countB == c[r.key].countB
  {
    if |order| == 0 then []
    else
      var k := order[0];
      (if k in c then [FrameRow(k, c[k].countA, c[k].countB)] else []) + Frame(c, order[1..])
  }

  /** Chooses the row order of the combined frame: some enumeration of its groups. */
  method OrderKeys(keys: set<GroupKey>) returns (order: seq<GroupKey>)
    ensures IsEnumeration(order, keys)
  {
    order := [];
    var rest := keys;
    while rest != {}
      invariant forall k :: k in keys <==> k in rest || k in order
      invariant forall k :: k in rest ==> k !in order
      invariant forall i, j :: 0 <= i < j < |order| ==> order[i] != order[j]
      decreases rest
    {
      var k :| k in rest;
      order := order + [k];
      rest := rest - {k};
    }
  }

  /** When the order enumerates the combined groups, the frame has one row per
      group, in that order, with both counts read from the join. */
  lemma {:induction false} FrameOfEnumeration(c: map<GroupKey, Counts>, order: seq<GroupKey>)
    requires forall k :: k in order ==> k in c
    ensures |Frame(c, order)| == |order|
    ensures forall i :: 0 <= i < |order| ==>
      Frame(c, order)[i] == FrameRow(order[i], c[order[i]].countA, c[order[i]].countB)
  {
    if |order| > 0 {
      FrameOfEnumeration(c, order[1..]);
    }
  }

  /** Every group of either series appears exactly once in the frame, and no
      other group does. */
  lemma FrameHasEachGroupOnce(a: map<GroupKey, nat>, b: map<GroupKey, nat>, order: seq<GroupKey>)
    requires IsEnumeration(order, a.Keys + b.Keys)
    ensures forall i, j :: 0 <= i < j < |Frame(Align(a, b), order)| ==>
      Frame(Align(a, b), order)[i].key != Frame(Align(a, b), order)[j].key
    ensures forall k :: k in a || k in b <==> exists r :: r in Frame(Align(a, b), order) && r.key == k
  {
    var c := Align(a, b);
    assert c.Keys == a.Keys + b.Keys;
    FrameOfEnumeration(c, order);
    var f := Frame(c, order);
    forall i, j | 0 <= i < j < |f| ensures f[i].key != f[j].key {
      assert f[i].key == order[i] && f[j].key == order[j];
    }
    forall k | k in a || k in b ensures exists r :: r in f && r.key == k {
      assert k in order;
      var i :| 0 <= i < |order| && order[i] == k;
      assert f[i] in f && f[i].key == k;
    }
    forall k | exists r :: r in f && r.key == k ensures k in a || k in b {
      var r :| r in f && r.key == k;
      assert k in c;
    }
  }

  /** No row occurs twice. */
  ghost predicate Distinct(rows: seq<FrameRow>)
  {
    forall i, j :: 0 <= i < j < |rows| ==> rows[i] != rows[j]
  }

  /** Whatever enumeration of the groups orders it, the frame holds each row
      once, and its rows are exactly the groups of the join with their counts. */
  lemma FrameRowsOfEnumeration(c: map<GroupKey, Counts>, order: seq<GroupKey>)
    requires IsEnumeration(order, c.Keys)
    ensures Distinct(Frame(c, order))
    ensures forall r :: r in Frame(c, order) <==>
      r.key in c && r == FrameRow(r.key, c[r.key].countA, c[r.key].countB)
  {
    FrameOfEnumeration(c, order);
    var f := Frame(c, order);
    forall i, j | 0 <= i < j < |f| ensures f[i] != f[j] {
      assert f[i].key == order[i] && f[j].key == order[j];
    }
    forall r: FrameRow | r.key in c && r == FrameRow(r.key, c[r.key].countA, c[r.key].countB)
      ensures r in f
    {
      assert r.key in order;
      var i :| 0 <= i < |order| && order[i] == r.key;
      assert f[i] == r;
    }
  }

  /** A frame row seen from the other region: its two counts exchanged. */
  function SwapRow(r: FrameRow): FrameRow
  {
    FrameRow(r.key, r.countB, r.countA)
  }

  /** Every row of a frame seen from the other region. */
  function SwapRows(rows: seq<FrameRow>): (s: seq<FrameRow>)
    ensures |s| == |rows|
    ensures forall i :: 0 <= i < |rows| ==> s[i].key == rows[i].key
  {
    if |rows| == 0 then [] else [SwapRow(rows[0])] + SwapRows(rows[1..])
  }

  lemma SwapRowsCons(r: FrameRow, rest: seq<FrameRow>)
    ensures SwapRows([r] + rest) == [SwapRow(r)] + SwapRows(rest)
  {
    assert ([r] + rest)[1..] == rest;
  }

  /** A join whose count columns are exchanged gives the same frame with the
      two counts of every row exchanged. */
  lemma {:induction false} FrameOfSwappedJoin(c: map<GroupKey, Counts>, c': map<GroupKey, Counts>, order: seq<GroupKey>)
    requires c'.Keys == c.Keys
    requires forall k :: k in c ==> c'[k] == Counts(c[k].countB, c[k].countA)
    ensures Frame(c', order) == SwapRows(Frame(c, order))
  {
    if |order| > 0 {
      FrameOfSwappedJoin(c, c', order[1..]);
      var k := order[0];
      var tail, tail' := Frame(c, order[1..]), Frame(c', order[1..]);
      if k in c {
        var r := FrameRow(k, c[k].countA, c[k].countB);
        assert Frame(c, order) == [r] + tail;
        assert Frame(c', order) == [SwapRow(r)] + tail';
        SwapRowsCons(r, tail);
      } else {
        assert Frame(c, order) == tail;
        assert Frame(c', order) == tail';
      }
    }
  }

  /** Joining the series the other way round gives the same frame with the
      two count columns exchanged. */
  lemma FrameOfSwappedSeries(a: map<GroupKey, nat>, b: map<GroupKey, nat>, order: seq<GroupKey>)
    ensures Frame(Align(b, a), order) == SwapRows(Frame(Align(a, b), order))
  {
    FrameOfSwappedJoin(Align(a, b), Align(b, a), order);
  }
}
