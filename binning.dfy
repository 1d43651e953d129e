/**
 * Binning of a numeric column, as `pd.cut` and `pd.qcut` do it with
 * `right=True`: bins are left-open and right-closed, except that the first
 * bin also holds its left edge. `qcut` takes its edges from the column's
 * quartiles (linear interpolation between the sorted values) and refuses
 * edge lists with a repeated value.
 */
module Binning {
  import opened Wrappers
  import opened Sorting

  /** A bin edge; the last recency edge is `np.inf`. */
  datatype Bound = Finite(value: real) | Infinity

  /** `x` lies at or below the edge `b`. */
  predicate AtLeast(b: Bound, x: real) {
    b.Infinity? || x <= b.value
  }

  /** `searchsorted(edges, x, side='left')`: how many leading edges lie below `x`. */
  function SearchLeft(edges: seq<Bound>, x: real): (j: nat)
    ensures j <= |edges|
    ensures forall i :: 0 <= i < j ==> !AtLeast(edges[i], x)
    ensures j < |edges| ==> AtLeast(edges[j], x)
  {
    if edges == [] || AtLeast(edges[0], x) then 0 else 1 + SearchLeft(edges[1..], x)
  }

  /**
   * The 1-based bin of `x` among `edges`: bin `b` is (edges[b-1], edges[b]],
   * and bin 1 is closed on the left. A value outside every bin is NaN (None).
   */
  function CutBin(edges: seq<Bound>, x: real): (b: Option<nat>)
    requires |edges| >= 2 && edges[0].Finite?
    ensures b.Some? <==> edges[0].value <= x && AtLeast(edges[|edges| - 1], x)
    ensures b.Some? ==> 1 <= b.value <= |edges| - 1
    ensures b.Some? && x != edges[0].value ==> !AtLeast(edges[b.value - 1], x) && AtLeast(edges[b.value], x)
    ensures x == edges[0].value && AtLeast(edges[|edges| - 1], x) ==> b == Some(1)
  {
    if x < edges[0].value || !AtLeast(edges[|edges| - 1], x) then None
    else if x == edges[0].value then Some(1)
    else Some(SearchLeft(edges, x))
  }

  /** The bin never decreases as the value grows. */
  lemma CutBinMonotone(edges: seq<Bound>, x: real, y: real)
    requires |edges| >= 2 && edges[0].Finite?
    requires x <= y
    requires CutBin(edges, x).Some? && CutBin(edges, y).Some?
    ensures CutBin(edges, x).value <= CutBin(edges, y).value
  {
    if x != edges[0].value {
      var bx, bY := CutBin(edges, x).value, CutBin(edges, y).value;
      assert AtLeast(edges[bY], y);
    }
  }

  /**
   * The linear-interpolation quantile of the sorted values `v` at position
   * `t / 4` (positions count from 0 at the smallest value).
   */
  function QuantileAt(v: seq<real>, t: nat): real
    requires |v| > 0 && t <= 4 * (|v| - 1)
  {
    var lo, part := t / 4, t % 4;
    if part == 0 then v[lo]
    else v[lo] + (v[lo + 1] - v[lo]) * (part as real / 4.0)
  }

  /** A share `w` in [0, 1] of a non-negative gap `d` is at most the gap; a larger share is no smaller. */
  lemma ShareOfGap(d: real, w: real, w': real)
    requires 0.0 <= d && 0.0 <= w <= w' <= 1.0
    ensures 0.0 <= d * w <= d * w' <= d
  {
    assert d * w' - d * w == d * (w' - w);
    assert d - d * w' == d * (1.0 - w');
  }

  /** An interpolated quantile lies between its two neighbouring values. */
  lemma QuantileBetween(v: seq<real>, t: nat)
    requires |v| > 0 && t <= 4 * (|v| - 1)
    requires SortedBy(v, x => x)
    ensures v[t / 4] <= QuantileAt(v, t)
    ensures t % 4 != 0 ==> t / 4 + 1 < |v| && QuantileAt(v, t) <= v[t / 4 + 1]
  {
    var lo, part := t / 4, t % 4;
    assert lo * 4 + part == t;
    if part != 0 {
      assert lo + 1 < |v|;
      ShareOfGap(v[lo + 1] - v[lo], part as real / 4.0, 1.0);
    }
  }

  /** Quantiles never decrease with their position. */
  lemma QuantileMonotone(v: seq<real>, s: nat, t: nat)
    requires |v| > 0 && s <= t <= 4 * (|v| - 1)
    requires SortedBy(v, x => x)
    ensures QuantileAt(v, s) <= QuantileAt(v, t)
  {
    QuantileBetween(v, s);
    QuantileBetween(v, t);
    var sl, tl := s / 4, t / 4;
    if sl == tl {
      QuantileSameSlot(v, s, t);
    } else if s % 4 != 0 {
      assert sl + 1 <= tl;
      assert v[sl + 1] <= v[tl];
    } else {
      assert sl <= tl;
      assert v[sl] <= v[tl];
    }
  }

  /** Two positions between the same pair of values: the later one is no smaller. */
  lemma QuantileSameSlot(v: seq<real>, s: nat, t: nat)
    requires |v| > 0 && s <= t <= 4 * (|v| - 1) && s / 4 == t / 4
    requires SortedBy(v, x => x)
    ensures QuantileAt(v, s) <= QuantileAt(v, t)
  {
    var lo, sp, tp := s / 4, s % 4, t % 4;
    assert s == 4 * lo + sp && t == 4 * lo + tp;
    QuantileBetween(v, t);
    if sp != 0 {
      assert sp <= tp;
      assert v[lo] <= v[lo + 1];
      InterpolationMonotone(v[lo], v[lo + 1], sp, tp);
    } else {
      assert QuantileAt(v, s) == v[lo] <= QuantileAt(v, t);
    }
  }

  /** Interpolating further along a non-decreasing gap gives no smaller value. */
  lemma InterpolationMonotone(a: real, b: real, p: int, q: int)
    requires a <= b && 0 <= p <= q <= 4
    ensures a + (b - a) * (p as real / 4.0) <= a + (b - a) * (q as real / 4.0)
  {
    ShareOfGap(b - a, p as real / 4.0, q as real / 4.0);
  }

  /**
   * `x.quantile([0, .25, .5, .75, 1])`: the five quartile edges of a non-empty
   * column. They never decrease, and the outer two are the column's smallest
   * and largest values.
   */
  function QuartileEdges(values: seq<real>): (e: seq<real>)
    requires |values| > 0
    ensures |e| == 5
    ensures forall i, j :: 0 <= i <= j < 5 ==> e[i] <= e[j]
    ensures forall x :: x in values ==> e[0] <= x <= e[4]
    ensures e[0] in values && e[4] in values
  {
    var v := SortBy(values, x => x);
    SortBySorted(values, x => x);
    SortByMembers(values, x => x);
    var n := |v| - 1;
    QuartilesAscend(v);
    SortedSpan(values, v);
    [QuantileAt(v, 0), QuantileAt(v, n), QuantileAt(v, 2 * n), QuantileAt(v, 3 * n), QuantileAt(v, 4 * n)]
  }

  /** Over a sorted column, the quantiles at positions 0, n, 2n, 3n and 4n never decrease. */
  lemma QuartilesAscend(v: seq<real>)
    requires |v| > 0 && SortedBy(v, x => x)
    ensures var n := |v| - 1;
      && QuantileAt(v, 0) <= QuantileAt(v, n) <= QuantileAt(v, 2 * n)
      && QuantileAt(v, 2 * n) <= QuantileAt(v, 3 * n) <= QuantileAt(v, 4 * n)
  {
    var n := |v| - 1;
    QuantileMonotone(v, 0, n);
    QuantileMonotone(v, n, 2 * n);
    QuantileMonotone(v, 2 * n, 3 * n);
    QuantileMonotone(v, 3 * n, 4 * n);
  }

  /** A sorted copy of a column has the column's smallest value first and its largest last. */
  lemma SortedSpan(values: seq<real>, v: seq<real>)
    requires |v| > 0 && SortedBy(v, x => x)
    requires forall x :: x in values <==> x in v
    ensures QuantileAt(v, 0) == v[0] && QuantileAt(v, 4 * (|v| - 1)) == v[|v| - 1]
    ensures forall x :: x in values ==> v[0] <= x <= v[|v| - 1]
    ensures v[0] in values && v[|v| - 1] in values
  {
    forall x | x in values ensures v[0] <= x <= v[|v| - 1] {
      var k :| 0 <= k < |v| && v[k] == x;
    }
  }

  /** No two edges are equal: the condition `qcut` demands with `duplicates='raise'`. */
  predicate DistinctEdges(e: seq<real>) {
    forall i, j :: 0 <= i < j < |e| ==> e[i] != e[j]
  }

  /** Finite edges as cut bounds. */
  function Bounds(e: seq<real>): (b: seq<Bound>)
    ensures |b| == |e|
    ensures forall i :: 0 <= i < |e| ==> b[i] == Finite(e[i])
  {
    seq(|e|, i requires 0 <= i < |e| => Finite(e[i]))
  }

  /** The labels of a column and the edges that produced them (`retbins=True`). */
  datatype Binned = Binned(labels: seq<nat>, edges: seq<real>)

  /**
   * `pd.qcut(values, 4, retbins=True, labels=range(1, 5))`. An empty column
   * has NaN edges, and any repeated edge raises the duplicate-edges error.
   */
  function QCut(values: seq<real>): (r: Result<Binned>)
    ensures r.Failure? ==> r.error == DuplicateBinEdges
    ensures r.Success? <==> |values| > 0 && DistinctEdges(QuartileEdges(values))
    ensures r.Success? ==> r.value.edges == QuartileEdges(values) && |r.value.labels| == |values|
  {
    if |values| == 0 then Failure(DuplicateBinEdges)
    else
      var e := QuartileEdges(values);
      if !DistinctEdges(e) then Failure(DuplicateBinEdges)
      else
        assert forall i :: 0 <= i < |values| ==> CutBin(Bounds(e), values[i]).Some? by {
          forall i | 0 <= i < |values| ensures CutBin(Bounds(e), values[i]).Some? {
            assert values[i] in values;
          }
        }
        Success(Binned(seq(|values|, i requires 0 <= i < |values| => CutBin(Bounds(e), values[i]).value), e))
  }

  /** Each label is the 1-based quartile bin of its value, so it lies in 1..4. */
  lemma QCutLabels(values: seq<real>, i: int)
    requires QCut(values).Success? && 0 <= i < |values|
    ensures CutBin(Bounds(QCut(values).value.edges), values[i]) == Some(QCut(values).value.labels[i])
    ensures 1 <= QCut(values).value.labels[i] <= 4
  {
    assert values[i] in values;
  }

  /** A larger value never gets a smaller quartile label. */
  lemma QCutMonotone(values: seq<real>, i: int, j: int)
    requires QCut(values).Success? && 0 <= i < |values| && 0 <= j < |values|
    requires values[i] <= values[j]
    ensures QCut(values).value.labels[i] <= QCut(values).value.labels[j]
  {
    QCutLabels(values, i);
    QCutLabels(values, j);
    CutBinMonotone(Bounds(QCut(values).value.edges), values[i], values[j]);
  }

  /** A column of equal values has five equal edges, which `qcut` refuses. */
  lemma QCutConstantColumn(values: seq<real>)
    requires |values| > 0
    requires forall i :: 0 <= i < |values| ==> values[i] == values[0]
    ensures QCut(values) == Failure(DuplicateBinEdges)
  {
    var e := QuartileEdges(values);
    assert e[0] == values[0] && e[4] == values[0];
    assert e[0] == e[4];
  }
}
