/** Interpolated quantiles of sorted values, and the bin edges taken from them. */
module Quantiles {
  import opened Common
  import Histogram

  ghost predicate NonDecreasing(s: seq<real>) {
    forall i, j | 0 <= i <= j < |s| :: s[i] <= s[j]
  }

  function Ceiling(x: real): int {
    -(-x).Floor
  }

  function Interpolate(a: real, b: real, weight: real): real {
    a * (1.0 - weight) + b * weight
  }

  /** The value at a position between the first and the last index. */
  function ValueAt(s: seq<real>, position: real): real
    requires 0.0 <= position <= (|s| - 1) as real
  {
    var lower, upper := position.Floor, Ceiling(position);
    if lower == upper then s[lower]
    else Interpolate(s[lower], s[upper], position - lower as real)
  }

  lemma ProductIsMonotone(c: real, x: real, y: real)
    requires c >= 0.0 && x <= y
    ensures c * x <= c * y
  {
    assert c * y - c * x == c * (y - x);
  }

  lemma PositionInRange(n: nat, q: real)
    requires n > 0 && 0.0 <= q <= 1.0
    ensures 0.0 <= (n - 1) as real * q <= (n - 1) as real
  {
    ProductIsMonotone((n - 1) as real, 0.0, q);
    ProductIsMonotone((n - 1) as real, q, 1.0);
  }

  lemma PositionGrows(n: nat, q: real, r: real)
    requires n > 0 && 0.0 <= q <= r <= 1.0
    ensures 0.0 <= (n - 1) as real * q <= (n - 1) as real * r <= (n - 1) as real
  {
    PositionInRange(n, q);
    PositionInRange(n, r);
    ProductIsMonotone((n - 1) as real, q, r);
  }

  /** `quantile_from_sorted`. */
  function QuantileFromSorted(s: seq<real>, q: real): Option<real>
    requires 0.0 <= q <= 1.0
  {
    if s == [] then None
    else if |s| == 1 then Some(s[0])
    else
      PositionInRange(|s|, q);
      Some(ValueAt(s, (|s| - 1) as real * q))
  }

  lemma InterpolationIsBetween(a: real, b: real, w: real)
    requires a <= b && 0.0 <= w <= 1.0
    ensures a <= Interpolate(a, b, w) <= b
  {
    ProductIsMonotone(b - a, 0.0, w);
    ProductIsMonotone(b - a, w, 1.0);
    assert Interpolate(a, b, w) == a + (b - a) * w;
  }

  lemma InterpolationIsMonotone(a: real, b: real, v: real, w: real)
    requires a <= b && 0.0 <= v <= w
    ensures Interpolate(a, b, v) <= Interpolate(a, b, w)
  {
    ProductIsMonotone(b - a, v, w);
    assert Interpolate(a, b, v) == a + (b - a) * v;
    assert Interpolate(a, b, w) == a + (b - a) * w;
  }

  lemma FloorAndCeiling(p: real)
    ensures p.Floor as real <= p <= Ceiling(p) as real
    ensures p.Floor <= Ceiling(p) <= p.Floor + 1
    ensures p.Floor == Ceiling(p) <==> p == p.Floor as real
  {
  }

  /** A value lies between its neighbours. */
  lemma ValueIsBetweenNeighbours(s: seq<real>, p: real)
    requires NonDecreasing(s) && 0.0 <= p <= (|s| - 1) as real
    ensures 0 <= p.Floor <= Ceiling(p) < |s| && Ceiling(p) <= p.Floor + 1
    ensures s[p.Floor] <= ValueAt(s, p) <= s[Ceiling(p)]
  {
    FloorAndCeiling(p);
    assert s[p.Floor] <= s[Ceiling(p)];
    if p.Floor != Ceiling(p) {
      InterpolationIsBetween(s[p.Floor], s[Ceiling(p)], p - p.Floor as real);
    }
  }

  lemma ValueIsMonotone(s: seq<real>, p: real, r: real)
    requires NonDecreasing(s) && 0.0 <= p <= r <= (|s| - 1) as real
    ensures ValueAt(s, p) <= ValueAt(s, r)
  {
    ValueIsBetweenNeighbours(s, p);
    ValueIsBetweenNeighbours(s, r);
    if p.Floor == r.Floor {
      if p.Floor != Ceiling(p) {
        InterpolationIsMonotone(s[p.Floor], s[Ceiling(p)], p - p.Floor as real, r - r.Floor as real);
      }
    } else {
      assert Ceiling(p) <= r.Floor;
    }
  }

  /** A quantile stays between the least and the greatest value and does not fall as `q` rises. */
  lemma QuantileIsMonotone(s: seq<real>, q: real, r: real)
    requires NonDecreasing(s) && s != [] && 0.0 <= q <= r <= 1.0
    ensures QuantileFromSorted(s, q).Some? && QuantileFromSorted(s, r).Some?
    ensures s[0] <= QuantileFromSorted(s, q).value <= QuantileFromSorted(s, r).value <= s[|s| - 1]
    ensures (q == 0.0 ==> QuantileFromSorted(s, q).value == s[0]) && (r == 1.0 ==> QuantileFromSorted(s, r).value == s[|s| - 1])
  {
    if |s| > 1 {
      PositionGrows(|s|, q, r);
      OrderedValues(s, (|s| - 1) as real * q, (|s| - 1) as real * r);
    }
  }

  lemma LineThrough(a: real, b: real, w: real)
    ensures Interpolate(a, b, w) == a + (b - a) * w
    ensures (w == 0.0 ==> a + (b - a) * w == a) && (w == 1.0 ==> a + (b - a) * w == b)
  {
  }

  lemma ValueOnLine(s: seq<real>, p: real, k: nat)
    requires k + 1 < |s| && k as real <= p <= (k + 1) as real
    ensures ValueAt(s, p) == s[k] + (s[k + 1] - s[k]) * (p - k as real)
  {
    var w := p - k as real;
    FloorAndCeiling(p);
    LineThrough(s[k], s[k + 1], w);
    if p != k as real && p != (k + 1) as real {
      assert p.Floor == k && Ceiling(p) == k + 1;
    }
  }

  /** Between two neighbours the quantile is the point of the line through them. */
  lemma QuantileInterpolates(s: seq<real>, q: real, p: real, k: nat)
    requires 0.0 <= q <= 1.0 && p == (|s| - 1) as real * q && k + 1 < |s| && k as real <= p <= (k + 1) as real
    ensures QuantileFromSorted(s, q) == Some(s[k] + (s[k + 1] - s[k]) * (p - k as real))
  {
    PositionInRange(|s|, q);
    QuantileAt(s, q, p);
    ValueOnLine(s, p, k);
  }

  lemma QuantileAt(s: seq<real>, q: real, p: real)
    requires 0.0 <= q <= 1.0 && |s| > 1 && p == (|s| - 1) as real * q && 0.0 <= p <= (|s| - 1) as real
    ensures QuantileFromSorted(s, q) == Some(ValueAt(s, p))
  {
  }

  lemma OrderedValues(s: seq<real>, p: real, r: real)
    requires NonDecreasing(s) && s != [] && 0.0 <= p <= r <= (|s| - 1) as real
    ensures s[0] <= ValueAt(s, p) <= ValueAt(s, r) <= s[|s| - 1]
  {
    ValueIsBetweenNeighbours(s, p);
    ValueIsBetweenNeighbours(s, r);
    ValueIsMonotone(s, p, r);
  }

  // --------------------------------------------------------------- bin edges

  /** `k` of `bins` bins. */
  function Fraction(k: nat, bins: nat): (q: real)
    requires k <= bins && bins > 0
    ensures 0.0 <= q <= 1.0 && q * bins as real == k as real
  {
    k as real / bins as real
  }

  /** The quantile of the `k`-th of `bins` bins. */
  function BinQuantile(s: seq<real>, k: nat, bins: nat): real
    requires s != [] && k <= bins && bins > 0
  {
    QuantileFromSorted(s, Fraction(k, bins)).value
  }

  lemma FractionGrows(j: nat, k: nat, bins: nat)
    requires j <= k <= bins && bins > 0
    ensures Fraction(j, bins) <= Fraction(k, bins)
  {
  }

  lemma BinQuantileGrows(s: seq<real>, j: nat, k: nat, bins: nat)
    requires NonDecreasing(s) && s != [] && j <= k <= bins && bins > 0
    ensures s[0] <= BinQuantile(s, j, bins) <= BinQuantile(s, k, bins) <= s[|s| - 1]
  {
    FractionGrows(j, k, bins);
    QuantileIsMonotone(s, Fraction(j, bins), Fraction(k, bins));
  }

  /** `e` is a quantile between two neighbouring bins. */
  ghost predicate IsInnerQuantile(s: seq<real>, bins: nat, e: real)
    requires bins > 0
  {
    exists k :: 1 <= k < bins && QuantileFromSorted(s, Fraction(k, bins)) == Some(e)
  }

  /** The quantiles of all bins, from the least value to the greatest. */
  function BinQuantiles(s: seq<real>, bins: nat): (quantiles: seq<real>)
    requires s != [] && bins > 0
    ensures |quantiles| == bins + 1
  {
    seq(bins + 1, k requires 0 <= k <= bins => BinQuantile(s, k, bins))
  }

  lemma BinQuantilesGrow(s: seq<real>, bins: nat)
    requires NonDecreasing(s) && s != [] && bins > 0
    ensures NonDecreasing(BinQuantiles(s, bins))
    ensures forall q | q in BinQuantiles(s, bins) :: s[0] <= q <= s[|s| - 1]
  {
    forall j, k | 0 <= j <= k <= bins
      ensures s[0] <= BinQuantiles(s, bins)[j] <= BinQuantiles(s, bins)[k] <= s[|s| - 1] {
      BinQuantileGrows(s, j, k, bins);
    }
  }

  /** The edges are the inner quantiles, each once: only repeated edges are dropped. */
  ghost predicate AreEdges(quantiles: seq<real>, edges: seq<real>, upTo: nat)
    requires upTo <= |quantiles|
  {
    && Histogram.Ascending(edges)
    && (forall e :: e in edges <==> exists k :: 1 <= k < upTo && e == quantiles[k])
    && (upTo > 1 ==> edges != [] && edges[|edges| - 1] == quantiles[upTo - 1])
  }

  /** The loop of `quantile_bin_edges`, over the quantiles it computes one by one. */
  method DistinctEdges(quantiles: seq<real>) returns (edges: seq<real>)
    requires NonDecreasing(quantiles) && |quantiles| >= 2
    ensures AreEdges(quantiles, edges, |quantiles| - 1)
  {
    edges := [];
    var k := 1;
    while k < |quantiles| - 1
      invariant 1 <= k <= |quantiles| - 1 && AreEdges(quantiles, edges, k)
    {
      EdgesStep(quantiles, edges, k);
      if edges == [] || quantiles[k] > edges[|edges| - 1] {
        edges := edges + [quantiles[k]];
      }
      k := k + 1;
    }
  }

  /** `quantile_bin_edges`. */
  method QuantileBinEdges(s: seq<real>, bins: nat) returns (edges: seq<real>)
    requires NonDecreasing(s) && s != [] && bins > 0
    ensures Histogram.Ascending(edges) && forall e :: e in edges <==> IsInnerQuantile(s, bins, e)
    ensures edges == [] <==> bins == 1
    ensures forall e | e in edges :: s[0] <= e <= s[|s| - 1]
  {
    var quantiles := BinQuantiles(s, bins);
    BinQuantilesGrow(s, bins);
    edges := DistinctEdges(quantiles);
    EdgesInRange(quantiles, edges, bins, s[0], s[|s| - 1]);
    forall e ensures e in edges <==> IsInnerQuantile(s, bins, e) { EdgesAreQuantiles(s, bins, edges, e); }
    assert edges != [] ==> edges[0] in edges;
  }

  lemma EdgesAreQuantiles(s: seq<real>, bins: nat, edges: seq<real>, e: real)
    requires s != [] && bins > 0 && AreEdges(BinQuantiles(s, bins), edges, bins)
    ensures e in edges <==> IsInnerQuantile(s, bins, e)
  {
    forall k | 1 <= k < bins ensures BinQuantiles(s, bins)[k] == e <==> QuantileFromSorted(s, Fraction(k, bins)) == Some(e) {
    }
  }

  lemma EdgesInRange(quantiles: seq<real>, edges: seq<real>, upTo: nat, low: real, high: real)
    requires upTo <= |quantiles| && AreEdges(quantiles, edges, upTo) && forall q | q in quantiles :: low <= q <= high
    ensures forall e | e in edges :: low <= e <= high
  {
    forall e | e in edges ensures low <= e <= high {
      var k :| 1 <= k < upTo && e == quantiles[k];
      assert quantiles[k] in quantiles;
    }
  }

  lemma EdgesStep(quantiles: seq<real>, edges: seq<real>, k: nat)
    requires NonDecreasing(quantiles) && 1 <= k < |quantiles| && AreEdges(quantiles, edges, k)
    ensures AreEdges(quantiles, if edges == [] || quantiles[k] > edges[|edges| - 1] then edges + [quantiles[k]] else edges, k + 1)
  {
    assert k > 1 ==> quantiles[k - 1] <= quantiles[k];
    if edges != [] {
      assert edges[0] in edges;
    }
  }

  /** `constant_baseline_edges`, with `below` the next number below the value. */
  function ConstantBaselineEdges(value: real, below: real): (edges: seq<real>)
    requires below < value
    ensures Histogram.Ascending(edges)
    ensures |edges| == 2
    ensures forall x: real, i: nat | i <= 2 :: Histogram.InBucket(edges, x, i) <==>
              (i == 0 && x <= below) || (i == 1 && below < x <= value) || (i == 2 && value < x)
  {
    [below, value]
  }
}
