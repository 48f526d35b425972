/** The population stability index: from the baseline's values to its bins, from the bins and
    current values to a score. The logarithm is a parameter. */
module StabilityIndex {
  import opened Common
  import Histogram
  import Quantiles
  import FeatureStatistics
  import Tables

  /** What is used of the natural logarithm. */
  ghost predicate LogLike(log: real -> real) {
    forall x: real | x > 0.0 :: (x > 1.0 ==> log(x) > 0.0) && (x == 1.0 ==> log(x) == 0.0) && (x < 1.0 ==> log(x) < 0.0)
  }

  function AtLeast(x: real, epsilon: real): real {
    if x > epsilon then x else epsilon
  }

  function Term(log: real -> real, baseline: real, current: real, epsilon: real): real
    requires epsilon > 0.0
  {
    var expected, actual := AtLeast(baseline, epsilon), AtLeast(current, epsilon);
    (actual - expected) * log(actual / expected)
  }

  function Score(log: real -> real, baseline: seq<real>, current: seq<real>, epsilon: real): real
    requires |baseline| == |current| && epsilon > 0.0
  {
    if baseline == [] then 0.0
    else
      var n := |baseline| - 1;
      Score(log, baseline[..n], current[..n], epsilon) + Term(log, baseline[n], current[n], epsilon)
  }

  lemma ScoreStep(log: real -> real, baseline: seq<real>, current: seq<real>, epsilon: real, n: nat)
    requires n < |baseline| == |current| && epsilon > 0.0
    ensures Score(log, baseline[..n + 1], current[..n + 1], epsilon)
         == Score(log, baseline[..n], current[..n], epsilon) + Term(log, baseline[n], current[n], epsilon)
  {
    assert baseline[..n + 1][..n] == baseline[..n] && current[..n + 1][..n] == current[..n];
  }

  /** `population_stability_index`. */
  method PopulationStabilityIndex(log: real -> real, baseline: seq<real>, current: seq<real>, epsilon: real)
    returns (psi: Option<real>)
    requires epsilon > 0.0
    ensures psi.None? <==> |baseline| != |current| || baseline == []
    ensures psi.Some? ==> psi.value == Score(log, baseline, current, epsilon)
    ensures psi.Some? && Logarithm(log) ==> psi.value == Divergence(log, Floored(current, epsilon), Floored(baseline, epsilon))
  {
    if |baseline| != |current| || baseline == [] {
      return None;
    }
    var score, n := 0.0, 0;
    while n < |baseline|
      invariant 0 <= n <= |baseline| && score == Score(log, baseline[..n], current[..n], epsilon)
    {
      ScoreStep(log, baseline, current, epsilon, n);
      score := score + Term(log, baseline[n], current[n], epsilon);
      n := n + 1;
    }
    assert baseline[..n] == baseline && current[..n] == current;
    if Logarithm(log) {
      ScoreIsDivergence(log, baseline, current, epsilon);
    }
    return Some(score);
  }

  lemma FactorSign(a: real, e: real, r: real)
    requires a > 0.0 && e > 0.0 && e * r == a
    ensures r > 0.0 && (a > e <==> r > 1.0) && (a == e <==> r == 1.0) && (a < e <==> r < 1.0)
  {
    if r <= 0.0 { Quantiles.ProductIsMonotone(e, r, 0.0); }
    if r < 1.0 { ProductIsStrict(e, r, 1.0); }
    if r > 1.0 { ProductIsStrict(e, 1.0, r); }
  }

  lemma RatioSign(a: real, e: real)
    requires a > 0.0 && e > 0.0
    ensures a / e > 0.0 && (a > e <==> a / e > 1.0) && (a == e <==> a / e == 1.0) && (a < e <==> a / e < 1.0)
  {
    assert e * (a / e) == a;
    FactorSign(a, e, a / e);
  }

  lemma ProductIsStrict(c: real, x: real, y: real)
    requires c > 0.0 && x < y
    ensures c * x < c * y
  {
    ProductSign(c, y - x);
    assert c * y - c * x == c * (y - x);
  }

  lemma ProductSign(x: real, y: real)
    ensures x > 0.0 && y > 0.0 ==> x * y > 0.0
    ensures x < 0.0 && y < 0.0 ==> x * y > 0.0
  {
  }

  /** A term is positive exactly when the clamped ratios differ, and zero otherwise. */
  lemma TermSign(log: real -> real, b: real, c: real, epsilon: real)
    requires LogLike(log) && epsilon > 0.0
    ensures Term(log, b, c, epsilon) >= 0.0
    ensures Term(log, b, c, epsilon) == 0.0 <==> AtLeast(b, epsilon) == AtLeast(c, epsilon)
  {
    var e, a := AtLeast(b, epsilon), AtLeast(c, epsilon);
    RatioSign(a, e);
    ProductSign(a - e, log(a / e));
  }

  /** The index is never negative, and zero exactly when all clamped ratios agree. */
  lemma {:induction false} ScoreSign(log: real -> real, baseline: seq<real>, current: seq<real>, epsilon: real)
    requires LogLike(log) && |baseline| == |current| && epsilon > 0.0
    ensures Score(log, baseline, current, epsilon) >= 0.0
    ensures Score(log, baseline, current, epsilon) == 0.0 <==>
              forall k | 0 <= k < |baseline| :: AtLeast(baseline[k], epsilon) == AtLeast(current[k], epsilon)
    decreases |baseline|
  {
    if baseline != [] {
      var n := |baseline| - 1;
      ScoreSign(log, baseline[..n], current[..n], epsilon);
      TermSign(log, baseline[n], current[n], epsilon);
    }
  }

  // -------------------------------------------------------------- its meaning

  /** A logarithm also turns products into sums. */
  ghost predicate Logarithm(log: real -> real) {
    LogLike(log) && forall x: real, y: real | x > 0.0 && y > 0.0 :: Additive(log, x, y)
  }

  predicate Additive(log: real -> real, x: real, y: real) {
    log(x * y) == log(x) + log(y)
  }

  /** Shares with a floor. */
  function Floored(shares: seq<real>, floor: real): (r: seq<real>)
    ensures |r| == |shares|
  {
    seq(|shares|, k requires 0 <= k < |shares| => if shares[k] > floor then shares[k] else floor)
  }

  /** The sum of `f` over the pairs of two sequences. */
  function PairSum(f: (real, real) -> real, p: seq<real>, q: seq<real>): real
    requires |p| == |q|
  {
    if p == [] then 0.0 else PairSum(f, p[..|p| - 1], q[..|q| - 1]) + f(p[|p| - 1], q[|q| - 1])
  }

  function Gain(log: real -> real): (real, real) -> real {
    (a, b) => a * log(a) - a * log(b)
  }

  /** The relative entropy of `p` to `q`: the sum of p log p - p log q. */
  function RelativeEntropy(log: real -> real, p: seq<real>, q: seq<real>): real
    requires |p| == |q|
  {
    PairSum(Gain(log), p, q)
  }

  /** Both ways round. */
  function Divergence(log: real -> real, p: seq<real>, q: seq<real>): real
    requires |p| == |q|
  {
    RelativeEntropy(log, p, q) + RelativeEntropy(log, q, p)
  }

  lemma DifferenceOfProducts(a: real, e: real, x: real, y: real, r: real)
    requires r == x - y
    ensures (a - e) * r == (a * x - a * y) + (e * y - e * x)
  {
  }

  lemma DivideBack(a: real, e: real)
    requires e > 0.0
    ensures e * (a / e) == a
  {
  }

  lemma LogOfFactor(log: real -> real, a: real, e: real, r: real)
    requires Additive(log, e, r) && e * r == a
    ensures log(r) == log(a) - log(e)
  {
  }

  lemma LogOfRatio(log: real -> real, a: real, e: real)
    requires Logarithm(log) && a > 0.0 && e > 0.0
    ensures log(a / e) == log(a) - log(e)
  {
    RatioSign(a, e);
    DivideBack(a, e);
    LogIsAdditive(log, e, a / e);
    LogOfFactor(log, a, e, a / e);
  }

  lemma LogIsAdditive(log: real -> real, x: real, y: real)
    requires Logarithm(log) && x > 0.0 && y > 0.0
    ensures Additive(log, x, y)
  {
  }

  lemma TermIsDivergence(log: real -> real, b: real, c: real, epsilon: real)
    requires Logarithm(log) && epsilon > 0.0
    ensures var e, a := if b > epsilon then b else epsilon, if c > epsilon then c else epsilon;
            Term(log, b, c, epsilon) == Gain(log)(a, e) + Gain(log)(e, a)
  {
    var e, a := AtLeast(b, epsilon), AtLeast(c, epsilon);
    LogOfRatio(log, a, e);
    DifferenceOfProducts(a, e, log(a), log(e), log(a / e));
  }

  /** Terms that split add up to sums that split. */
  lemma {:induction false} ScoreSplits(log: real -> real, baseline: seq<real>, current: seq<real>, epsilon: real,
                                       gain: (real, real) -> real, p: seq<real>, q: seq<real>)
    requires |baseline| == |current| == |p| == |q| && epsilon > 0.0
    requires forall k | 0 <= k < |p| :: Term(log, baseline[k], current[k], epsilon) == gain(p[k], q[k]) + gain(q[k], p[k])
    ensures Score(log, baseline, current, epsilon) == PairSum(gain, p, q) + PairSum(gain, q, p)
    decreases |p|
  {
    if p != [] {
      var n := |p| - 1;
      ScoreSplits(log, baseline[..n], current[..n], epsilon, gain, p[..n], q[..n]);
    }
  }

  /** The index is the relative entropy of the current shares to the baseline's plus that of the
      baseline's to the current, once no share is below epsilon. */
  lemma ScoreIsDivergence(log: real -> real, baseline: seq<real>, current: seq<real>, epsilon: real)
    requires Logarithm(log) && |baseline| == |current| && epsilon > 0.0
    ensures Score(log, baseline, current, epsilon) == Divergence(log, Floored(current, epsilon), Floored(baseline, epsilon))
  {
    var p, q := Floored(current, epsilon), Floored(baseline, epsilon);
    forall k | 0 <= k < |p| ensures Term(log, baseline[k], current[k], epsilon) == Gain(log)(p[k], q[k]) + Gain(log)(q[k], p[k]) {
      TermIsDivergence(log, baseline[k], current[k], epsilon);
    }
    ScoreSplits(log, baseline, current, epsilon, Gain(log), p, q);
  }

  // ---------------------------------------------------------------- pipeline

  /** `ratios_from_counts`: every share times the total is its count. */
  function RatiosFromCounts(counts: seq<nat>): (ratios: seq<real>)
    ensures Histogram.Sum(counts) <= 0 ==> ratios == []
    ensures Histogram.Sum(counts) > 0 ==>
              |ratios| == |counts| && forall k | 0 <= k < |counts| :: ratios[k] * Histogram.Sum(counts) as real == counts[k] as real
  {
    var total := Histogram.Sum(counts);
    if total <= 0 then [] else seq(|counts|, k requires 0 <= k < |counts| => counts[k] as real / total as real)
  }

  lemma {:induction false} SharesAddUp(counts: seq<nat>, shares: seq<real>, total: real)
    requires |shares| == |counts| && forall k | 0 <= k < |counts| :: shares[k] * total == counts[k] as real
    ensures FeatureStatistics.Sum(shares) * total == Histogram.Sum(counts) as real
    decreases |counts|
  {
    if counts != [] {
      var n := |counts| - 1;
      SharesAddUp(counts[..n], shares[..n], total);
      assert (FeatureStatistics.Sum(shares[..n]) + shares[n]) * total == FeatureStatistics.Sum(shares[..n]) * total + shares[n] * total;
    }
  }

  /** The shares of counts that are not all zero add up to one. */
  lemma SharesAddUpToOne(counts: seq<nat>)
    requires Histogram.Sum(counts) > 0
    ensures FeatureStatistics.Sum(RatiosFromCounts(counts)) == 1.0
  {
    var shares, total := RatiosFromCounts(counts), Histogram.Sum(counts) as real;
    SharesAddUp(counts, shares, total);
    UnitFactor(FeatureStatistics.Sum(shares), total);
  }

  lemma UnitFactor(x: real, total: real)
    requires total > 0.0 && x * total == total
    ensures x == 1.0
  {
    assert (x * total) / total == x;
  }

  predicate Less(x: real, y: real) {
    x < y
  }

  function Sorted(values: seq<real>): seq<real> {
    Tables.Sort(values, Less)
  }

  lemma SortedValues(values: seq<real>)
    ensures multiset(Sorted(values)) == multiset(values) && |Sorted(values)| == |values|
    ensures Quantiles.NonDecreasing(Sorted(values))
  {
    Tables.SortSorts(values, Less);
    Tables.SortKeepsRows(values, Less);
    assert |Sorted(values)| == |multiset(Sorted(values))| == |multiset(values)|;
    forall i, j | 0 <= i <= j < |values| ensures Sorted(values)[i] <= Sorted(values)[j] {
      if i < j { assert !Less(Sorted(values)[j], Sorted(values)[i]); }
    }
  }

  /** What the baseline keeps of a feature's distribution. */
  datatype Distribution = Distribution(edges: seq<real>, counts: seq<nat>, ratios: seq<real>, count: nat, min: real, max: real)

  /** The stored distribution describes the values. */
  ghost predicate Describes(d: Distribution, values: seq<real>) {
    && values != [] && Histogram.Ascending(d.edges) && d.edges != [] && d.count == |values|
    && Histogram.IsHistogram(d.counts, values, d.edges) && d.ratios == RatiosFromCounts(d.counts)
    && (forall x | x in values :: d.min <= x <= d.max) && d.min in values && d.max in values
  }

  /** `build_feature_distribution_metadata`; `below` gives a smaller neighbour of a number. */
  method BuildDistribution(values: seq<real>, bins: nat, below: real -> real) returns (d: Option<Distribution>)
    requires bins > 0 && forall x: real :: below(x) < x
    ensures d.None? <==> values == []
    ensures d.Some? ==> Describes(d.value, values)
    ensures d.Some? && d.value.min == d.value.max ==> d.value.edges == [below(d.value.min), d.value.min]
    ensures d.Some? && d.value.min < d.value.max && bins == 1 ==> d.value.edges == [(d.value.min + d.value.max) / 2.0]
    ensures d.Some? && d.value.min < d.value.max && bins > 1 ==>
              forall e :: e in d.value.edges <==> Quantiles.IsInnerQuantile(Sorted(values), bins, e)
  {
    if values == [] {
      return None;
    }
    var s := Sorted(values);
    SortedValues(values);
    var least, greatest := s[0], s[|s| - 1];
    var edges;
    if least == greatest {
      edges := Quantiles.ConstantBaselineEdges(least, below(least));
      assert edges == [below(least), least];
    } else {
      edges := Quantiles.QuantileBinEdges(s, bins);
      assert Histogram.Ascending(edges);
      if edges == [] {
        edges := [(least + greatest) / 2.0];
      }
    }
    var counts := Histogram.BaselineBucketCounts(s, edges);
    HistogramOfSorted(counts, s, values, edges);
    SortedEnds(values, s);
    return Some(Distribution(edges, counts, RatiosFromCounts(counts), |s|, least, greatest));
  }

  lemma HistogramOfSorted(counts: seq<nat>, s: seq<real>, values: seq<real>, edges: seq<real>)
    requires Histogram.IsHistogram(counts, s, edges) && multiset(s) == multiset(values)
    ensures Histogram.IsHistogram(counts, values, edges)
  {
    assert |s| == |multiset(s)| == |multiset(values)| == |values|;
    forall i | 0 <= i <= |edges| ensures counts[i] == Histogram.CountIn(values, edges, i) {
      Histogram.CountIgnoresOrder(s, values, edges, i);
    }
  }

  lemma SortedEnds(values: seq<real>, s: seq<real>)
    requires multiset(s) == multiset(values) && s != [] && Quantiles.NonDecreasing(s)
    ensures (forall x | x in values :: s[0] <= x <= s[|s| - 1]) && s[0] in values && s[|s| - 1] in values
  {
    forall x ensures x in s <==> x in values { Tables.SameRowsSameMembers(s, values, x); }
  }

  /** `psi` is the index of the baseline's shares and those of the current values. */
  ghost predicate IsScoreOf(log: real -> real, d: Distribution, current: seq<real>, epsilon: real, counts: seq<nat>, psi: real) {
    && epsilon > 0.0 && Histogram.IsHistogram(counts, current, d.edges)
    && |RatiosFromCounts(counts)| == |d.ratios| && psi == Score(log, d.ratios, RatiosFromCounts(counts), epsilon)
    && (Logarithm(log) ==> psi == Divergence(log, Floored(RatiosFromCounts(counts), epsilon), Floored(d.ratios, epsilon)))
  }

  /** `feature_psi_score`. */
  method FeaturePsiScore(log: real -> real, d: Distribution, current: seq<real>, epsilon: real) returns (psi: Option<real>)
    requires epsilon > 0.0 && Histogram.Ascending(d.edges)
    ensures psi.Some? <==> |d.ratios| == |d.edges| + 1 && current != []
    ensures psi.Some? ==> exists counts :: IsScoreOf(log, d, current, epsilon, counts, psi.value)
  {
    if |d.ratios| != |d.edges| + 1 {
      return None;
    }
    var counts := Histogram.CurrentBucketCounts(current, d.edges, |d.ratios|);
    psi := PopulationStabilityIndex(log, d.ratios, RatiosFromCounts(counts), epsilon);
    if psi.Some? {
      assert IsScoreOf(log, d, current, epsilon, counts, psi.value);
    }
  }

  /** From the baseline's values to the score: it exists whenever both sides have values, it is
      never negative, and it is zero when the current values are the baseline's in any order. */
  method BaselineThenScore(log: real -> real, values: seq<real>, bins: nat, below: real -> real, current: seq<real>, epsilon: real)
    returns (psi: Option<real>)
    requires LogLike(log) && bins > 0 && epsilon > 0.0 && forall x: real :: below(x) < x
    ensures psi.Some? <==> values != [] && current != []
    ensures psi.Some? ==> psi.value >= 0.0
    ensures psi.Some? && multiset(values) == multiset(current) ==> psi.value == 0.0
    ensures psi.Some? ==> exists d, counts :: Describes(d, values) && IsScoreOf(log, d, current, epsilon, counts, psi.value)
  {
    var d := BuildDistribution(values, bins, below);
    if d.None? {
      return None;
    }
    psi := FeaturePsiScore(log, d.value, current, epsilon);
    if psi.Some? {
      ghost var counts :| IsScoreOf(log, d.value, current, epsilon, counts, psi.value);
      ScoreSign(log, d.value.ratios, RatiosFromCounts(counts), epsilon);
      if multiset(values) == multiset(current) {
        Histogram.HistogramIgnoresOrder(d.value.counts, counts, values, current, d.value.edges);
      }
    }
  }
}
