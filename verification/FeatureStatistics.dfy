/** Streaming sums of every feature and the values collected beside them. */
module FeatureStatistics {
  import opened Common

  datatype FeatureStats = FeatureStats(samples: nat, nullCount: nat, nonNull: nat, sum: real, sumSq: real)

  const EMPTY := FeatureStats(0, 0, 0, 0.0, 0.0)

  /** The feature vector of a row; an absent value is None. */
  type Row = seq<Option<real>>

  function Square(x: real): real {
    x * x
  }

  function Add(item: FeatureStats, v: Option<real>): FeatureStats {
    match v
    case None => item.(samples := item.samples + 1, nullCount := item.nullCount + 1)
    case Some(x) =>
      item.(samples := item.samples + 1, nonNull := item.nonNull + 1, sum := item.sum + x, sumSq := item.sumSq + Square(x))
  }

  /** The sums after the first `n` rows. */
  function AddColumn(item: FeatureStats, rows: seq<Row>, n: nat, i: nat): FeatureStats
    requires n <= |rows| && forall k | 0 <= k < |rows| :: i < |rows[k]|
  {
    if n == 0 then item else Add(AddColumn(item, rows, n - 1, i), rows[n - 1][i])
  }

  /** The values of a feature in the first `n` rows. */
  function Values(rows: seq<Row>, n: nat, i: nat): seq<real>
    requires n <= |rows| && forall k | 0 <= k < |rows| :: i < |rows[k]|
  {
    if n == 0 then []
    else Values(rows, n - 1, i) + match rows[n - 1][i] { case None => [] case Some(x) => [x] }
  }

  /** `update_feature_stats`. */
  method UpdateFeatureStats(stats: array<FeatureStats>, rows: seq<Row>)
    requires forall k | 0 <= k < |rows| :: |rows[k]| == stats.Length
    modifies stats
    ensures forall i | 0 <= i < stats.Length :: stats[i] == AddColumn(old(stats[i]), rows, |rows|, i)
  {
    var n := 0;
    while n < |rows|
      invariant 0 <= n <= |rows|
      invariant forall i | 0 <= i < stats.Length :: stats[i] == AddColumn(old(stats[i]), rows, n, i)
    {
      var index := 0;
      while index < |rows[n]|
        invariant 0 <= index <= stats.Length
        invariant forall i | 0 <= i < stats.Length ::
                    stats[i] == AddColumn(old(stats[i]), rows, if i < index then n + 1 else n, i)
      {
        stats[index] := Add(stats[index], rows[n][index]);
        index := index + 1;
      }
      n := n + 1;
    }
  }

  /** `collect_feature_values`. */
  method CollectFeatureValues(rows: seq<Row>, featureCount: nat) returns (collected: seq<seq<real>>)
    requires forall k | 0 <= k < |rows| :: |rows[k]| == featureCount
    ensures |collected| == featureCount && forall i | 0 <= i < featureCount :: collected[i] == Values(rows, |rows|, i)
  {
    collected := seq(featureCount, _ => []);
    var n := 0;
    while n < |rows|
      invariant 0 <= n <= |rows| && |collected| == featureCount
      invariant forall i | 0 <= i < featureCount :: collected[i] == Values(rows, n, i)
    {
      var index := 0;
      while index < |rows[n]|
        invariant 0 <= index <= featureCount == |collected|
        invariant forall i | 0 <= i < featureCount :: collected[i] == Values(rows, if i < index then n + 1 else n, i)
      {
        if rows[n][index].Some? {
          collected := collected[index := collected[index] + [rows[n][index].value]];
        }
        index := index + 1;
      }
      n := n + 1;
    }
  }

  /** The rows among the first `n` that have the feature. */
  function Present(rows: seq<Row>, n: nat, i: nat): set<nat>
    requires n <= |rows| && forall k | 0 <= k < |rows| :: i < |rows[k]|
  {
    set k | 0 <= k < n && rows[k][i].Some?
  }

  lemma PresentStep(rows: seq<Row>, n: nat, i: nat)
    requires n < |rows| && forall k | 0 <= k < |rows| :: i < |rows[k]|
    ensures |Present(rows, n + 1, i)| == |Present(rows, n, i)| + if rows[n][i].Some? then 1 else 0
  {
    assert Present(rows, n + 1, i) == Present(rows, n, i) + if rows[n][i].Some? then {n} else {};
  }

  /** The collected values are the values that are there, one of every row that has one, in the
      order of the rows. */
  lemma {:induction false} ValuesArePresent(rows: seq<Row>, n: nat, i: nat)
    requires n <= |rows| && forall k | 0 <= k < |rows| :: i < |rows[k]|
    ensures |Values(rows, n, i)| == |Present(rows, n, i)|
    ensures forall k | 0 <= k < n && rows[k][i].Some? ::
              |Present(rows, k, i)| < |Values(rows, n, i)| && Values(rows, n, i)[|Present(rows, k, i)|] == rows[k][i].value
  {
    if n == 0 {
      assert Present(rows, 0, i) == {};
    } else {
      ValuesArePresent(rows, n - 1, i);
      PresentStep(rows, n - 1, i);
      var before, now := Values(rows, n - 1, i), Values(rows, n, i);
      assert before <= now;
      forall k | 0 <= k < n && rows[k][i].Some? ensures |Present(rows, k, i)| < |now| && now[|Present(rows, k, i)|] == rows[k][i].value {
        if k < n - 1 { assert before[|Present(rows, k, i)|] == rows[k][i].value; }
      }
    }
  }

  function Sum(v: seq<real>): real {
    if v == [] then 0.0 else Sum(v[..|v| - 1]) + v[|v| - 1]
  }

  function SumOfSquares(v: seq<real>): real {
    if v == [] then 0.0 else SumOfSquares(v[..|v| - 1]) + Square(v[|v| - 1])
  }

  lemma SumsOfAppend(v: seq<real>, x: real)
    ensures Sum(v + [x]) == Sum(v) + x && SumOfSquares(v + [x]) == SumOfSquares(v) + Square(x)
  {
    assert (v + [x])[..|v|] == v;
  }

  /** The streaming sums are those of the collected values. */
  lemma {:induction false} StatsAreOfCollected(rows: seq<Row>, n: nat, i: nat)
    requires n <= |rows| && forall k | 0 <= k < |rows| :: i < |rows[k]|
    ensures var item, v := AddColumn(EMPTY, rows, n, i), Values(rows, n, i);
            |v| <= n && item == FeatureStats(n, n - |v|, |v|, Sum(v), SumOfSquares(v))
  {
    if n > 0 {
      StatsAreOfCollected(rows, n - 1, i);
      var before := Values(rows, n - 1, i);
      match rows[n - 1][i] {
        case None => assert before + [] == before;
        case Some(x) => SumsOfAppend(before, x);
      }
    }
  }

  /** The sum of squared deviations from `m`. */
  function Deviations(v: seq<real>, m: real): real {
    if v == [] then 0.0 else Deviations(v[..|v| - 1], m) + Square(v[|v| - 1] - m)
  }

  lemma ProductSign(x: real, y: real, product: real)
    requires product == x * y
    ensures x > 0.0 && y > 0.0 ==> product > 0.0
    ensures x < 0.0 && y < 0.0 ==> product > 0.0
  {
  }

  lemma SquareSign(x: real)
    ensures Square(x) >= 0.0 && (Square(x) == 0.0 <==> x == 0.0)
  {
    ProductSign(x, x, Square(x));
    assert Square(0.0) == 0.0;
  }

  lemma {:induction false} DeviationsSign(v: seq<real>, m: real)
    ensures Deviations(v, m) >= 0.0
    ensures Deviations(v, m) == 0.0 <==> forall k | 0 <= k < |v| :: v[k] == m
    decreases |v|
  {
    if v != [] {
      DeviationsSign(v[..|v| - 1], m);
      SquareSign(v[|v| - 1] - m);
    }
  }

  lemma SquareOfDifference(x: real, m: real)
    ensures Square(x - m) == Square(x) - 2.0 * m * x + Square(m)
  {
  }

  lemma Step(n: real, m: real, s: real, x: real)
    ensures 2.0 * m * (s + x) == 2.0 * m * s + 2.0 * m * x && (n + 1.0) * Square(m) == n * Square(m) + Square(m)
  {
  }

  lemma {:induction false} DeviationsExpand(v: seq<real>, m: real)
    ensures Deviations(v, m) == SumOfSquares(v) - 2.0 * m * Sum(v) + |v| as real * Square(m)
    decreases |v|
  {
    if v != [] {
      var rest, x := v[..|v| - 1], v[|v| - 1];
      DeviationsExpand(rest, m);
      SquareOfDifference(x, m);
      Step(|rest| as real, m, Sum(rest), x);
    }
  }

  /** What `feature_std` divides by n - 1, with `max(.., 0)` not yet applied. */
  function Numerator(sum: real, sumSq: real, count: nat): real
    requires count > 0
  {
    sumSq - (sum * sum) / count as real
  }

  function Mean(v: seq<real>): real
    requires v != []
  {
    Sum(v) / |v| as real
  }

  lemma MeanSquare(s: real, n: real, m: real)
    requires n > 0.0 && m * n == s
    ensures s * s / n == 2.0 * m * s - n * Square(m)
  {
    assert n * Square(m) == (m * n) * m == s * m;
    assert s * s == (s * m) * n;
    QuotientOfProduct(s * m, n);
  }

  lemma QuotientOfProduct(x: real, n: real)
    requires n > 0.0
    ensures (x * n) / n == x
  {
  }

  lemma MeanIdentity(sumSq: real, s: real, count: nat, m: real, d: real)
    requires count > 0 && m * count as real == s && d == sumSq - 2.0 * m * s + count as real * Square(m)
    ensures d == Numerator(s, sumSq, count)
  {
    MeanSquare(s, count as real, m);
  }

  lemma DeviationsFrom(v: seq<real>, m: real)
    requires v != [] && m * |v| as real == Sum(v)
    ensures Deviations(v, m) == Numerator(Sum(v), SumOfSquares(v), |v|)
  {
    DeviationsExpand(v, m);
    MeanIdentity(SumOfSquares(v), Sum(v), |v|, m, Deviations(v, m));
  }

  lemma DeviationsFromMean(v: seq<real>)
    requires v != []
    ensures Deviations(v, Mean(v)) == Numerator(Sum(v), SumOfSquares(v), |v|)
  {
    assert Mean(v) * |v| as real == Sum(v);
    DeviationsFrom(v, Mean(v));
  }

  lemma DeviationsFromMeanSign(v: seq<real>)
    requires v != []
    ensures Deviations(v, Mean(v)) >= 0.0
    ensures Deviations(v, Mean(v)) == 0.0 <==> forall k | 0 <= k < |v| :: v[k] == v[0]
  {
    DeviationsSign(v, Mean(v));
    if forall k | 0 <= k < |v| :: v[k] == v[0] {
      ConstantMean(v, v[0]);
    }
  }

  /** The streaming numerator is the sum of squared deviations of the collected values from
      their mean; so the clamp at zero never acts, and it is zero only for constant values. */
  lemma NumeratorIsSumOfSquaredDeviations(rows: seq<Row>, i: nat)
    requires forall k | 0 <= k < |rows| :: i < |rows[k]|
    requires Values(rows, |rows|, i) != []
    ensures var item, v := AddColumn(EMPTY, rows, |rows|, i), Values(rows, |rows|, i);
            && item.nonNull == |v| && Numerator(item.sum, item.sumSq, item.nonNull) == Deviations(v, Mean(v)) >= 0.0
            && (Numerator(item.sum, item.sumSq, item.nonNull) == 0.0 <==> forall k | 0 <= k < |v| :: v[k] == v[0])
  {
    StatsAreOfCollected(rows, |rows|, i);
    DeviationsFromMean(Values(rows, |rows|, i));
    DeviationsFromMeanSign(Values(rows, |rows|, i));
  }

  lemma {:induction false} ConstantSum(v: seq<real>, x: real)
    requires forall k | 0 <= k < |v| :: v[k] == x
    ensures Sum(v) == |v| as real * x
    decreases |v|
  {
    if v != [] { ConstantSum(v[..|v| - 1], x); }
  }

  lemma ConstantMean(v: seq<real>, x: real)
    requires v != [] && forall k | 0 <= k < |v| :: v[k] == x
    ensures Mean(v) == x
  {
    ConstantSum(v, x);
  }

  /** `feature_std`, over an abstract square root. */
  function FeatureStd(root: real -> real, item: FeatureStats, insufficient: Option<real>): Option<real> {
    if item.nonNull < 2 then insufficient
    else
      var variance := Numerator(item.sum, item.sumSq, item.nonNull) / (item.nonNull - 1) as real;
      Some(root(if variance > 0.0 then variance else 0.0))
  }

  /** With two values or more it is the root of the sample variance, without a clamp. */
  lemma StdIsRootOfSampleVariance(root: real -> real, rows: seq<Row>, i: nat, insufficient: Option<real>)
    requires forall k | 0 <= k < |rows| :: i < |rows[k]|
    ensures var v := Values(rows, |rows|, i);
            FeatureStd(root, AddColumn(EMPTY, rows, |rows|, i), insufficient)
            == if |v| < 2 then insufficient else Some(root(Deviations(v, Mean(v)) / (|v| - 1) as real))
  {
    var v := Values(rows, |rows|, i);
    StatsAreOfCollected(rows, |rows|, i);
    if |v| >= 2 {
      NumeratorIsSumOfSquaredDeviations(rows, i);
      QuotientSign(Deviations(v, Mean(v)), (|v| - 1) as real);
    }
  }

  lemma QuotientSign(x: real, n: real)
    requires x >= 0.0 && n > 0.0
    ensures x / n >= 0.0
  {
  }
}
