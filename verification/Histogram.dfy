/** Histograms over ascending bin edges, by binary search: bucket `i` is for the values in
    (edge[i - 1], edge[i]]. */
module Histogram {

  ghost predicate Ascending(edges: seq<real>) {
    forall i, j | 0 <= i < j < |edges| :: edges[i] < edges[j]
  }

  /** `x` falls in (edge[i - 1], edge[i]], open-ended at both ends of the range. */
  predicate InBucket(edges: seq<real>, x: real, i: nat)
    requires i <= |edges|
  {
    (i > 0 ==> edges[i - 1] < x) && (i < |edges| ==> x <= edges[i])
  }

  /** Every value falls in exactly one bucket. */
  lemma BucketIsUnique(edges: seq<real>, x: real, i: nat, j: nat)
    requires Ascending(edges) && i <= |edges| && j <= |edges|
    requires InBucket(edges, x, i) && InBucket(edges, x, j)
    ensures i == j
  {
  }

  /** `bisect_left`. */
  method BisectLeft(edges: seq<real>, x: real) returns (bucket: nat)
    requires Ascending(edges)
    ensures bucket <= |edges| && InBucket(edges, x, bucket)
    ensures forall k | 0 <= k < |edges| :: edges[k] < x <==> k < bucket
  {
    var lo, hi := 0, |edges|;
    while lo < hi
      invariant 0 <= lo <= hi <= |edges|
      invariant forall k | 0 <= k < lo :: edges[k] < x
      invariant forall k | hi <= k < |edges| :: x <= edges[k]
    {
      var mid := (lo + hi) / 2;
      if edges[mid] < x {
        lo := mid + 1;
      } else {
        hi := mid;
      }
    }
    bucket := lo;
  }

  /** How many of the values fall in bucket `i`. */
  function CountIn(values: seq<real>, edges: seq<real>, i: nat): nat
    requires i <= |edges|
  {
    if values == [] then 0
    else CountIn(values[..|values| - 1], edges, i) + if InBucket(edges, values[|values| - 1], i) then 1 else 0
  }

  function Sum(counts: seq<int>): int {
    if counts == [] then 0 else Sum(counts[..|counts| - 1]) + counts[|counts| - 1]
  }

  lemma {:induction false} SumOfIncrement(counts: seq<int>, i: nat)
    requires i < |counts|
    ensures Sum(counts[i := counts[i] + 1]) == Sum(counts) + 1
    decreases |counts|
  {
    var more := counts[i := counts[i] + 1];
    if i == |counts| - 1 {
      assert more[..i] == counts[..i];
    } else {
      assert more[..|counts| - 1] == counts[..|counts| - 1][i := counts[i] + 1];
      SumOfIncrement(counts[..|counts| - 1], i);
    }
  }

  lemma {:induction false} SumOfZeros(counts: seq<int>)
    requires forall i | 0 <= i < |counts| :: counts[i] == 0
    ensures Sum(counts) == 0
    decreases |counts|
  {
    if counts != [] { SumOfZeros(counts[..|counts| - 1]); }
  }

  /** The histogram, and nothing else. */
  ghost predicate IsHistogram(counts: seq<nat>, values: seq<real>, edges: seq<real>) {
    && |counts| == |edges| + 1
    && (forall i | 0 <= i <= |edges| :: counts[i] == CountIn(values, edges, i))
    && Sum(counts) == |values|
  }

  lemma CountStep(counts: seq<nat>, values: seq<real>, n: nat, edges: seq<real>, bucket: nat)
    requires Ascending(edges) && n < |values| && IsHistogram(counts, values[..n], edges)
    requires bucket <= |edges| && InBucket(edges, values[n], bucket)
    ensures IsHistogram(counts[bucket := counts[bucket] + 1], values[..n + 1], edges)
  {
    assert values[..n + 1][..n] == values[..n];
    SumOfIncrement(counts, bucket);
    forall i | 0 <= i <= |edges| ensures InBucket(edges, values[n], i) <==> i == bucket {
      if InBucket(edges, values[n], i) { BucketIsUnique(edges, values[n], i, bucket); }
    }
  }

  /** The baseline's `bucket_counts`. */
  method BaselineBucketCounts(values: seq<real>, edges: seq<real>) returns (counts: seq<nat>)
    requires Ascending(edges)
    ensures IsHistogram(counts, values, edges)
  {
    counts := seq(|edges| + 1, _ => 0);
    SumOfZeros(counts);
    var n := 0;
    while n < |values|
      invariant 0 <= n <= |values| && IsHistogram(counts, values[..n], edges)
    {
      var bucket := BisectLeft(edges, values[n]);
      CountStep(counts, values, n, edges, bucket);
      counts := counts[bucket := counts[bucket] + 1];
      n := n + 1;
    }
    assert values[..n] == values;
  }

  function Clamp(bucket: int, expected: int): int {
    var low := if bucket < expected - 1 then bucket else expected - 1;
    if low > 0 then low else 0
  }

  /** The evaluation's `bucket_counts`. When it is called, the number of expected bins is one
      more than the number of edges; the clamp then never acts. */
  method CurrentBucketCounts(values: seq<real>, edges: seq<real>, expected: nat) returns (counts: seq<nat>)
    requires Ascending(edges) && expected == |edges| + 1
    ensures IsHistogram(counts, values, edges)
  {
    counts := seq(expected, _ => 0);
    SumOfZeros(counts);
    var n := 0;
    while n < |values|
      invariant 0 <= n <= |values| && IsHistogram(counts, values[..n], edges)
    {
      var found := BisectLeft(edges, values[n]);
      var bucket := Clamp(found, expected);
      assert bucket == found;
      CountStep(counts, values, n, edges, found);
      counts := counts[bucket := counts[bucket] + 1];
      n := n + 1;
    }
    assert values[..n] == values;
  }

  lemma {:induction false} CountAppend(s: seq<real>, t: seq<real>, edges: seq<real>, i: nat)
    requires i <= |edges|
    ensures CountIn(s + t, edges, i) == CountIn(s, edges, i) + CountIn(t, edges, i)
    decreases |t|
  {
    if t == [] {
      assert s + t == s;
    } else {
      assert (s + t)[..|s + t| - 1] == s + t[..|t| - 1];
      CountAppend(s, t[..|t| - 1], edges, i);
    }
  }

  lemma CountWithout(t: seq<real>, k: nat, edges: seq<real>, i: nat)
    requires i <= |edges| && k < |t|
    ensures CountIn(t, edges, i) == CountIn(t[..k] + t[k + 1..], edges, i) + if InBucket(edges, t[k], i) then 1 else 0
    ensures multiset(t[..k] + t[k + 1..]) == multiset(t) - multiset{t[k]}
  {
    assert t == t[..k] + ([t[k]] + t[k + 1..]);
    CountAppend(t[..k], [t[k]] + t[k + 1..], edges, i);
    CountAppend([t[k]], t[k + 1..], edges, i);
    CountAppend(t[..k], t[k + 1..], edges, i);
    assert [t[k]][..0] == [];
  }

  /** The histogram depends only on which values there are. */
  lemma {:induction false} CountIgnoresOrder(s: seq<real>, t: seq<real>, edges: seq<real>, i: nat)
    requires i <= |edges| && multiset(s) == multiset(t)
    ensures CountIn(s, edges, i) == CountIn(t, edges, i)
    decreases |s|
  {
    if s == [] {
      assert |multiset(t)| == 0;
    } else {
      var x := s[|s| - 1];
      assert x in multiset(t);
      var k :| 0 <= k < |t| && t[k] == x;
      CountWithout(t, k, edges, i);
      assert s == s[..|s| - 1] + [x];
      CountIgnoresOrder(s[..|s| - 1], t[..k] + t[k + 1..], edges, i);
    }
  }

  /** The two histogram routines agree on permuted values. */
  lemma HistogramIgnoresOrder(counts: seq<nat>, counts': seq<nat>, values: seq<real>, values': seq<real>, edges: seq<real>)
    requires IsHistogram(counts, values, edges) && IsHistogram(counts', values', edges) && multiset(values) == multiset(values')
    ensures counts == counts'
  {
    forall i | 0 <= i <= |edges| ensures counts[i] == counts'[i] {
      CountIgnoresOrder(values, values', edges, i);
    }
  }
}
