/** Selection of the latest labelled rows: sort descending, take the first `limit`, sort ascending. */
module LatestSelection {
  import opened Common
  import opened Tables
  import LabelSelection
  import TrainingCohort
  import ServingGateCohort

  datatype SelectionError = BadLimit | TooFewLabelled(required: int, actual: int)

  function Backwards<T>(before: (T, T) -> bool): (T, T) -> bool {
    (a, b) => before(b, a)
  }

  function SelectLatest<T>(rows: seq<T>, labelled: T -> bool, before: (T, T) -> bool, limit: int): Result<seq<T>, SelectionError> {
    if limit <= 0 then Err(BadLimit)
    else
      var candidates := Filter(rows, labelled);
      if |candidates| < limit then Err(TooFewLabelled(limit, |candidates|))
      else
        SortLengths(candidates, Backwards(before));
        Ok(Sort(Sort(candidates, Backwards(before))[..limit], before))
  }

  lemma SortLengths<T>(s: seq<T>, before: (T, T) -> bool)
    ensures |Sort(s, before)| == |s|
  {
    SortKeepsRows(s, before);
    assert |Sort(s, before)| == |multiset(Sort(s, before))| == |multiset(s)|;
  }

  function Reverse<T>(s: seq<T>): (r: seq<T>)
    ensures |r| == |s| && forall k | 0 <= k < |s| :: r[k] == s[|s| - 1 - k]
  {
    seq(|s|, k requires 0 <= k < |s| => s[|s| - 1 - k])
  }

  lemma {:induction false} ReverseKeepsRows<T>(s: seq<T>)
    ensures multiset(Reverse(s)) == multiset(s)
    decreases |s|
  {
    if s != [] {
      ReverseKeepsRows(s[1..]);
      assert Reverse(s) == Reverse(s[1..]) + [s[0]];
      assert s == [s[0]] + s[1..];
    }
  }

  lemma DescendingIsReversed<T(!new)>(s: seq<T>, before: (T, T) -> bool)
    requires StrictOrder(before) && Decides(before, s)
    ensures Sort(s, Backwards(before)) == Reverse(Sort(s, before))
  {
    var down, up := Sort(s, Backwards(before)), Sort(s, before);
    assert Decides(Backwards(before), s);
    SortSorts(s, before);
    SortSorts(s, Backwards(before));
    SortKeepsRows(s, before);
    SortKeepsRows(s, Backwards(before));
    ReverseKeepsRows(up);
    forall x | x in down ensures x in s { SameRowsSameMembers(down, s, x); }
    SortedIsUnique(down, Reverse(up), Backwards(before));
  }

  /** Sorting down, cutting and sorting up is cutting the ascending order at its end. */
  lemma SelectsTail<T(!new)>(s: seq<T>, before: (T, T) -> bool, limit: nat)
    requires StrictOrder(before) && Decides(before, s) && limit <= |s|
    ensures |Sort(s, Backwards(before))| == |Sort(s, before)| == |s|
    ensures Sort(Sort(s, Backwards(before))[..limit], before) == Sort(s, before)[|s| - limit..]
  {
    SortLengths(s, before);
    SortLengths(s, Backwards(before));
    var up := Sort(s, before);
    var tail := up[|s| - limit..];
    DescendingIsReversed(s, before);
    assert Sort(s, Backwards(before))[..limit] == Reverse(tail);
    ReverseKeepsRows(tail);
    SortSorts(s, before);
    SortKeepsRows(s, before);
    forall x | x in tail ensures x in s { SameRowsSameMembers(up, s, x); }
    forall x | x in Reverse(tail) ensures x in tail { SameRowsSameMembers(Reverse(tail), tail, x); }
    SortSorts(Reverse(tail), before);
    SortKeepsRows(Reverse(tail), before);
    SortedIsUnique(tail, Sort(Reverse(tail), before), before);
  }

  /** What is selected: `limit` labelled rows, ascending, none of the other labelled rows after
      any of them. */
  ghost predicate Latest<T(!new)>(candidates: seq<T>, before: (T, T) -> bool, limit: nat, selected: seq<T>) {
    && |selected| == limit && Sorted(selected, before)
    && exists rest: seq<T> :: LeavesEarlier(candidates, before, rest, selected)
  }

  ghost predicate LeavesEarlier<T>(candidates: seq<T>, before: (T, T) -> bool, rest: seq<T>, selected: seq<T>) {
    && multiset(rest) + multiset(selected) == multiset(candidates)
    && forall x, y | x in rest && y in selected :: !before(y, x)
  }

  /** The selection succeeds exactly with a positive limit and enough labelled rows, and then
      gives the latest ones, whatever the order of the input. */
  lemma SelectLatestIsLatest<T(!new)>(rows: seq<T>, labelled: T -> bool, before: (T, T) -> bool, limit: int)
    requires StrictOrder(before) && Decides(before, Filter(rows, labelled))
    ensures SelectLatest(rows, labelled, before, limit).Ok? <==> 0 < limit <= |Filter(rows, labelled)|
    ensures SelectLatest(rows, labelled, before, limit).Ok? ==>
              Latest(Filter(rows, labelled), before, limit, SelectLatest(rows, labelled, before, limit).value)
  {
    var candidates := Filter(rows, labelled);
    if 0 < limit <= |candidates| {
      SelectsTail(candidates, before, limit);
      var up := Sort(candidates, before);
      var rest, tail := up[..|candidates| - limit], up[|candidates| - limit..];
      SortSorts(candidates, before);
      SortKeepsRows(candidates, before);
      assert up == rest + tail;
      assert LeavesEarlier(candidates, before, rest, tail);
    }
  }

  lemma SelectionIgnoresOrder<T(!new)>(rows: seq<T>, rows': seq<T>, labelled: T -> bool, before: (T, T) -> bool, limit: int)
    requires StrictOrder(before) && Decides(before, Filter(rows, labelled)) && multiset(rows) == multiset(rows')
    ensures SelectLatest(rows, labelled, before, limit) == SelectLatest(rows', labelled, before, limit)
  {
    var s, t := Filter(rows, labelled), Filter(rows', labelled);
    FilterCounts(rows, labelled);
    FilterCounts(rows', labelled);
    assert multiset(s) == multiset(t);
    assert |s| == |multiset(s)| == |multiset(t)| == |t|;
    assert Decides(Backwards(before), s);
    SortIgnoresOrder(s, t, Backwards(before));
  }

  lemma {:induction false} FilterCounts<T(!new)>(s: seq<T>, p: T -> bool)
    ensures forall x :: multiset(Filter(s, p))[x] == if p(x) then multiset(s)[x] else 0
  {
    if s != [] {
      FilterCounts(s[1..], p);
      assert s == [s[0]] + s[1..];
      assert multiset(s) == multiset{s[0]} + multiset(s[1..]);
    }
  }

  // -------------------------------------------------------------------- uses

  const MAX_DEVELOPMENT_SAMPLES := 1000

  function IsLabelledMember(): TrainingCohort.CohortRow -> bool {
    (m: TrainingCohort.CohortRow) => m.actual.Some?
  }

  /** Training: the latest labelled rows of the dataset, by availability, sample and snapshot. */
  function SelectTrainingRows(members: seq<TrainingCohort.CohortRow>): Result<seq<TrainingCohort.CohortRow>, SelectionError> {
    SelectLatest(members, IsLabelledMember(), TrainingCohort.RowBefore, MAX_DEVELOPMENT_SAMPLES)
  }

  /** `limit` of the rows with `labelled`: each in order before the next, and every other such row
      in order before all of them. */
  ghost predicate KeepsLatest<T(!new)>(rows: seq<T>, labelled: T -> bool, inOrder: (T, T) -> bool, limit: nat, kept: seq<T>) {
    && |kept| == limit
    && (forall x | x in kept :: x in rows && labelled(x))
    && (forall i, j | 0 <= i < j < |kept| :: inOrder(kept[i], kept[j]))
    && exists rest: seq<T> :: LeavesInOrder(rows, labelled, inOrder, rest, kept)
  }

  ghost predicate LeavesInOrder<T(!new)>(rows: seq<T>, labelled: T -> bool, inOrder: (T, T) -> bool, rest: seq<T>, kept: seq<T>) {
    && (forall x :: multiset(rest)[x] + multiset(kept)[x] == if labelled(x) then multiset(rows)[x] else 0)
    && forall x, y | x in rest && y in kept :: inOrder(x, y)
  }

  lemma LatestIsKept<T(!new)>(rows: seq<T>, labelled: T -> bool, before: (T, T) -> bool, inOrder: (T, T) -> bool, limit: nat, kept: seq<T>)
    requires Latest(Filter(rows, labelled), before, limit, kept)
    requires forall x, y | x in rows && y in rows && !before(y, x) :: inOrder(x, y)
    ensures KeepsLatest(rows, labelled, inOrder, limit, kept)
  {
    var candidates := Filter(rows, labelled);
    var rest: seq<T> :| LeavesEarlier(candidates, before, rest, kept);
    FilterCounts(rows, labelled);
    forall x | x in rest || x in kept ensures x in rows && labelled(x) {
      assert x in multiset(rest) + multiset(kept);
      assert x in candidates;
      FilterMember(rows, labelled, x);
    }
    forall x ensures multiset(rest)[x] + multiset(kept)[x] == if labelled(x) then multiset(rows)[x] else 0 {
      assert (multiset(rest) + multiset(kept))[x] == multiset(candidates)[x];
    }
    assert LeavesInOrder(rows, labelled, inOrder, rest, kept);
  }

  /** Ascending by when the snapshot became available, then by sample and snapshot. */
  predicate RowsInOrder(x: TrainingCohort.CohortRow, y: TrainingCohort.CohortRow) {
    var a, b := x.snapshot, y.snapshot;
    && a.availableAt <= b.availableAt
    && (a.availableAt == b.availableAt ==> a.sampleId == b.sampleId || TextBefore(a.sampleId, b.sampleId))
    && (a.availableAt == b.availableAt && a.sampleId == b.sampleId ==> a.id == b.id || TextBefore(a.id, b.id))
  }

  /** Of any dataset that the training query built, in any row order, training uses the latest
      1000 labelled rows, and fails exactly when there are fewer. */
  lemma TrainingRowsAreLatest(members: seq<TrainingCohort.CohortRow>)
    requires TrainingCohort.OneRowPerSample(members)
    ensures SelectTrainingRows(members).Ok? <==> |Filter(members, IsLabelledMember())| >= 1000
    ensures SelectTrainingRows(members).Ok? ==>
              KeepsLatest(members, (m: TrainingCohort.CohortRow) => m.actual.Some?, RowsInOrder, 1000, SelectTrainingRows(members).value)
  {
    TrainingCohort.RowBeforeIsOrder();
    TrainingCohort.RowBeforeDecides(members);
    forall x | x in Filter(members, IsLabelledMember()) ensures x in members { FilterMember(members, IsLabelledMember(), x); }
    SelectLatestIsLatest(members, IsLabelledMember(), TrainingCohort.RowBefore, MAX_DEVELOPMENT_SAMPLES);
    if SelectTrainingRows(members).Ok? {
      var kept := SelectTrainingRows(members).value;
      LabelSelection.TextIsOrdered();
      LatestIsKept(members, IsLabelledMember(), TrainingCohort.RowBefore, RowsInOrder, 1000, kept);
      SameKeeps(members, IsLabelledMember(), (m: TrainingCohort.CohortRow) => m.actual.Some?, RowsInOrder, 1000, kept);
    }
  }

  lemma SameKeeps<T(!new)>(rows: seq<T>, p: T -> bool, q: T -> bool, inOrder: (T, T) -> bool, limit: nat, kept: seq<T>)
    requires KeepsLatest(rows, p, inOrder, limit, kept) && forall x :: p(x) == q(x)
    ensures KeepsLatest(rows, q, inOrder, limit, kept)
  {
    var rest: seq<T> :| LeavesInOrder(rows, p, inOrder, rest, kept);
    assert LeavesInOrder(rows, q, inOrder, rest, kept);
  }

  function IsLabelledDecision(): ServingGateCohort.Row -> bool {
    (r: ServingGateCohort.Row) => r.actual.Some?
  }

  /** The gate: the latest labelled decisions, by time and prediction id. */
  function SelectDecisions(rows: seq<ServingGateCohort.Row>, limit: int): Result<seq<ServingGateCohort.Row>, SelectionError> {
    SelectLatest(rows, IsLabelledDecision(), ServingGateCohort.RowBefore, limit)
  }

  /** Ascending by the time of the decision, then by prediction id. */
  predicate DecisionsInOrder(x: ServingGateCohort.Row, y: ServingGateCohort.Row) {
    var a, b := x.decision, y.decision;
    a.predictedAt < b.predictedAt || (a.predictedAt == b.predictedAt && (a.id == b.id || TextBefore(a.id, b.id)))
  }

  lemma DecisionsAreLatest(rows: seq<ServingGateCohort.Row>, limit: int)
    requires forall i, j | 0 <= i < j < |rows| :: rows[i].decision.id != rows[j].decision.id
    ensures SelectDecisions(rows, limit).Ok? <==> 0 < limit <= |Filter(rows, IsLabelledDecision())|
    ensures SelectDecisions(rows, limit).Ok? ==>
              KeepsLatest(rows, (r: ServingGateCohort.Row) => r.actual.Some?, DecisionsInOrder, limit, SelectDecisions(rows, limit).value)
  {
    LabelSelection.TextIsOrdered();
    forall a, b | a in Filter(rows, IsLabelledDecision()) && b in Filter(rows, IsLabelledDecision())
      ensures a == b || ServingGateCohort.RowBefore(a, b) || ServingGateCohort.RowBefore(b, a)
    {
      FilterMember(rows, IsLabelledDecision(), a);
      FilterMember(rows, IsLabelledDecision(), b);
    }
    SelectLatestIsLatest(rows, IsLabelledDecision(), ServingGateCohort.RowBefore, limit);
    if SelectDecisions(rows, limit).Ok? {
      var kept := SelectDecisions(rows, limit).value;
      LatestIsKept(rows, IsLabelledDecision(), ServingGateCohort.RowBefore, DecisionsInOrder, limit, kept);
      SameKeeps(rows, IsLabelledDecision(), (r: ServingGateCohort.Row) => r.actual.Some?, DecisionsInOrder, limit, kept);
    }
  }
}
