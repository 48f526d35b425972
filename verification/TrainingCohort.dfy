/** The point-in-time training cohort: the first complete snapshot of every sample, when it
    fell into the window, with the label as known at the cutoff. */
module TrainingCohort {
  import opened Common
  import opened Sequences
  import opened Tables
  import opened LabelSelection

  /** A JSON value of a feature. */
  datatype RawValue = Null | Number(number: real) | NonFinite | NotNumeric

  /** A row of `serving_feature_snapshots`. */
  datatype Snapshot = Snapshot(
    id: string, sampleId: string, version: int, featureHash: string, snapshotTime: real, availableAt: real,
    windowStart: real, windowEnd: real, featureCount: int, missingCount: int, complete: bool, status: string,
    simulationRunId: Option<string>, driftSegment: Option<string>, features: map<string, RawValue>)

  datatype Config = Config(
    cohortStart: real, cutoff: real, maturity: real, simulationRunId: Option<string>, driftSegment: Option<string>) {
    function CohortEnd(): real {
      cutoff - maturity
    }
  }

  /** A row of the query's result. */
  datatype CohortRow = CohortRow(snapshot: Snapshot, actual: Option<Label>)

  // ------------------------------------------------------------------- query

  /** The WHERE of the ranked snapshots. */
  predicate Eligible(c: Config, s: Snapshot) {
    && s.complete && s.status == "complete"
    && (c.simulationRunId.Some? ==> s.simulationRunId == c.simulationRunId)
    && (c.driftSegment.Some? ==> s.driftSegment == c.driftSegment)
  }

  predicate SameSnapshotSample(a: Snapshot, b: Snapshot) {
    a.sampleId == b.sampleId
  }

  /** ORDER BY available_at, snapshot_version, serving_snapshot_id. */
  predicate Earlier(a: Snapshot, b: Snapshot) {
    || a.availableAt < b.availableAt
    || (a.availableAt == b.availableAt && (a.version < b.version || (a.version == b.version && TextBefore(a.id, b.id))))
  }

  function IsEligible(c: Config): Snapshot -> bool {
    (s: Snapshot) => Eligible(c, s)
  }

  function Complete(c: Config, snapshots: seq<Snapshot>): seq<Snapshot> {
    Filter(snapshots, IsEligible(c))
  }

  predicate InWindow(c: Config, s: Snapshot) {
    c.cohortStart <= s.availableAt < c.CohortEnd()
  }

  function IsFirstInWindow(c: Config, ranked: seq<Snapshot>): Snapshot -> bool {
    (s: Snapshot) => RowNumber(ranked, SameSnapshotSample, Earlier, s) == 1 && InWindow(c, s)
  }

  function FirstCompleteCohort(c: Config, snapshots: seq<Snapshot>): seq<Snapshot> {
    Filter(Complete(c, snapshots), IsFirstInWindow(c, Complete(c, snapshots)))
  }

  function Samples(cohort: seq<Snapshot>): set<string> {
    set s | s in cohort :: s.sampleId
  }

  /** LEFT JOIN: one row per matching label, or one without. */
  function JoinOne(s: Snapshot, labels: seq<Label>): seq<CohortRow> {
    var matches := Filter(labels, IsLabelOf(s.sampleId));
    if matches == [] then [CohortRow(s, None)]
    else seq(|matches|, k requires 0 <= k < |matches| => CohortRow(s, Some(matches[k])))
  }

  function JoinLabels(cohort: seq<Snapshot>, labels: seq<Label>): seq<CohortRow> {
    if cohort == [] then [] else JoinOne(cohort[0], labels) + JoinLabels(cohort[1..], labels)
  }

  /** ORDER BY snapshot_available_at, sample_id, serving_snapshot_id. */
  predicate RowBefore(a: CohortRow, b: CohortRow) {
    var x, y := a.snapshot, b.snapshot;
    || x.availableAt < y.availableAt
    || (x.availableAt == y.availableAt
        && (TextBefore(x.sampleId, y.sampleId) || (x.sampleId == y.sampleId && TextBefore(x.id, y.id))))
  }

  function Unordered(c: Config, snapshots: seq<Snapshot>, labels: seq<Label>): seq<CohortRow> {
    var cohort := FirstCompleteCohort(c, snapshots);
    JoinLabels(cohort, LabelsAtCutoff(c.cutoff, Samples(cohort), labels))
  }

  function CohortRows(c: Config, snapshots: seq<Snapshot>, labels: seq<Label>): seq<CohortRow> {
    Sort(Unordered(c, snapshots, labels), RowBefore)
  }

  // -------------------------------------------------------------- no leakage

  function IsEarly(c: Config): Snapshot -> bool {
    (s: Snapshot) => s.availableAt < c.CohortEnd()
  }

  /** What the tables held of snapshots available before the cohort end. */
  function SnapshotsBefore(c: Config, snapshots: seq<Snapshot>): seq<Snapshot> {
    Filter(snapshots, IsEarly(c))
  }

  /** A later snapshot never changes which one was first. */
  lemma RankIgnoresLater(c: Config, snapshots: seq<Snapshot>, s: Snapshot)
    requires s.availableAt < c.CohortEnd()
    ensures RowNumber(Complete(c, snapshots), SameSnapshotSample, Earlier, s)
         == RowNumber(Complete(c, SnapshotsBefore(c, snapshots)), SameSnapshotSample, Earlier, s)
  {
    var prior := Preceding(SameSnapshotSample, Earlier, s);
    var eligiblePrior := x => Eligible(c, x) && prior(x);
    FilterNested(snapshots, IsEligible(c), prior, eligiblePrior);
    FilterNested(SnapshotsBefore(c, snapshots), IsEligible(c), prior, eligiblePrior);
    FilterNested(snapshots, IsEarly(c), eligiblePrior, eligiblePrior);
  }

  lemma CohortIgnoresLater(c: Config, snapshots: seq<Snapshot>)
    ensures FirstCompleteCohort(c, snapshots) == FirstCompleteCohort(c, SnapshotsBefore(c, snapshots))
  {
    var before := SnapshotsBefore(c, snapshots);
    var first, firstBefore := IsFirstInWindow(c, Complete(c, snapshots)), IsFirstInWindow(c, Complete(c, before));
    var chosen := x => Eligible(c, x) && first(x);
    forall s: Snapshot | s.availableAt < c.CohortEnd() ensures first(s) == firstBefore(s) {
      RankIgnoresLater(c, snapshots, s);
    }
    FilterNested(snapshots, IsEligible(c), first, chosen);
    forall x | x in before ensures x.availableAt < c.CohortEnd() { FilterMember(snapshots, IsEarly(c), x); }
    FilterNested(before, IsEligible(c), firstBefore, chosen);
    FilterNested(snapshots, IsEarly(c), chosen, chosen);
  }

  /** No leakage: tables that agree on what was available before the cohort end, and on the
      labels known at the cutoff, give the same members, wherever later rows were put. */
  lemma LaterRowsChangeNothing(c: Config, snapshots: seq<Snapshot>, labels: seq<Label>,
                               snapshots': seq<Snapshot>, labels': seq<Label>)
    requires SnapshotsBefore(c, snapshots) == SnapshotsBefore(c, snapshots')
    requires LabelsBy(c.cutoff, labels) == LabelsBy(c.cutoff, labels')
    ensures CohortRows(c, snapshots, labels) == CohortRows(c, snapshots', labels')
  {
    CohortIgnoresLater(c, snapshots);
    CohortIgnoresLater(c, snapshots');
    LabelsIgnoreLater(c.cutoff, Samples(FirstCompleteCohort(c, snapshots)), labels);
    LabelsIgnoreLater(c.cutoff, Samples(FirstCompleteCohort(c, snapshots)), labels');
  }

  /** In particular, rows that are appended later. */
  lemma RebuildIsStable(c: Config, snapshots: seq<Snapshot>, labels: seq<Label>, lateSnapshots: seq<Snapshot>, lateLabels: seq<Label>)
    requires forall s | s in lateSnapshots :: s.availableAt >= c.cutoff - c.maturity
    requires forall l | l in lateLabels :: l.availableAt > c.cutoff
    ensures CohortRows(c, snapshots + lateSnapshots, labels + lateLabels) == CohortRows(c, snapshots, labels)
  {
    FilterAppend(snapshots, lateSnapshots, IsEarly(c));
    FilterAppend(labels, lateLabels, IsKnown(c.cutoff));
    FilterNone(lateSnapshots, IsEarly(c));
    FilterNone(lateLabels, IsKnown(c.cutoff));
    LaterRowsChangeNothing(c, snapshots + lateSnapshots, labels + lateLabels, snapshots, labels);
  }

  // ------------------------------------------------------------- what it selects

  /** The primary keys. */
  ghost predicate DistinctSnapshots(snapshots: seq<Snapshot>) {
    forall i, j | 0 <= i < j < |snapshots| :: snapshots[i].id != snapshots[j].id
  }

  lemma EarlierIsOrder()
    ensures StrictOrder(Earlier) && Equivalence(SameSnapshotSample)
  {
    TextIsOrdered();
  }

  lemma EarlierDecides(snapshots: seq<Snapshot>, p: Snapshot -> bool)
    requires DistinctSnapshots(snapshots)
    ensures Decides(Earlier, Filter(snapshots, p))
  {
    TextIsOrdered();
    forall a, b | a in Filter(snapshots, p) && b in Filter(snapshots, p) ensures a == b || Earlier(a, b) || Earlier(b, a) {
      FilterMember(snapshots, p, a);
      FilterMember(snapshots, p, b);
    }
  }

  /** A complete snapshot of the run and drift segment that is asked for, if any. */
  predicate CompleteFor(c: Config, s: Snapshot) {
    && s.complete && s.status == "complete"
    && (c.simulationRunId == None || s.simulationRunId == c.simulationRunId)
    && (c.driftSegment == None || s.driftSegment == c.driftSegment)
  }

  /** `x` is not before `s`: by when it became available, then by version, then by id. */
  predicate AsEarlyAs(s: Snapshot, x: Snapshot) {
    && s.availableAt <= x.availableAt
    && (s.availableAt == x.availableAt ==> s.version <= x.version)
    && (s.availableAt == x.availableAt && s.version == x.version ==> s.id == x.id || TextBefore(s.id, x.id))
  }

  lemma AsEarlyAsIsNotLater(s: Snapshot, x: Snapshot)
    ensures AsEarlyAs(s, x) <==> !Earlier(x, s)
  {
    TextIsOrdered();
  }

  /** `s` is the first complete snapshot of its sample. */
  ghost predicate FirstComplete(c: Config, snapshots: seq<Snapshot>, s: Snapshot) {
    s in snapshots && CompleteFor(c, s)
    && forall x | x in snapshots && CompleteFor(c, x) && x.sampleId == s.sampleId :: AsEarlyAs(s, x)
  }

  lemma InComplete(c: Config, snapshots: seq<Snapshot>, x: Snapshot)
    ensures x in Complete(c, snapshots) <==> x in snapshots && CompleteFor(c, x)
  {
    FilterMember(snapshots, IsEligible(c), x);
    assert Eligible(c, x) <==> CompleteFor(c, x);
  }

  lemma FirstRanked(ranked: seq<Snapshot>, s: Snapshot)
    ensures RowNumber(ranked, SameSnapshotSample, Earlier, s) == 1
            <==> forall x | x in ranked && x.sampleId == s.sampleId :: AsEarlyAs(s, x)
  {
    RowNumberOne(ranked, SameSnapshotSample, Earlier, s);
    forall x | x in ranked && SameSnapshotSample(x, s) ensures AsEarlyAs(s, x) <==> !Earlier(x, s) { AsEarlyAsIsNotLater(s, x); }
  }

  lemma InCohort(c: Config, snapshots: seq<Snapshot>, s: Snapshot)
    ensures s in FirstCompleteCohort(c, snapshots)
            <==> FirstComplete(c, snapshots, s) && c.cohortStart <= s.availableAt < c.cutoff - c.maturity
  {
    var ranked := Complete(c, snapshots);
    FilterMember(ranked, IsFirstInWindow(c, ranked), s);
    FirstRanked(ranked, s);
    forall x ensures x in ranked <==> x in snapshots && CompleteFor(c, x) { InComplete(c, snapshots, x); }
  }

  /** Every sample is in the cohort at most once. */
  lemma CohortHasOneRowPerSample(c: Config, snapshots: seq<Snapshot>)
    requires DistinctSnapshots(snapshots)
    ensures forall i, j | 0 <= i < j < |FirstCompleteCohort(c, snapshots)| ::
              FirstCompleteCohort(c, snapshots)[i].sampleId != FirstCompleteCohort(c, snapshots)[j].sampleId
  {
    var ranked, cohort := Complete(c, snapshots), FirstCompleteCohort(c, snapshots);
    FilterNoDuplicates(snapshots, IsEligible(c));
    FilterNoDuplicates(ranked, IsFirstInWindow(c, ranked));
    EarlierDecides(snapshots, IsEligible(c));
    EarlierIsOrder();
    forall i, j | 0 <= i < j < |cohort| ensures cohort[i].sampleId != cohort[j].sampleId {
      FilterMember(ranked, IsFirstInWindow(c, ranked), cohort[i]);
      FilterMember(ranked, IsFirstInWindow(c, ranked), cohort[j]);
      if cohort[i].sampleId == cohort[j].sampleId {
        FirstRowIsUnique(ranked, SameSnapshotSample, Earlier, cohort[i], cohort[j]);
      }
    }
  }

  ghost predicate Joined(c: Config, labels: seq<Label>, s: Snapshot, m: CohortRow) {
    m.snapshot == s && RightLabel(c.cutoff, labels, s.sampleId, m.actual)
  }

  lemma JoinOneKeepsRow(c: Config, cohort: seq<Snapshot>, labels: seq<Label>, s: Snapshot)
    requires DistinctLabels(labels) && s in cohort
    ensures var rows := JoinOne(s, LabelsAtCutoff(c.cutoff, Samples(cohort), labels)); |rows| == 1 && Joined(c, labels, s, rows[0])
  {
    MatchesOneLabel(c.cutoff, Samples(cohort), labels, s.sampleId);
  }

  /** The join neither drops nor duplicates a row. */
  lemma {:induction false} JoinKeepsRows(c: Config, all: seq<Snapshot>, labels: seq<Label>, cohort: seq<Snapshot>)
    requires DistinctLabels(labels) && forall s | s in cohort :: s in all
    ensures var rows := JoinLabels(cohort, LabelsAtCutoff(c.cutoff, Samples(all), labels));
            |rows| == |cohort| && forall k | 0 <= k < |cohort| :: Joined(c, labels, cohort[k], rows[k])
    decreases |cohort|
  {
    if cohort != [] {
      assert cohort[0] in cohort && forall s | s in cohort[1..] :: s in cohort;
      JoinOneKeepsRow(c, all, labels, cohort[0]);
      JoinKeepsRows(c, all, labels, cohort[1..]);
    }
  }

  ghost predicate OneRowPerSample(rows: seq<CohortRow>) {
    forall i, j | 0 <= i < j < |rows| :: rows[i].snapshot.sampleId != rows[j].snapshot.sampleId
  }

  lemma UnorderedHasOneRowPerSample(c: Config, snapshots: seq<Snapshot>, labels: seq<Label>)
    requires DistinctSnapshots(snapshots) && DistinctLabels(labels)
    ensures OneRowPerSample(Unordered(c, snapshots, labels))
  {
    var cohort := FirstCompleteCohort(c, snapshots);
    CohortHasOneRowPerSample(c, snapshots);
    JoinKeepsRows(c, cohort, labels, cohort);
  }

  /** What a member is. */
  ghost predicate IsMember(c: Config, snapshots: seq<Snapshot>, labels: seq<Label>, m: CohortRow) {
    && FirstComplete(c, snapshots, m.snapshot) && c.cohortStart <= m.snapshot.availableAt < c.cutoff - c.maturity
    && RightLabel(c.cutoff, labels, m.snapshot.sampleId, m.actual)
  }

  lemma InUnordered(c: Config, snapshots: seq<Snapshot>, labels: seq<Label>, m: CohortRow)
    requires DistinctSnapshots(snapshots) && DistinctLabels(labels)
    ensures m in Unordered(c, snapshots, labels) <==> IsMember(c, snapshots, labels, m)
  {
    var cohort, rows := FirstCompleteCohort(c, snapshots), Unordered(c, snapshots, labels);
    JoinKeepsRows(c, cohort, labels, cohort);
    InCohort(c, snapshots, m.snapshot);
    if m in rows {
      var k :| 0 <= k < |rows| && rows[k] == m;
      assert cohort[k] in cohort;
    }
    if IsMember(c, snapshots, labels, m) {
      var k :| 0 <= k < |cohort| && cohort[k] == m.snapshot;
      RightLabelIsUnique(c.cutoff, labels, m.snapshot.sampleId, rows[k].actual, m.actual);
      assert rows[k] == m;
    }
  }

  /** The members are exactly the first complete snapshots in the window, each with the
      newest label known at the cutoff. */
  lemma MembersMean(c: Config, snapshots: seq<Snapshot>, labels: seq<Label>, m: CohortRow)
    requires DistinctSnapshots(snapshots) && DistinctLabels(labels)
    ensures m in CohortRows(c, snapshots, labels) <==> IsMember(c, snapshots, labels, m)
  {
    InUnordered(c, snapshots, labels, m);
    SortKeepsRows(Unordered(c, snapshots, labels), RowBefore);
    SameRowsSameMembers(CohortRows(c, snapshots, labels), Unordered(c, snapshots, labels), m);
  }

  lemma RowBeforeIsOrder()
    ensures StrictOrder(RowBefore)
  {
    TextIsOrdered();
  }

  lemma RowBeforeDecides(rows: seq<CohortRow>)
    requires OneRowPerSample(rows)
    ensures Decides(RowBefore, rows)
  {
    TextIsOrdered();
    forall a, b | a in rows && b in rows ensures a == b || RowBefore(a, b) || RowBefore(b, a) {
      var i :| 0 <= i < |rows| && rows[i] == a;
      var j :| 0 <= j < |rows| && rows[j] == b;
      assert i != j ==> a.snapshot.sampleId != b.snapshot.sampleId;
    }
  }

  lemma {:induction false} SameMembersSameRows(s: seq<CohortRow>, t: seq<CohortRow>)
    requires OneRowPerSample(s) && OneRowPerSample(t) && forall m :: m in s <==> m in t
    ensures multiset(s) == multiset(t)
  {
    forall m ensures multiset(s)[m] == multiset(t)[m] {
      assert m in s <==> m in t;
      CountIsOne(s, m);
      CountIsOne(t, m);
    }
  }

  lemma {:induction false} CountIsOne(s: seq<CohortRow>, m: CohortRow)
    requires OneRowPerSample(s)
    ensures multiset(s)[m] == if m in s then 1 else 0
  {
    if s != [] {
      assert s == [s[0]] + s[1..];
      CountIsOne(s[1..], m);
    }
  }

  /** A rebuild gives the same members in the same order, whatever order the tables store
      their rows in. */
  lemma MembersIgnoreStorageOrder(c: Config, snapshots: seq<Snapshot>, labels: seq<Label>,
                                  snapshots': seq<Snapshot>, labels': seq<Label>)
    requires DistinctSnapshots(snapshots) && DistinctLabels(labels) && DistinctSnapshots(snapshots') && DistinctLabels(labels')
    requires (forall s :: s in snapshots <==> s in snapshots') && (forall l :: l in labels <==> l in labels')
    ensures CohortRows(c, snapshots, labels) == CohortRows(c, snapshots', labels')
  {
    var s, t := Unordered(c, snapshots, labels), Unordered(c, snapshots', labels');
    UnorderedHasOneRowPerSample(c, snapshots, labels);
    UnorderedHasOneRowPerSample(c, snapshots', labels');
    forall m ensures m in s <==> m in t {
      InUnordered(c, snapshots, labels, m);
      InUnordered(c, snapshots', labels', m);
    }
    SameMembersSameRows(s, t);
    RowBeforeIsOrder();
    RowBeforeDecides(s);
    SortIgnoresOrder(s, t, RowBefore);
  }

  /** The rows come in the order of the query, which is the canonical one. */
  lemma CohortRowsAreSorted(c: Config, snapshots: seq<Snapshot>, labels: seq<Label>)
    requires DistinctSnapshots(snapshots) && DistinctLabels(labels)
    ensures Sorted(CohortRows(c, snapshots, labels), RowBefore)
  {
    UnorderedHasOneRowPerSample(c, snapshots, labels);
    RowBeforeIsOrder();
    RowBeforeDecides(Unordered(c, snapshots, labels));
    SortSorts(Unordered(c, snapshots, labels), RowBefore);
  }

  // ------------------------------------------------------------------ tiling

  /** The scheduled windows: data intervals `times[i] .. times[i + 1]`, shifted by the maturity. */
  function Window(times: seq<real>, maturity: real, i: nat): Config
    requires i + 1 < |times|
  {
    Config(times[i] - maturity, times[i + 1], maturity, None, None)
  }

  ghost predicate Increasing(times: seq<real>) {
    forall i, j | 0 <= i < j < |times| :: times[i] <= times[j]
  }

  /** The tables as each build found them; what came later became available later. */
  ghost predicate BuiltInTime(times: seq<real>, maturity: real, snapshots: seq<Snapshot>, builds: seq<(seq<Snapshot>, seq<Label>)>) {
    && |builds| + 1 == |times|
    && forall i | 0 <= i < |builds| ::
         && DistinctSnapshots(builds[i].0) && DistinctLabels(builds[i].1)
         && SnapshotsBefore(Window(times, maturity, i), builds[i].0) == SnapshotsBefore(Window(times, maturity, i), snapshots)
  }

  ghost predicate HasSample(members: seq<CohortRow>, sample: string) {
    exists m :: m in members && m.snapshot.sampleId == sample
  }

  /** Which build holds a sample is decided by when its first complete snapshot fell. */
  lemma BuildHoldsSample(times: seq<real>, maturity: real, snapshots: seq<Snapshot>, builds: seq<(seq<Snapshot>, seq<Label>)>,
                         f: Snapshot, i: nat)
    requires BuiltInTime(times, maturity, snapshots, builds) && i < |builds|
    requires DistinctSnapshots(snapshots) && FirstComplete(Window(times, maturity, i), snapshots, f)
    ensures var c := Window(times, maturity, i);
            HasSample(CohortRows(c, builds[i].0, builds[i].1), f.sampleId) <==> InWindow(c, f)
  {
    var c := Window(times, maturity, i);
    var members := CohortRows(c, builds[i].0, builds[i].1);
    LaterRowsChangeNothing(c, builds[i].0, builds[i].1, snapshots, builds[i].1);
    if InWindow(c, f) {
      InCohort(c, snapshots, f);
      var cohort := FirstCompleteCohort(c, snapshots);
      JoinKeepsRows(c, cohort, builds[i].1, cohort);
      var k :| 0 <= k < |cohort| && cohort[k] == f;
      var m := Unordered(c, snapshots, builds[i].1)[k];
      InUnordered(c, snapshots, builds[i].1, m);
      MembersMean(c, snapshots, builds[i].1, m);
    }
    if m :| m in members && m.snapshot.sampleId == f.sampleId {
      MembersMean(c, snapshots, builds[i].1, m);
      TextIsOrdered();
      assert AsEarlyAs(m.snapshot, f) && AsEarlyAs(f, m.snapshot);
    }
  }

  predicate Within(times: seq<real>, t: real, i: nat) {
    i + 1 < |times| && times[i] <= t < times[i + 1]
  }

  /** Exactly one of adjacent windows holds a time in their union. */
  lemma WindowsTile(times: seq<real>, t: real)
    requires times != [] && Increasing(times)
    ensures (exists i: nat :: Within(times, t, i)) <==> times[0] <= t < times[|times| - 1]
    ensures forall i: nat, j: nat | Within(times, t, i) && Within(times, t, j) :: i == j
  {
    if times[0] <= t < times[|times| - 1] {
      var i := WindowOf(times, t);
      assert Within(times, t, i);
    }
    if i: nat :| Within(times, t, i) {
      assert times[0] <= times[i] <= t < times[i + 1] <= times[|times| - 1];
    }
  }

  /** Over adjacent windows every sample whose first complete snapshot falls in their union is
      in exactly one of the built datasets, and a sample is in none of them otherwise. */
  lemma SampleIsInExactlyOneWindow(times: seq<real>, maturity: real, snapshots: seq<Snapshot>,
                                   builds: seq<(seq<Snapshot>, seq<Label>)>, f: Snapshot)
    requires BuiltInTime(times, maturity, snapshots, builds) && Increasing(times) && DistinctSnapshots(snapshots)
    requires FirstEverywhere(times, maturity, snapshots, f)
    ensures (exists i: nat :: Holds(times, maturity, builds, f.sampleId, i))
            <==> times[0] <= f.availableAt + maturity < times[|times| - 1]
    ensures forall i: nat, j: nat | Holds(times, maturity, builds, f.sampleId, i) && Holds(times, maturity, builds, f.sampleId, j) :: i == j
  {
    var t := f.availableAt + maturity;
    WindowsTile(times, t);
    forall i: nat ensures Holds(times, maturity, builds, f.sampleId, i) <==> Within(times, t, i) {
      if i + 1 < |times| {
        BuildHoldsSample(times, maturity, snapshots, builds, f, i);
      }
    }
    if i: nat :| Within(times, t, i) {
      assert Holds(times, maturity, builds, f.sampleId, i);
    }
  }

  /** Without filters the first complete snapshot is the same for every window. */
  ghost predicate FirstEverywhere(times: seq<real>, maturity: real, snapshots: seq<Snapshot>, f: Snapshot) {
    forall i: nat | i + 1 < |times| :: FirstComplete(Window(times, maturity, i), snapshots, f)
  }

  ghost predicate Holds(times: seq<real>, maturity: real, builds: seq<(seq<Snapshot>, seq<Label>)>, sample: string, i: nat) {
    i < |builds| && i + 1 < |times| && HasSample(CohortRows(Window(times, maturity, i), builds[i].0, builds[i].1), sample)
  }

  lemma WindowOf(times: seq<real>, t: real) returns (i: nat)
    requires times != [] && times[0] <= t < times[|times| - 1]
    ensures i + 1 < |times| && times[i] <= t < times[i + 1]
  {
    i := 0;
    while t >= times[i + 1]
      invariant i + 1 < |times| && times[i] <= t
      decreases |times| - i
    {
      i := i + 1;
    }
  }

  /** And within a dataset a sample has one row. */
  lemma MembersHaveOneRowPerSample(c: Config, snapshots: seq<Snapshot>, labels: seq<Label>)
    requires DistinctSnapshots(snapshots) && DistinctLabels(labels)
    ensures OneRowPerSample(CohortRows(c, snapshots, labels))
  {
    UnorderedHasOneRowPerSample(c, snapshots, labels);
    SortKeepsRows(Unordered(c, snapshots, labels), RowBefore);
    PermutedRowsStayDistinct(Unordered(c, snapshots, labels), CohortRows(c, snapshots, labels));
  }

  lemma PermutedRowsStayDistinct(s: seq<CohortRow>, t: seq<CohortRow>)
    requires OneRowPerSample(s) && multiset(s) == multiset(t)
    ensures OneRowPerSample(t)
  {
    forall i, j | 0 <= i < j < |t| ensures t[i].snapshot.sampleId != t[j].snapshot.sampleId {
      SameRowsSameMembers(s, t, t[i]);
      SameRowsSameMembers(s, t, t[j]);
      RepeatedRowCounts(t, i, j);
      CountIsOne(s, t[i]);
    }
  }

  lemma RepeatedRowCounts(t: seq<CohortRow>, i: nat, j: nat)
    requires i < j < |t|
    ensures t[i] == t[j] ==> multiset(t)[t[i]] >= 2
  {
    assert t == t[..j] + [t[j]] + t[j + 1..];
    assert t[i] == t[..j][i] && t[i] in multiset(t[..j]);
  }
}
