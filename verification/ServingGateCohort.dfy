/** The serving-gate cohort: the first release decision for every sample and snapshot version,
    joined with the exact snapshot and the label known at the cutoff, and what makes a build fail. */
module ServingGateCohort {
  import opened Common
  import opened Sequences
  import opened Tables
  import opened LabelSelection
  import TrainingCohort

  type Snapshot = TrainingCohort.Snapshot

  const NUM_FEATURES := 590

  /** A row of `prediction_logs`. */
  datatype Decision = Decision(
    id: string, requestId: string, sampleId: string, snapshotId: string, version: int, featureHash: string,
    modelRunId: string, slot: string, threshold: real, predictedAt: real)

  datatype Config = Config(cohortStart: real, cutoff: real, maturity: real) {
    function CohortEnd(): real {
      cutoff - maturity
    }
  }

  datatype Row = Row(decision: Decision, conflicting: bool, stored: Option<Snapshot>, actual: Option<Label>)

  datatype GateError =
    | ConflictingIdentity | NoExactSnapshot | HashMismatch | SnapshotNotComplete | WrongFeatureCount | InvalidThreshold
    | SnapshotAfterDecision | UnexpectedLabel | LabelMismatch

  // ------------------------------------------------------------------- query

  function IsRelease(): Decision -> bool {
    (d: Decision) => d.slot == "release"
  }

  predicate SameTarget(a: Decision, b: Decision) {
    a.sampleId == b.sampleId && a.version == b.version
  }

  /** ORDER BY predicted_at, prediction_id. */
  predicate DecidedBefore(a: Decision, b: Decision) {
    a.predictedAt < b.predictedAt || (a.predictedAt == b.predictedAt && TextBefore(a.id, b.id))
  }

  function IsFirstInWindow(c: Config, ranked: seq<Decision>): Decision -> bool {
    (d: Decision) => RowNumber(ranked, SameTarget, DecidedBefore, d) == 1 && c.cohortStart <= d.predictedAt < c.CohortEnd()
  }

  function DecisionCohort(c: Config, decisions: seq<Decision>): seq<Decision> {
    Filter(Filter(decisions, IsRelease()), IsFirstInWindow(c, Filter(decisions, IsRelease())))
  }

  /** `x` decides on the same sample and version from another snapshot. */
  predicate Contradicts(x: Decision, d: Decision) {
    x.slot == "release" && SameTarget(x, d) && (x.snapshotId != d.snapshotId || x.featureHash != d.featureHash)
  }

  /** The EXISTS of the query; it looks at all decisions, not only at those of the window. */
  predicate HasConflict(decisions: seq<Decision>, d: Decision) {
    exists x :: x in decisions && Contradicts(x, d)
  }

  function IsSnapshotOf(d: Decision): Snapshot -> bool {
    (s: Snapshot) => s.id == d.snapshotId && s.sampleId == d.sampleId && s.version == d.version
  }

  function First<T>(rows: seq<T>): Option<T> {
    if rows == [] then None else Some(rows[0])
  }

  function Samples(cohort: seq<Decision>): set<string> {
    set d | d in cohort :: d.sampleId
  }

  /** Both LEFT JOINs find at most one row, as `JoinsFindOneRow` shows. */
  function RowOf(c: Config, cohort: seq<Decision>, decisions: seq<Decision>, snapshots: seq<Snapshot>, labels: seq<Label>,
                 d: Decision): Row
  {
    Row(d, HasConflict(decisions, d), First(Filter(snapshots, IsSnapshotOf(d))),
        First(Matches(c.cutoff, Samples(cohort), labels, d.sampleId)))
  }

  predicate RowBefore(a: Row, b: Row) {
    DecidedBefore(a.decision, b.decision)
  }

  function Rows(c: Config, decisions: seq<Decision>, snapshots: seq<Snapshot>, labels: seq<Label>): seq<Row> {
    var cohort := Sort(DecisionCohort(c, decisions), DecidedBefore);
    seq(|cohort|, k requires 0 <= k < |cohort| => RowOf(c, cohort, decisions, snapshots, labels, cohort[k]))
  }

  /** The checks on a row, in their order. */
  function Check(r: Row): Option<GateError> {
    if r.conflicting then Some(ConflictingIdentity)
    else if r.stored.None? then Some(NoExactSnapshot)
    else
      var s := r.stored.value;
      if s.featureHash != r.decision.featureHash then Some(HashMismatch)
      else if s.status != "complete" || !s.complete then Some(SnapshotNotComplete)
      else if s.featureCount != NUM_FEATURES then Some(WrongFeatureCount)
      else if !(0.0 <= r.decision.threshold <= 1.0) then Some(InvalidThreshold)
      else if s.availableAt > r.decision.predictedAt then Some(SnapshotAfterDecision)
      else if r.actual.Some? && r.actual.value.value != -1 && r.actual.value.value != 1 then Some(UnexpectedLabel)
      else if r.actual.Some? && r.actual.value.name != (if r.actual.value.value == 1 then "fail" else "pass") then Some(LabelMismatch)
      else None
  }

  /** The first row that fails stops the build. */
  function CheckAll(rows: seq<Row>): Result<seq<Row>, GateError> {
    if rows == [] then Ok([])
    else if Check(rows[0]).Some? then Err(Check(rows[0]).value)
    else
      match CheckAll(rows[1..])
      case Ok(rest) => Ok([rows[0]] + rest)
      case Err(e) => Err(e)
  }

  function Fetch(c: Config, decisions: seq<Decision>, snapshots: seq<Snapshot>, labels: seq<Label>): Result<seq<Row>, GateError> {
    CheckAll(Rows(c, decisions, snapshots, labels))
  }

  lemma {:induction false} CheckAllAcceptsExactly(rows: seq<Row>)
    ensures CheckAll(rows).Ok? <==> forall k | 0 <= k < |rows| :: Check(rows[k]).None?
    ensures CheckAll(rows).Ok? ==> CheckAll(rows).value == rows
  {
    if rows != [] {
      CheckAllAcceptsExactly(rows[1..]);
      assert rows == [rows[0]] + rows[1..];
    }
  }

  /** With the primary keys, a decision joins one snapshot at most and one label at most. */
  lemma JoinsFindOneRow(cutoff: real, samples: set<string>, snapshots: seq<Snapshot>, labels: seq<Label>, d: Decision)
    requires TrainingCohort.DistinctSnapshots(snapshots) && DistinctLabels(labels) && d.sampleId in samples
    ensures |Filter(snapshots, IsSnapshotOf(d))| <= 1 && |Matches(cutoff, samples, labels, d.sampleId)| <= 1
  {
    MatchesOneLabel(cutoff, samples, labels, d.sampleId);
    var found := Filter(snapshots, IsSnapshotOf(d));
    FilterNoDuplicates(snapshots, IsSnapshotOf(d));
    if |found| > 1 {
      assert found[0] in found && found[1] in found;
      FilterMember(snapshots, IsSnapshotOf(d), found[0]);
      FilterMember(snapshots, IsSnapshotOf(d), found[1]);
    }
  }

  // ------------------------------------------------------------------ rebuild

  /** Decisions that come after the cohort end, or on another slot, do not change which
      decisions are in the cohort. */
  lemma RankIgnoresLate(c: Config, decisions: seq<Decision>, late: seq<Decision>, d: Decision)
    requires d.predictedAt < c.CohortEnd()
    requires forall x | x in late && x.slot == "release" :: x.predictedAt >= c.CohortEnd()
    ensures RowNumber(Filter(decisions + late, IsRelease()), SameTarget, DecidedBefore, d)
         == RowNumber(Filter(decisions, IsRelease()), SameTarget, DecidedBefore, d)
  {
    var prior := Preceding(SameTarget, DecidedBefore, d);
    FilterAppend(decisions, late, IsRelease());
    FilterAppend(Filter(decisions, IsRelease()), Filter(late, IsRelease()), prior);
    forall x | x in Filter(late, IsRelease()) ensures !prior(x) {
      FilterMember(late, IsRelease(), x);
      assert prior(x) == (SameTarget(x, d) && DecidedBefore(x, d));
    }
    FilterNone(Filter(late, IsRelease()), prior);
  }

  lemma CohortIgnoresLate(c: Config, decisions: seq<Decision>, late: seq<Decision>)
    requires forall x | x in late && x.slot == "release" :: x.predictedAt >= c.CohortEnd()
    ensures DecisionCohort(c, decisions + late) == DecisionCohort(c, decisions)
  {
    var all, ranked, tail := Filter(decisions + late, IsRelease()), Filter(decisions, IsRelease()), Filter(late, IsRelease());
    FilterAppend(decisions, late, IsRelease());
    FilterAppend(ranked, tail, IsFirstInWindow(c, all));
    forall x | x in tail ensures !IsFirstInWindow(c, all)(x) { FilterMember(late, IsRelease(), x); }
    FilterNone(tail, IsFirstInWindow(c, all));
    forall x: Decision | x.predictedAt < c.CohortEnd() ensures IsFirstInWindow(c, all)(x) == IsFirstInWindow(c, ranked)(x) {
      RankIgnoresLate(c, decisions, late, x);
    }
    FilterSame(ranked, IsFirstInWindow(c, all), IsFirstInWindow(c, ranked));
  }

  /** What the tables gain between two builds: decisions after the cohort end or on another
      slot, any snapshots, labels after the cutoff. */
  ghost predicate OnlyLater(c: Config, decisions: seq<Decision>, labels: seq<Label>) {
    && (forall x | x in decisions && x.slot == "release" :: x.predictedAt >= c.cutoff - c.maturity)
    && (forall l | l in labels :: l.availableAt > c.cutoff)
  }

  /** Every release decision on the sample and version used this snapshot. */
  ghost predicate Undisputed(decisions: seq<Decision>, d: Decision) {
    forall x | x in decisions && x.slot == "release" && x.sampleId == d.sampleId && x.version == d.version ::
      x.snapshotId == d.snapshotId && x.featureHash == d.featureHash
  }

  lemma ConflictMeans(decisions: seq<Decision>, d: Decision)
    ensures HasConflict(decisions, d) <==> !Undisputed(decisions, d)
  {
    forall x | x in decisions && x.slot == "release" && SameTarget(x, d)
      ensures Contradicts(x, d) <==> x.snapshotId != d.snapshotId || x.featureHash != d.featureHash
    {
    }
  }

  /** No later release decision on a member's sample and version used another snapshot. */
  ghost predicate Agree(rows: seq<Row>, decisions: seq<Decision>) {
    forall k | 0 <= k < |rows| :: Undisputed(decisions, rows[k].decision)
  }

  /** Later tables change a row of the query only in its conflict flag and by a snapshot it lacked. */
  lemma RowChanges(c: Config, cohort: seq<Decision>, decisions: seq<Decision>, snapshots: seq<Snapshot>, labels: seq<Label>,
                   late: seq<Decision>, lateSnapshots: seq<Snapshot>, lateLabels: seq<Label>, d: Decision)
    requires OnlyLater(c, late, lateLabels)
    ensures var r := RowOf(c, cohort, decisions, snapshots, labels, d);
            var r' := RowOf(c, cohort, decisions + late, snapshots + lateSnapshots, labels + lateLabels, d);
            && r'.decision == r.decision && r'.actual == r.actual && r'.conflicting == (r.conflicting || HasConflict(late, d))
            && (r.stored.Some? ==> r'.stored == r.stored)
  {
    LateLabelsAddNothing(c.cutoff, Samples(cohort), labels, lateLabels);
    FilterAppend(snapshots, lateSnapshots, IsSnapshotOf(d));
    ConflictsAdd(decisions, late, d);
  }

  lemma LateLabelsAddNothing(cutoff: real, samples: set<string>, labels: seq<Label>, late: seq<Label>)
    requires forall l | l in late :: l.availableAt > cutoff
    ensures LabelsAtCutoff(cutoff, samples, labels + late) == LabelsAtCutoff(cutoff, samples, labels)
  {
    LabelsIgnoreLater(cutoff, samples, labels);
    LabelsIgnoreLater(cutoff, samples, labels + late);
    FilterAppend(labels, late, IsKnown(cutoff));
    FilterNone(late, IsKnown(cutoff));
    assert LabelsBy(cutoff, labels + late) == LabelsBy(cutoff, labels);
  }

  lemma ConflictsAdd(decisions: seq<Decision>, late: seq<Decision>, d: Decision)
    ensures HasConflict(decisions + late, d) == (HasConflict(decisions, d) || HasConflict(late, d))
  {
    assert forall x :: x in decisions + late <==> x in decisions || x in late;
  }

  /** A rebuild of a dataset that could be built gives the same members exactly when no later
      release decision contradicts one of them; otherwise it fails. */
  lemma RebuildIsStableExactlyWhen(c: Config, decisions: seq<Decision>, snapshots: seq<Snapshot>, labels: seq<Label>,
                                   late: seq<Decision>, lateSnapshots: seq<Snapshot>, lateLabels: seq<Label>)
    requires Fetch(c, decisions, snapshots, labels).Ok? && OnlyLater(c, late, lateLabels)
    ensures var rows := Fetch(c, decisions, snapshots, labels).value;
            var again := Fetch(c, decisions + late, snapshots + lateSnapshots, labels + lateLabels);
            && (Agree(rows, late) ==> again == Ok(rows))
            && (!Agree(rows, late) ==> again.Err?)
  {
    var rows, rows' := Rows(c, decisions, snapshots, labels), Rows(c, decisions + late, snapshots + lateSnapshots, labels + lateLabels);
    CheckAllAcceptsExactly(rows);
    CheckAllAcceptsExactly(rows');
    CohortIgnoresLate(c, decisions, late);
    var cohort := Sort(DecisionCohort(c, decisions), DecidedBefore);
    assert |rows'| == |rows|;
    forall k | 0 <= k < |rows|
      ensures Check(rows'[k]).None? <==> Undisputed(late, rows[k].decision)
      ensures Undisputed(late, rows[k].decision) ==> rows'[k] == rows[k]
    {
      ConflictMeans(late, rows[k].decision);
      assert Check(rows[k]).None?;
      RowChanges(c, cohort, decisions, snapshots, labels, late, lateSnapshots, lateLabels, cohort[k]);
    }
    if Agree(rows, late) {
      assert rows' == rows;
    }
  }

  // --------------------------------------------------------------- accepted rows

  /** Decisions have unique ids. */
  ghost predicate DistinctDecisions(decisions: seq<Decision>) {
    forall i, j | 0 <= i < j < |decisions| :: decisions[i].id != decisions[j].id
  }

  /** `d` is the first release decision on its sample and version, and fell in the window. */
  ghost predicate FirstDecision(c: Config, decisions: seq<Decision>, d: Decision) {
    && d in decisions && d.slot == "release" && c.cohortStart <= d.predictedAt < c.cutoff - c.maturity
    && forall x | x in decisions && x.slot == "release" && x.sampleId == d.sampleId && x.version == d.version :: AsEarlyAs(d, x)
  }

  /** `x` is not before `d`: by time, then by prediction id. */
  predicate AsEarlyAs(d: Decision, x: Decision) {
    d.predictedAt < x.predictedAt || (d.predictedAt == x.predictedAt && (d.id == x.id || TextBefore(d.id, x.id)))
  }

  lemma AsEarlyAsIsNotLater(d: Decision, x: Decision)
    ensures AsEarlyAs(d, x) <==> !DecidedBefore(x, d)
  {
    TextIsOrdered();
  }

  /** `s` is the snapshot that was decided on: complete, and available by then. */
  predicate DecidedOn(d: Decision, s: Snapshot) {
    && s.id == d.snapshotId && s.sampleId == d.sampleId && s.version == d.version && s.featureHash == d.featureHash
    && s.status == "complete" && s.complete && s.featureCount == 590 && s.availableAt <= d.predictedAt
  }

  predicate WellNamed(actual: Option<Label>) {
    actual.Some? ==>
      || (actual.value.value == 1 && actual.value.name == "fail")
      || (actual.value.value == -1 && actual.value.name == "pass")
  }

  /** What a member of a dataset that could be built is. */
  ghost predicate IsMember(c: Config, decisions: seq<Decision>, snapshots: seq<Snapshot>, labels: seq<Label>, r: Row) {
    && FirstDecision(c, decisions, r.decision) && Undisputed(decisions, r.decision) && !r.conflicting
    && r.stored.Some? && r.stored.value in snapshots && DecidedOn(r.decision, r.stored.value)
    && 0.0 <= r.decision.threshold <= 1.0
    && RightLabel(c.cutoff, labels, r.decision.sampleId, r.actual) && WellNamed(r.actual)
  }

  /** The tables have all a build needs of a decision. */
  ghost predicate Usable(c: Config, decisions: seq<Decision>, snapshots: seq<Snapshot>, labels: seq<Label>, d: Decision) {
    && Undisputed(decisions, d)
    && (exists s :: s in snapshots && DecidedOn(d, s))
    && 0.0 <= d.threshold <= 1.0
    && forall l: Label | l.sampleId == d.sampleId && NewestKnown(c.cutoff, labels, l) :: WellNamed(Some(l))
  }

  lemma InDecisionCohort(c: Config, decisions: seq<Decision>, d: Decision)
    ensures d in DecisionCohort(c, decisions) <==> FirstDecision(c, decisions, d)
  {
    var ranked := Filter(decisions, IsRelease());
    FilterMember(ranked, IsFirstInWindow(c, ranked), d);
    RowNumberOne(ranked, SameTarget, DecidedBefore, d);
    forall x ensures AsEarlyAs(d, x) <==> !DecidedBefore(x, d) { AsEarlyAsIsNotLater(d, x); }
    forall x ensures x in ranked <==> x in decisions && x.slot == "release" { FilterMember(decisions, IsRelease(), x); }
  }

  lemma InSortedCohort(c: Config, decisions: seq<Decision>, d: Decision)
    ensures d in Sort(DecisionCohort(c, decisions), DecidedBefore) <==> FirstDecision(c, decisions, d)
  {
    SortKeepsRows(DecisionCohort(c, decisions), DecidedBefore);
    SameRowsSameMembers(Sort(DecisionCohort(c, decisions), DecidedBefore), DecisionCohort(c, decisions), d);
    InDecisionCohort(c, decisions, d);
  }

  /** What the joins find for a decision. */
  lemma JoinedSnapshot(snapshots: seq<Snapshot>, d: Decision, s: Snapshot)
    requires TrainingCohort.DistinctSnapshots(snapshots)
    ensures First(Filter(snapshots, IsSnapshotOf(d))) == Some(s)
            <==> s in snapshots && s.id == d.snapshotId && s.sampleId == d.sampleId && s.version == d.version
  {
    var found := Filter(snapshots, IsSnapshotOf(d));
    FilterMember(snapshots, IsSnapshotOf(d), s);
    if found != [] {
      assert found[0] in found;
      FilterMember(snapshots, IsSnapshotOf(d), found[0]);
    }
  }

  /** A row of the query whose checks pass is the member of its decision, and no other is. */
  lemma CheckedRowIsMember(c: Config, decisions: seq<Decision>, snapshots: seq<Snapshot>, labels: seq<Label>,
                           cohort: seq<Decision>, r: Row)
    requires TrainingCohort.DistinctSnapshots(snapshots) && DistinctLabels(labels)
    requires FirstDecision(c, decisions, r.decision) && r.decision in cohort
    ensures IsMember(c, decisions, snapshots, labels, r)
            <==> r == RowOf(c, cohort, decisions, snapshots, labels, r.decision) && Check(r).None?
  {
    var d := r.decision;
    var q := RowOf(c, cohort, decisions, snapshots, labels, d);
    ConflictMeans(decisions, d);
    MatchesOneLabel(c.cutoff, Samples(cohort), labels, d.sampleId);
    if r.stored.Some? { JoinedSnapshot(snapshots, d, r.stored.value); }
    if RightLabel(c.cutoff, labels, d.sampleId, r.actual) {
      RightLabelIsUnique(c.cutoff, labels, d.sampleId, r.actual, q.actual);
    }
  }

  lemma RowChecksExactlyWhenUsable(c: Config, decisions: seq<Decision>, snapshots: seq<Snapshot>, labels: seq<Label>,
                                   cohort: seq<Decision>, d: Decision)
    requires TrainingCohort.DistinctSnapshots(snapshots) && DistinctLabels(labels)
    requires FirstDecision(c, decisions, d) && d in cohort
    ensures Check(RowOf(c, cohort, decisions, snapshots, labels, d)).None? <==> Usable(c, decisions, snapshots, labels, d)
  {
    var q := RowOf(c, cohort, decisions, snapshots, labels, d);
    ConflictMeans(decisions, d);
    MatchesOneLabel(c.cutoff, Samples(cohort), labels, d.sampleId);
    forall s ensures q.stored == Some(s) <==> s in snapshots && s.id == d.snapshotId && s.sampleId == d.sampleId && s.version == d.version {
      JoinedSnapshot(snapshots, d, s);
    }
    forall l: Label | l.sampleId == d.sampleId && NewestKnown(c.cutoff, labels, l) ensures q.actual == Some(l) {
      RightLabelIsUnique(c.cutoff, labels, d.sampleId, q.actual, Some(l));
    }
  }

  /** The members can be fetched exactly when every first release decision in the window is
      usable: undisputed, on a complete snapshot there is and was, with a proper threshold and
      label. Then every one of them is a member. */
  lemma FetchesExactlyWhenUsable(c: Config, decisions: seq<Decision>, snapshots: seq<Snapshot>, labels: seq<Label>)
    requires TrainingCohort.DistinctSnapshots(snapshots) && DistinctLabels(labels)
    ensures Fetch(c, decisions, snapshots, labels).Ok?
            <==> forall d | FirstDecision(c, decisions, d) :: Usable(c, decisions, snapshots, labels, d)
    ensures Fetch(c, decisions, snapshots, labels).Ok? ==>
              forall d | FirstDecision(c, decisions, d) ::
                exists r :: r in Fetch(c, decisions, snapshots, labels).value && r.decision == d
  {
    var rows, cohort := Rows(c, decisions, snapshots, labels), Sort(DecisionCohort(c, decisions), DecidedBefore);
    CheckAllAcceptsExactly(rows);
    forall k | 0 <= k < |rows| ensures Check(rows[k]).None? <==> Usable(c, decisions, snapshots, labels, cohort[k]) {
      InSortedCohort(c, decisions, cohort[k]);
      RowChecksExactlyWhenUsable(c, decisions, snapshots, labels, cohort, cohort[k]);
    }
    forall d | FirstDecision(c, decisions, d) ensures exists k :: 0 <= k < |rows| && cohort[k] == d && rows[k].decision == d && rows[k] in rows {
      InSortedCohort(c, decisions, d);
      var k :| 0 <= k < |cohort| && cohort[k] == d;
      assert rows[k] in rows;
    }
    forall k | 0 <= k < |rows| ensures FirstDecision(c, decisions, cohort[k]) { InSortedCohort(c, decisions, cohort[k]); }
  }

  /** The rows of a dataset that could be built are exactly the members: decided first, on a
      complete snapshot that was available by then and that every other release decision on the
      sample and version used too, with the newest label known at the cutoff. */
  lemma AcceptedRowsAreMembers(c: Config, decisions: seq<Decision>, snapshots: seq<Snapshot>, labels: seq<Label>, r: Row)
    requires TrainingCohort.DistinctSnapshots(snapshots) && DistinctLabels(labels)
    requires Fetch(c, decisions, snapshots, labels).Ok?
    ensures r in Fetch(c, decisions, snapshots, labels).value <==> IsMember(c, decisions, snapshots, labels, r)
  {
    var rows, cohort := Rows(c, decisions, snapshots, labels), Sort(DecisionCohort(c, decisions), DecidedBefore);
    CheckAllAcceptsExactly(rows);
    InSortedCohort(c, decisions, r.decision);
    if r.decision in cohort {
      CheckedRowIsMember(c, decisions, snapshots, labels, cohort, r);
      var k :| 0 <= k < |cohort| && cohort[k] == r.decision;
      assert rows[k] in rows;
    }
    if r in rows {
      var k :| 0 <= k < |rows| && rows[k] == r;
      assert cohort[k] in cohort && r.decision == cohort[k];
    }
  }

  /** The members come in the order of their decisions, each once. */
  lemma MembersAreInOrder(c: Config, decisions: seq<Decision>, snapshots: seq<Snapshot>, labels: seq<Label>, i: nat, j: nat)
    requires DistinctDecisions(decisions) && Fetch(c, decisions, snapshots, labels).Ok?
    requires i < j < |Fetch(c, decisions, snapshots, labels).value|
    ensures var rows := Fetch(c, decisions, snapshots, labels).value;
            var d, x := rows[i].decision, rows[j].decision;
            && (d.predictedAt < x.predictedAt || (d.predictedAt == x.predictedAt && TextBefore(d.id, x.id)))
            && !(d.sampleId == x.sampleId && d.version == x.version)
  {
    var first := DecisionCohort(c, decisions);
    var cohort := Sort(first, DecidedBefore);
    CheckAllAcceptsExactly(Rows(c, decisions, snapshots, labels));
    CohortIsOrdered(c, decisions);
    SortSorts(first, DecidedBefore);
    SortKeepsRows(first, DecidedBefore);
    SortedDiffer(first, cohort, i, j);
    forall k | k == i || k == j ensures FirstDecision(c, decisions, cohort[k]) && cohort[k] in first {
      InSortedCohort(c, decisions, cohort[k]);
      InDecisionCohort(c, decisions, cohort[k]);
    }
  }

  lemma CohortIsOrdered(c: Config, decisions: seq<Decision>)
    requires DistinctDecisions(decisions)
    ensures StrictOrder(DecidedBefore) && Decides(DecidedBefore, DecisionCohort(c, decisions)) && NoDuplicates(DecisionCohort(c, decisions))
  {
    var ranked := Filter(decisions, IsRelease());
    DecidedBeforeIsOrder();
    ReleaseDecisionsAreOrdered(decisions);
    FilterNoDuplicates(decisions, IsRelease());
    FilterNoDuplicates(ranked, IsFirstInWindow(c, ranked));
    forall d | d in DecisionCohort(c, decisions) ensures d in ranked { FilterMember(ranked, IsFirstInWindow(c, ranked), d); }
  }

  lemma SortedDiffer(s: seq<Decision>, t: seq<Decision>, i: nat, j: nat)
    requires NoDuplicates(s) && multiset(s) == multiset(t) && i < j < |t|
    ensures t[i] != t[j]
  {
    if t[i] == t[j] {
      assert t == t[..j] + [t[j]] + t[j + 1..];
      assert t[..j][i] == t[j];
      assert multiset(t)[t[j]] >= 2;
      OccursOnce(s, t[j]);
    }
  }

  lemma {:induction false} OccursOnce(s: seq<Decision>, d: Decision)
    requires NoDuplicates(s)
    ensures multiset(s)[d] <= 1
  {
    if s != [] {
      assert s == [s[0]] + s[1..];
      OccursOnce(s[1..], d);
      assert s[0] !in s[1..];
    }
  }

  lemma DecidedBeforeIsOrder()
    ensures StrictOrder(DecidedBefore) && Equivalence(SameTarget)
  {
    TextIsOrdered();
  }

  /** Every sample and version with a first release decision in the window has exactly one
      row: that of this decision. */
  lemma EveryTargetHasOneRow(c: Config, decisions: seq<Decision>, d: Decision, x: Decision)
    requires DistinctDecisions(decisions) && d in decisions && d.slot == "release" && x.sampleId == d.sampleId && x.version == d.version
    requires forall y | y in decisions && y.slot == "release" && y.sampleId == d.sampleId && y.version == d.version :: AsEarlyAs(d, y)
    ensures x in DecisionCohort(c, decisions) <==> x == d && c.cohortStart <= d.predictedAt < c.cutoff - c.maturity
    ensures NoDuplicates(DecisionCohort(c, decisions))
  {
    var ranked := Filter(decisions, IsRelease());
    DecidedBeforeIsOrder();
    forall y ensures AsEarlyAs(d, y) <==> !DecidedBefore(y, d) { AsEarlyAsIsNotLater(d, y); }
    FilterNoDuplicates(decisions, IsRelease());
    FilterNoDuplicates(ranked, IsFirstInWindow(c, ranked));
    forall y ensures y in ranked <==> y in decisions && y.slot == "release" { FilterMember(decisions, IsRelease(), y); }
    FilterMember(ranked, IsFirstInWindow(c, ranked), x);
    RowNumberOne(ranked, SameTarget, DecidedBefore, d);
    if x in DecisionCohort(c, decisions) {
      ReleaseDecisionsAreOrdered(decisions);
      FirstRowIsUnique(ranked, SameTarget, DecidedBefore, d, x);
    }
  }

  lemma ReleaseDecisionsAreOrdered(decisions: seq<Decision>)
    requires DistinctDecisions(decisions)
    ensures Decides(DecidedBefore, Filter(decisions, IsRelease()))
  {
    TextIsOrdered();
    forall a, b | a in Filter(decisions, IsRelease()) && b in Filter(decisions, IsRelease())
      ensures a == b || DecidedBefore(a, b) || DecidedBefore(b, a)
    {
      FilterMember(decisions, IsRelease(), a);
      FilterMember(decisions, IsRelease(), b);
    }
  }
}
