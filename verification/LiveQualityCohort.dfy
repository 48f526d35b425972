/** The decisions a live-quality evaluation looks at: the first decision of every case, chosen by
    an anti-join, when it fell in the monitoring window. */
module LiveQualityCohort {
  import opened Common
  import opened Sequences
  import opened Tables
  import LabelSelection
  import TrainingCohort

  /** A row of `prediction_logs`. */
  datatype Decision = Decision(
    id: string, sampleId: string, snapshotId: string, version: int, modelRunId: string, threshold: real, predictedAt: real)

  /** One model and threshold on one snapshot of one sample. */
  predicate SameCase(a: Decision, b: Decision) {
    && a.modelRunId == b.modelRunId && a.threshold == b.threshold && a.sampleId == b.sampleId
    && a.snapshotId == b.snapshotId && a.version == b.version
  }

  predicate DecidedBefore(a: Decision, b: Decision) {
    a.predictedAt < b.predictedAt || (a.predictedAt == b.predictedAt && TextBefore(a.id, b.id))
  }

  /** The WHERE of the cohort, with its NOT EXISTS. */
  function IsChosen(start: real, end: real, model: Option<string>, decisions: seq<Decision>): Decision -> bool {
    (d: Decision) =>
      && start <= d.predictedAt < end && (model.Some? ==> d.modelRunId == model.value)
      && !exists earlier :: earlier in decisions && SameCase(earlier, d) && DecidedBefore(earlier, d)
  }

  function Cohort(start: real, end: real, model: Option<string>, decisions: seq<Decision>): seq<Decision> {
    Filter(decisions, IsChosen(start, end, model, decisions))
  }

  /** The anti-join is the row number: it keeps what ROW_NUMBER() = 1 would keep. */
  lemma AntiJoinIsFirstRow(start: real, end: real, model: Option<string>, decisions: seq<Decision>, d: Decision)
    ensures d in Cohort(start, end, model, decisions) <==>
              && d in decisions && start <= d.predictedAt < end && (model.Some? ==> d.modelRunId == model.value)
              && RowNumber(decisions, SameCase, DecidedBefore, d) == 1
  {
    FilterMember(decisions, IsChosen(start, end, model, decisions), d);
    RowNumberOne(decisions, SameCase, DecidedBefore, d);
  }

  /** `x` is not before `d`: by time, then by prediction id. */
  predicate AsEarlyAs(d: Decision, x: Decision) {
    d.predictedAt < x.predictedAt || (d.predictedAt == x.predictedAt && (d.id == x.id || TextBefore(d.id, x.id)))
  }

  lemma AsEarlyAsIsNotLater(d: Decision, x: Decision)
    ensures AsEarlyAs(d, x) <==> !DecidedBefore(x, d)
  {
    LabelSelection.TextIsOrdered();
  }

  /** In columns: of the decisions of one model run and threshold on one snapshot, only the one
      that was logged first is kept. */
  lemma CohortMeans(start: real, end: real, model: Option<string>, decisions: seq<Decision>, d: Decision)
    ensures d in Cohort(start, end, model, decisions)
            <==> && d in decisions && start <= d.predictedAt < end && (model == None || model == Some(d.modelRunId))
                 && forall x | x in decisions && x.modelRunId == d.modelRunId && x.threshold == d.threshold && x.sampleId == d.sampleId
                               && x.snapshotId == d.snapshotId && x.version == d.version :: AsEarlyAs(d, x)
  {
    FilterMember(decisions, IsChosen(start, end, model, decisions), d);
    forall x | x in decisions && SameCase(x, d) ensures AsEarlyAs(d, x) <==> !DecidedBefore(x, d) { AsEarlyAsIsNotLater(d, x); }
  }

  /** Decisions logged after the window change nothing. */
  lemma CohortIgnoresLate(start: real, end: real, model: Option<string>, decisions: seq<Decision>, late: seq<Decision>)
    requires forall d | d in late :: d.predictedAt >= end
    ensures Cohort(start, end, model, decisions + late) == Cohort(start, end, model, decisions)
  {
    var chosen, again := IsChosen(start, end, model, decisions), IsChosen(start, end, model, decisions + late);
    FilterAppend(decisions, late, again);
    FilterNone(late, again);
    forall d: Decision ensures again(d) == chosen(d) {
      assert forall x :: x in decisions + late <==> x in decisions || x in late;
    }
    FilterSame(decisions, again, chosen);
  }

  ghost predicate DistinctDecisions(decisions: seq<Decision>) {
    forall i, j | 0 <= i < j < |decisions| :: decisions[i].id != decisions[j].id
  }

  lemma DecisionsAreOrdered(decisions: seq<Decision>)
    requires DistinctDecisions(decisions)
    ensures StrictOrder(DecidedBefore) && Equivalence(SameCase) && Decides(DecidedBefore, decisions)
  {
    LabelSelection.TextIsOrdered();
    forall a, b | a in decisions && b in decisions ensures a == b || DecidedBefore(a, b) || DecidedBefore(b, a) {
    }
  }

  /** A window holds a decision of a case exactly when the case was first decided in it, and then
      that first decision, once. */
  lemma WindowHoldsFirstDecision(start: real, end: real, decisions: seq<Decision>, f: Decision, d: Decision)
    requires DistinctDecisions(decisions) && f in decisions && SameCase(d, f)
    requires RowNumber(decisions, SameCase, DecidedBefore, f) == 1
    ensures d in Cohort(start, end, None, decisions) <==> d == f && start <= f.predictedAt < end
    ensures NoDuplicates(Cohort(start, end, None, decisions))
  {
    DecisionsAreOrdered(decisions);
    AntiJoinIsFirstRow(start, end, None, decisions, d);
    FilterNoDuplicates(decisions, IsChosen(start, end, None, decisions));
    if d in Cohort(start, end, None, decisions) {
      FirstRowIsUnique(decisions, SameCase, DecidedBefore, d, f);
    }
  }

  /** The table as each evaluation found it; what was logged later was decided after its window. */
  ghost predicate ReadInTime(times: seq<real>, decisions: seq<Decision>, tables: seq<seq<Decision>>) {
    && |tables| + 1 == |times|
    && forall i | 0 <= i < |tables| ::
         tables[i] <= decisions && forall d | d in decisions[|tables[i]|..] :: d.predictedAt >= times[i + 1]
  }

  /** Evaluation `i` looks at a decision of the case of `f`. */
  ghost predicate Evaluates(times: seq<real>, tables: seq<seq<Decision>>, f: Decision, i: nat) {
    i < |tables| && i + 1 < |times| && exists d :: SameCase(d, f) && d in Cohort(times[i], times[i + 1], None, tables[i])
  }

  /** Over adjacent windows, each evaluated on the table of its own time, a case is evaluated in
      exactly one when it was first decided in their union, and in none otherwise: repeated
      decisions are never counted again. */
  lemma CaseIsEvaluatedOnce(times: seq<real>, decisions: seq<Decision>, tables: seq<seq<Decision>>, f: Decision)
    requires ReadInTime(times, decisions, tables) && TrainingCohort.Increasing(times)
    requires DistinctDecisions(decisions) && f in decisions && RowNumber(decisions, SameCase, DecidedBefore, f) == 1
    ensures (exists i: nat :: Evaluates(times, tables, f, i)) <==> times[0] <= f.predictedAt < times[|times| - 1]
    ensures forall i: nat, j: nat | Evaluates(times, tables, f, i) && Evaluates(times, tables, f, j) :: i == j
  {
    var t := f.predictedAt;
    TrainingCohort.WindowsTile(times, t);
    forall i: nat ensures Evaluates(times, tables, f, i) <==> TrainingCohort.Within(times, t, i) {
      EvaluatesExactlyWithin(times, decisions, tables, f, i);
    }
    if i: nat :| TrainingCohort.Within(times, t, i) {
      assert Evaluates(times, tables, f, i);
    }
  }

  lemma EvaluatesExactlyWithin(times: seq<real>, decisions: seq<Decision>, tables: seq<seq<Decision>>, f: Decision, i: nat)
    requires ReadInTime(times, decisions, tables)
    requires DistinctDecisions(decisions) && f in decisions && RowNumber(decisions, SameCase, DecidedBefore, f) == 1
    ensures Evaluates(times, tables, f, i) <==> TrainingCohort.Within(times, f.predictedAt, i)
  {
    if i < |tables| {
      var cohort, late := Cohort(times[i], times[i + 1], None, tables[i]), decisions[|tables[i]|..];
      assert tables[i] + late == decisions;
      CohortIgnoresLate(times[i], times[i + 1], None, tables[i], late);
      WindowHoldsFirstDecision(times[i], times[i + 1], decisions, f, f);
      if f in cohort {
        assert SameCase(f, f);
      }
      if d :| SameCase(d, f) && d in cohort {
        WindowHoldsFirstDecision(times[i], times[i + 1], decisions, f, d);
      }
    }
  }
}
