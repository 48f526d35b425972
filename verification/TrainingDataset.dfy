/** A training dataset from its members to the artifact, and from the artifact back: what the
    builder writes, what the loader checks, and that the two fit. */
module TrainingDataset {
  import opened Common
  import Cohort = TrainingCohort
  import LabelSelection

  type RawValue = Cohort.RawValue

  const NUM_FEATURES := 590
  const DATASET_TYPE := "training"
  const SCHEMA_VERSION := "training_source_dataset.v1"
  const SELECTOR_VERSION := "sample_first_complete_point_in_time.v1"
  const ARTIFACT_PATH := "data/dataset.parquet"
  const HASH_PREFIX := "sha256:v1:"

  // ----------------------------------------------------------------- members

  /** The label columns of a row; each may be NULL. */
  datatype LabelColumns = LabelColumns(
    eventId: Option<string>, revision: Option<int>, measuredAt: Option<real>, availableAt: Option<real>,
    value: Option<int>, name: Option<string>)

  /** `DatasetMember`; the features are only there when they were asked for. */
  datatype Member = Member(
    sampleId: string, snapshotId: string, version: int, featureHash: string, snapshotTime: real, snapshotAvailableAt: real,
    windowStart: real, windowEnd: real, featureCount: int, missingCount: int,
    simulationRunId: Option<string>, driftSegment: Option<string>, actual: LabelColumns, features: Option<map<string, RawValue>>)

  datatype BuildError =
    | PartialLabel | MissingLabel | UnexpectedLabel | LabelMismatch
    | NoFeatures | WrongFeatureCount | UnexpectedKeys | MissingKeys | NotNumericFeature | MissingCountMismatch

  predicate AllPresent(c: LabelColumns) {
    c.revision.Some? && c.measuredAt.Some? && c.availableAt.Some? && c.value.Some? && c.name.Some?
  }

  predicate AllAbsent(c: LabelColumns) {
    c.revision.None? && c.measuredAt.None? && c.availableAt.None? && c.value.None? && c.name.None?
  }

  function NameOf(value: int): string {
    if value == 1 then "fail" else "pass"
  }

  /** The label checks of `member_from_row`. */
  function CheckLabel(c: LabelColumns): Option<BuildError> {
    if c.eventId.None? then if AllAbsent(c) then None else Some(PartialLabel)
    else if !AllPresent(c) then Some(MissingLabel)
    else if c.value.value != -1 && c.value.value != 1 then Some(UnexpectedLabel)
    else if c.name.value != NameOf(c.value.value) then Some(LabelMismatch)
    else None
  }

  /** All label columns or none, and then a value with its name. */
  predicate WellLabelled(c: LabelColumns) {
    if c.eventId.None? then
      c.revision.None? && c.measuredAt.None? && c.availableAt.None? && c.value.None? && c.name.None?
    else
      && c.revision.Some? && c.measuredAt.Some? && c.availableAt.Some?
      && ((c.value == Some(1) && c.name == Some("fail")) || (c.value == Some(-1) && c.name == Some("pass")))
  }

  lemma CheckLabelAcceptsExactly(c: LabelColumns)
    ensures CheckLabel(c).None? <==> WellLabelled(c)
  {
  }

  /** The label columns of a row of the cohort query; a LEFT JOIN without a match leaves NULLs. */
  function ColumnsOf(actual: Option<LabelSelection.Label>): LabelColumns {
    match actual
    case None => LabelColumns(None, None, None, None, None, None)
    case Some(l) => LabelColumns(Some(l.id), Some(l.revision), Some(l.measuredAt), Some(l.availableAt), Some(l.value), Some(l.name))
  }

  /** `member_from_row`, once its checks passed. */
  function MemberOf(row: Cohort.CohortRow, withFeatures: bool): Member {
    var s := row.snapshot;
    Member(s.sampleId, s.id, s.version, s.featureHash, s.snapshotTime, s.availableAt, s.windowStart, s.windowEnd,
           s.featureCount, s.missingCount, s.simulationRunId, s.driftSegment, ColumnsOf(row.actual),
           if withFeatures then Some(s.features) else None)
  }

  /** `fetch_members` over the rows of the query. */
  function FetchMembers(rows: seq<Cohort.CohortRow>, withFeatures: bool): Result<seq<Member>, BuildError> {
    if rows == [] then Ok([])
    else
      match FetchMembers(rows[..|rows| - 1], withFeatures)
      case Err(e) => Err(e)
      case Ok(members) =>
        var last := rows[|rows| - 1];
        var bad := CheckLabel(ColumnsOf(last.actual));
        if bad.Some? then Err(bad.value) else Ok(members + [MemberOf(last, withFeatures)])
  }

  /** A label as the label table and the builder want it. */
  predicate WellNamed(row: Cohort.CohortRow) {
    row.actual.Some? ==>
      || (row.actual.value.value == 1 && row.actual.value.name == "fail")
      || (row.actual.value.value == -1 && row.actual.value.name == "pass")
  }

  /** The rows are fetched exactly when their labels are well named, and then one by one. */
  lemma {:induction false} FetchesExactlyWellNamed(rows: seq<Cohort.CohortRow>, withFeatures: bool)
    ensures FetchMembers(rows, withFeatures).Ok? <==> forall k | 0 <= k < |rows| :: WellNamed(rows[k])
    ensures FetchMembers(rows, withFeatures).Ok? ==>
              var members := FetchMembers(rows, withFeatures).value;
              |members| == |rows| && forall k | 0 <= k < |rows| :: members[k] == MemberOf(rows[k], withFeatures) && CheckLabel(members[k].actual).None?
    decreases |rows|
  {
    if rows != [] { FetchesExactlyWellNamed(rows[..|rows| - 1], withFeatures); }
  }

  function Count<T>(s: seq<T>, p: T -> bool): nat {
    if s == [] then 0 else Count(s[..|s| - 1], p) + if p(s[|s| - 1]) then 1 else 0
  }

  ghost function Where<T>(s: seq<T>, p: T -> bool): set<nat> {
    set k | 0 <= k < |s| && p(s[k])
  }

  /** How many there are. */
  ghost function HowMany<T>(s: seq<T>, p: T -> bool): nat {
    |Where(s, p)|
  }

  lemma WhereStep<T>(s: seq<T>, p: T -> bool)
    requires s != []
    ensures HowMany(s, p) == HowMany(s[..|s| - 1], p) + if p(s[|s| - 1]) then 1 else 0
  {
    var n := |s| - 1;
    assert Where(s, p) == Where(s[..n], p) + if p(s[n]) then {n} else {};
  }

  lemma {:induction false} CountIsHowMany<T>(s: seq<T>, p: T -> bool)
    ensures Count(s, p) == HowMany(s, p)
    decreases |s|
  {
    if s == [] {
      assert Where(s, p) == {};
    } else {
      WhereStep(s, p);
      CountIsHowMany(s[..|s| - 1], p);
    }
  }

  lemma SameHowMany<S, T>(s: seq<S>, p: S -> bool, t: seq<T>, q: T -> bool)
    requires |s| == |t| && forall k | 0 <= k < |s| :: p(s[k]) == q(t[k])
    ensures HowMany(s, p) == HowMany(t, q)
  {
    assert Where(s, p) == Where(t, q);
  }

  datatype Stats = Stats(eligible: int, labelled: int, unlabelled: int, coverage: real, fails: int, passes: int)

  function IsLabelled(): Member -> bool {
    (m: Member) => m.actual.eventId.Some?
  }

  function HasValue(value: int): Member -> bool {
    (m: Member) => m.actual.eventId.Some? && m.actual.value == Some(value)
  }

  /** `summarize_members`, without the time columns. */
  function Summarize(members: seq<Member>): Stats {
    var labelled := Count(members, IsLabelled());
    Stats(|members|, labelled, |members| - labelled,
          if members == [] then 0.0 else labelled as real / |members| as real,
          Count(members, HasValue(1)), Count(members, HasValue(-1)))
  }

  datatype Minimums = Minimums(labelled: int, coverage: real, fails: int, passes: int)

  datatype Reason = TooFewLabelled | CoverageTooLow | TooFewFails | TooFewPasses

  /** `evaluate_readiness`. */
  method EvaluateReadiness(minimums: Minimums, members: seq<Member>) returns (reasons: seq<Reason>)
    ensures reasons == [] <==> Ready(minimums, members)
    ensures TooFewLabelled in reasons <==> Summarize(members).labelled < minimums.labelled
    ensures CoverageTooLow in reasons <==> Summarize(members).coverage < minimums.coverage
    ensures TooFewFails in reasons <==> Summarize(members).fails < minimums.fails
    ensures TooFewPasses in reasons <==> Summarize(members).passes < minimums.passes
  {
    var stats := Summarize(members);
    reasons := [];
    if stats.labelled < minimums.labelled {
      reasons := reasons + [TooFewLabelled];
    }
    if stats.coverage < minimums.coverage {
      reasons := reasons + [CoverageTooLow];
    }
    if stats.fails < minimums.fails {
      reasons := reasons + [TooFewFails];
    }
    if stats.passes < minimums.passes {
      reasons := reasons + [TooFewPasses];
    }
  }

  predicate Ready(minimums: Minimums, members: seq<Member>) {
    var stats := Summarize(members);
    && minimums.labelled <= stats.labelled && minimums.coverage <= stats.coverage
    && minimums.fails <= stats.fails && minimums.passes <= stats.passes
  }

  // ------------------------------------------------------------------- frame

  /** A cell of a feature column: NaN, a number or an infinity. */
  datatype Cell = Missing | Finite(number: real) | Infinite

  datatype FrameRow = FrameRow(
    datasetId: string, sampleId: string, snapshotId: string, version: int, featureHash: string,
    simulationRunId: Option<string>, driftSegment: Option<string>, snapshotTime: real, snapshotAvailableAt: real,
    windowStart: real, windowEnd: real, missingCount: int, actual: LabelColumns, features: seq<Cell>)

  /** `normalize_feature_value`: what is not finite becomes missing. */
  function Normalize(v: RawValue): Option<Cell> {
    match v
    case Null => Some(Missing)
    case Number(x) => Some(Finite(x))
    case NonFinite => Some(Missing)
    case NotNumeric => None
  }

  function NormalizeAll(features: map<string, RawValue>, keys: seq<string>): Option<seq<Cell>>
    requires forall key | key in keys :: key in features
  {
    if keys == [] then Some([])
    else
      var rest := NormalizeAll(features, keys[..|keys| - 1]);
      var last := Normalize(features[keys[|keys| - 1]]);
      if rest.None? || last.None? then None else Some(rest.value + [last.value])
  }

  function IsMissing(): Cell -> bool {
    (c: Cell) => c.Missing?
  }

  function FrameRowOf(datasetId: string, keys: seq<string>, m: Member): Result<FrameRow, BuildError> {
    if m.features.None? then Err(NoFeatures)
    else if m.featureCount != NUM_FEATURES then Err(WrongFeatureCount)
    else if exists key :: key in m.features.value && key !in keys then Err(UnexpectedKeys)
    else if exists key :: key in keys && key !in m.features.value then Err(MissingKeys)
    else
      var cells := NormalizeAll(m.features.value, keys);
      if cells.None? then Err(NotNumericFeature)
      else if Count(cells.value, IsMissing()) != m.missingCount then Err(MissingCountMismatch)
      else Ok(FrameRow(datasetId, m.sampleId, m.snapshotId, m.version, m.featureHash, m.simulationRunId, m.driftSegment,
                       m.snapshotTime, m.snapshotAvailableAt, m.windowStart, m.windowEnd, m.missingCount, m.actual, cells.value))
  }

  function FrameOf(datasetId: string, keys: seq<string>, members: seq<Member>): Result<seq<FrameRow>, BuildError> {
    if members == [] then Ok([])
    else
      match FrameOf(datasetId, keys, members[..|members| - 1])
      case Err(e) => Err(e)
      case Ok(rows) =>
        match FrameRowOf(datasetId, keys, members[|members| - 1]) {
          case Err(e) => Err(e)
          case Ok(row) => Ok(rows + [row])
        }
  }

  lemma {:induction false} FrameFailsAt(datasetId: string, keys: seq<string>, members: seq<Member>, n: nat)
    requires n < |members| && FrameOf(datasetId, keys, members[..n]).Ok? && FrameRowOf(datasetId, keys, members[n]).Err?
    ensures FrameOf(datasetId, keys, members) == Err(FrameRowOf(datasetId, keys, members[n]).error)
    decreases |members|
  {
    if n < |members| - 1 {
      var most := members[..|members| - 1];
      assert most[..n] == members[..n];
      FrameFailsAt(datasetId, keys, most, n);
    }
  }

  /** `build_dataset_frame`. */
  method BuildDatasetFrame(datasetId: string, keys: seq<string>, members: seq<Member>) returns (r: Result<seq<FrameRow>, BuildError>)
    ensures r == FrameOf(datasetId, keys, members)
  {
    var rows: seq<FrameRow> := [];
    var n := 0;
    while n < |members|
      invariant 0 <= n <= |members| && FrameOf(datasetId, keys, members[..n]) == Ok(rows)
    {
      var row := FrameRowOf(datasetId, keys, members[n]);
      if row.Err? {
        FrameFailsAt(datasetId, keys, members, n);
        return Err(row.error);
      }
      assert members[..n + 1][..n] == members[..n];
      rows := rows + [row.value];
      n := n + 1;
    }
    assert members[..n] == members;
    return Ok(rows);
  }

  /** A frame has one row per member, in order, with its columns and its missing count. */
  lemma {:induction false} FrameRowsFollowMembers(datasetId: string, keys: seq<string>, members: seq<Member>)
    requires FrameOf(datasetId, keys, members).Ok?
    ensures var rows := FrameOf(datasetId, keys, members).value;
            |rows| == |members| && forall k | 0 <= k < |members| :: FrameRowOf(datasetId, keys, members[k]) == Ok(rows[k])
    decreases |members|
  {
    if members != [] { FrameRowsFollowMembers(datasetId, keys, members[..|members| - 1]); }
  }
}
