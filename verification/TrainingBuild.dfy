/** A training build from the tables to the persisted dataset and back: what
    `build_training_dataset` makes of the cohort query, and what the loader reads of it. */
module TrainingBuild {
  import opened Common
  import opened TrainingDataset
  import opened TrainingArtifact
  import Cohort = TrainingCohort
  import LabelSelection
  import opened Tables

  type Snapshots = seq<Cohort.Snapshot>
  type Labels = seq<LabelSelection.Label>

  /** `DatasetBuildConfig.validate`. */
  predicate ValidConfig(c: Config, minimums: Minimums) {
    && c.cohortStart >= 0.0 && c.cutoff >= 0.0 && c.maturity >= 0.0 && c.CohortEnd() >= c.cohortStart
    && minimums.labelled >= 1 && 0.0 <= minimums.coverage <= 1.0 && minimums.fails >= 1 && minimums.passes >= 1
  }

  /** How a build ends: refused before it claimed anything, skipped, failed after its claim, or
      persisted. */
  datatype Outcome =
    | BadConfig
    | BadRow(error: BuildError)
    | Skipped
    | Failed(error: BuildError, catalog: Catalog)
    | Persisted(catalog: Catalog, artifacts: Downloaded)

  /** `build_training_dataset` on one state of the tables; `prior` is the catalog row that has
      the manifest hash, `runId` and `uri` are what the tracking server gives. */
  function Build(digests: Digests, keys: seq<string>, columns: seq<string>, minimums: Minimums, c: Config,
                 snapshots: Snapshots, labels: Labels, prior: Option<Catalog>, runId: string, uri: string): Outcome
  {
    if !ValidConfig(c, minimums) then BadConfig
    else BuildFrom(digests, keys, columns, minimums, c, Cohort.CohortRows(c, snapshots, labels), prior, runId, uri)
  }

  /** The same from the rows of the query on. */
  function BuildFrom(digests: Digests, keys: seq<string>, columns: seq<string>, minimums: Minimums, c: Config,
                     rows: seq<Cohort.CohortRow>, prior: Option<Catalog>, runId: string, uri: string): Outcome
  {
    match FetchMembers(rows, false)
    case Err(e) => BadRow(e)
    case Ok(metadata) =>
      if !Ready(minimums, metadata) || (prior.Some? && prior.value.status == IsReady) then Skipped
      else
        match FetchMembers(rows, true) {
          case Err(e) => BadRow(e)
          case Ok(members) => Persist(digests, keys, columns, c, metadata, members, prior, runId, uri)
        }
  }

  /** From the claim on: identity and statistics come from the first query, the frame from the second. */
  function Persist(digests: Digests, keys: seq<string>, columns: seq<string>, c: Config,
                   metadata: seq<Member>, members: seq<Member>, prior: Option<Catalog>, runId: string, uri: string): Outcome
  {
    var claimed := Claim(digests, c, metadata, prior);
    if claimed.None? then Skipped
    else
      var hash := ManifestHash(digests, c, metadata);
      match FrameOf(DatasetIdOf(hash), keys, members)
      case Err(e) => Failed(e, MarkFailed(claimed.value))
      case Ok(frame) =>
        Persisted(MarkReady(claimed.value, runId, uri, FileDigest(digests, columns, frame)),
                  Written(digests, columns, c, metadata, frame))
  }

  // --------------------------------------------------- the two queries agree

  lemma {:induction false} CountsAgree(a: seq<Member>, b: seq<Member>, value: int)
    requires |a| == |b| && forall k | 0 <= k < |a| :: a[k].actual == b[k].actual
    ensures Count(a, IsLabelled()) == Count(b, IsLabelled()) && Count(a, HasValue(value)) == Count(b, HasValue(value))
    decreases |a|
  {
    if a != [] { CountsAgree(a[..|a| - 1], b[..|b| - 1], value); }
  }

  /** With and without the features the query gives the same identity and statistics. */
  lemma QueriesAgree(digests: Digests, c: Config, rows: seq<Cohort.CohortRow>)
    requires FetchMembers(rows, false).Ok? && FetchMembers(rows, true).Ok?
    ensures var metadata, members := FetchMembers(rows, false).value, FetchMembers(rows, true).value;
            && IdentityRecords(metadata) == IdentityRecords(members) && IdentityOf(c, metadata) == IdentityOf(c, members)
            && Summarize(metadata) == Summarize(members)
  {
    FetchesExactlyWellNamed(rows, false);
    FetchesExactlyWellNamed(rows, true);
    var metadata, members := FetchMembers(rows, false).value, FetchMembers(rows, true).value;
    assert IdentityRecords(metadata) == IdentityRecords(members);
    CountsAgree(metadata, members, 1);
    CountsAgree(metadata, members, -1);
  }

  // ---------------------------------------------------------- what is needed

  /** A complete snapshot whose payload fits its counts. */
  predicate SoundPayload(keys: seq<string>, s: Cohort.Snapshot) {
    && s.featureCount == 590
    && (forall key | key in s.features :: key in keys) && (forall key | key in keys :: key in s.features)
    && (forall key | key in keys :: !s.features[key].NotNumeric?)
    && CountMissing(s.features, keys) == s.missingCount
  }

  /** The keys without a finite number. */
  function CountMissing(features: map<string, RawValue>, keys: seq<string>): nat {
    if keys == [] then 0
    else
      var key := keys[|keys| - 1];
      CountMissing(features, keys[..|keys| - 1]) + if key in features && (features[key].Null? || features[key].NonFinite?) then 1 else 0
  }

  lemma {:induction false} NormalizesExactlyNumbers(features: map<string, RawValue>, keys: seq<string>)
    requires forall key | key in keys :: key in features
    ensures NormalizeAll(features, keys).Some? <==> forall key | key in keys :: !features[key].NotNumeric?
    ensures NormalizeAll(features, keys).Some? ==> Count(NormalizeAll(features, keys).value, IsMissing()) == CountMissing(features, keys)
    decreases |keys|
  {
    if keys != [] {
      var most, last := keys[..|keys| - 1], keys[|keys| - 1];
      NormalizesExactlyNumbers(features, most);
      assert keys == most + [last];
      if NormalizeAll(features, keys).Some? {
        var cells := NormalizeAll(features, keys).value;
        assert cells[..|cells| - 1] == NormalizeAll(features, most).value;
      }
    }
  }

  lemma RowBuildsExactlyWhen(datasetId: string, keys: seq<string>, row: Cohort.CohortRow)
    ensures FrameRowOf(datasetId, keys, MemberOf(row, true)).Ok? <==> SoundPayload(keys, row.snapshot)
  {
    if forall key | key in keys :: key in row.snapshot.features {
      NormalizesExactlyNumbers(row.snapshot.features, keys);
    }
  }

  lemma {:induction false} FrameBuildsExactlyWhen(datasetId: string, keys: seq<string>, rows: seq<Cohort.CohortRow>, members: seq<Member>)
    requires |members| == |rows| && forall k | 0 <= k < |rows| :: members[k] == MemberOf(rows[k], true)
    ensures FrameOf(datasetId, keys, members).Ok? <==> forall k | 0 <= k < |rows| :: SoundPayload(keys, rows[k].snapshot)
    decreases |rows|
  {
    if rows != [] {
      var n := |rows| - 1;
      FrameBuildsExactlyWhen(datasetId, keys, rows[..n], members[..n]);
      RowBuildsExactlyWhen(datasetId, keys, rows[n]);
      assert members[n] == MemberOf(rows[n], true);
    }
  }

  /** The rows a dataset can be built from: sound, and enough of them with a label, passed and failed. */
  ghost predicate SoundCohort(keys: seq<string>, minimums: Minimums, rows: seq<Cohort.CohortRow>) {
    && (forall k | 0 <= k < |rows| :: WellNamed(rows[k]) && SoundPayload(keys, rows[k].snapshot))
    && EnoughLabels(minimums, rows)
  }

  ghost predicate EnoughLabels(minimums: Minimums, rows: seq<Cohort.CohortRow>) {
    var labelled := HowMany(rows, (r: Cohort.CohortRow) => r.actual.Some?);
    && minimums.labelled <= labelled
    && minimums.coverage <= (if rows == [] then 0.0 else labelled as real / |rows| as real)
    && minimums.fails <= HowMany(rows, (r: Cohort.CohortRow) => r.actual.Some? && r.actual.value.value == 1)
    && minimums.passes <= HowMany(rows, (r: Cohort.CohortRow) => r.actual.Some? && r.actual.value.value == -1)
  }

  lemma EnoughIsReady(minimums: Minimums, rows: seq<Cohort.CohortRow>)
    ensures Ready(minimums, Unchecked(rows)) <==> EnoughLabels(minimums, rows)
  {
    var members := Unchecked(rows);
    CountIsHowMany(members, IsLabelled());
    CountIsHowMany(members, HasValue(1));
    CountIsHowMany(members, HasValue(-1));
    SameHowMany(members, IsLabelled(), rows, (r: Cohort.CohortRow) => r.actual.Some?);
    SameHowMany(members, HasValue(1), rows, (r: Cohort.CohortRow) => r.actual.Some? && r.actual.value.value == 1);
    SameHowMany(members, HasValue(-1), rows, (r: Cohort.CohortRow) => r.actual.Some? && r.actual.value.value == -1);
  }

  /** Bounds in order and minimums that make sense. */
  predicate Sensible(c: Config, minimums: Minimums) {
    && 0.0 <= c.cohortStart <= c.cutoff - c.maturity && 0.0 <= c.cutoff && 0.0 <= c.maturity
    && 1 <= minimums.labelled && 0.0 <= minimums.coverage <= 1.0 && 1 <= minimums.fails && 1 <= minimums.passes
  }

  /** The members of rows whose checks pass. */
  function Unchecked(rows: seq<Cohort.CohortRow>): seq<Member> {
    seq(|rows|, k requires 0 <= k < |rows| => MemberOf(rows[k], true))
  }

  lemma FetchedAreMembers(rows: seq<Cohort.CohortRow>)
    requires FetchMembers(rows, true).Ok?
    ensures FetchMembers(rows, true).value == Unchecked(rows)
  {
    FetchesExactlyWellNamed(rows, true);
  }

  /** A dataset cannot be empty: the minimum of labelled samples is at least one. */
  lemma ReadyIsNotEmpty(minimums: Minimums, members: seq<Member>)
    requires Ready(minimums, members) && minimums.labelled >= 1
    ensures members != []
  {
    assert members == [] ==> Summarize(members).labelled == 0;
  }

  // ------------------------------------------------------ tables to load and back

  /** A row of the dataset shows a row of the cohort: the snapshot's columns, the label's, and
      the number of every feature. */
  ghost predicate Shows(keys: seq<string>, row: FrameRow, m: Cohort.CohortRow) {
    var s := m.snapshot;
    && row.sampleId == s.sampleId && row.snapshotId == s.id && row.version == s.version && row.featureHash == s.featureHash
    && row.simulationRunId == s.simulationRunId && row.driftSegment == s.driftSegment
    && row.snapshotTime == s.snapshotTime && row.snapshotAvailableAt == s.availableAt
    && row.windowStart == s.windowStart && row.windowEnd == s.windowEnd && row.missingCount == s.missingCount
    && row.actual == (match m.actual
                      case None => LabelColumns(None, None, None, None, None, None)
                      case Some(l) => LabelColumns(Some(l.id), Some(l.revision), Some(l.measuredAt), Some(l.availableAt), Some(l.value), Some(l.name)))
    && |row.features| == |keys| && forall k | 0 <= k < |keys| :: keys[k] in s.features && ShowsValue(s.features[keys[k]], row.features[k])
  }

  /** A number is shown as it is; null, NaN and the infinities as missing. */
  predicate ShowsValue(v: RawValue, c: Cell) {
    match v
    case Number(x) => c == Finite(x)
    case NotNumeric => false
    case _ => c == Missing
  }

  lemma {:induction false} CellsShowFeatures(features: map<string, RawValue>, keys: seq<string>)
    requires (forall key | key in keys :: key in features) && NormalizeAll(features, keys).Some?
    ensures var cells := NormalizeAll(features, keys).value;
            |cells| == |keys| && forall k | 0 <= k < |keys| :: ShowsValue(features[keys[k]], cells[k])
    decreases |keys|
  {
    if keys != [] { CellsShowFeatures(features, keys[..|keys| - 1]); }
  }

  lemma FrameShowsCohort(datasetId: string, keys: seq<string>, rows: seq<Cohort.CohortRow>)
    requires FrameOf(datasetId, keys, Unchecked(rows)).Ok?
    ensures var frame := FrameOf(datasetId, keys, Unchecked(rows)).value;
            |frame| == |rows| && forall k | 0 <= k < |rows| :: Shows(keys, frame[k], rows[k])
  {
    var members := Unchecked(rows);
    FrameRowsFollowMembers(datasetId, keys, members);
    var frame := FrameOf(datasetId, keys, members).value;
    forall k | 0 <= k < |rows| ensures Shows(keys, frame[k], rows[k]) {
      assert FrameRowOf(datasetId, keys, members[k]) == Ok(frame[k]);
      CellsShowFeatures(rows[k].snapshot.features, keys);
    }
  }

  /** The tables a build reads: primary keys, and a prior catalog row made for the same members. */
  ghost predicate KeyedTables(digests: Digests, c: Config, snapshots: Snapshots, labels: Labels, prior: Option<Catalog>) {
    && Cohort.DistinctSnapshots(snapshots) && LabelSelection.DistinctLabels(labels)
    && (prior.Some? ==> SameDataset(digests, c, Unchecked(Cohort.CohortRows(c, snapshots, labels)), prior.value))
  }

  lemma CohortIsBuildable(digests: Digests, keys: seq<string>, minimums: Minimums, c: Config, snapshots: Snapshots, labels: Labels)
    requires Cohort.DistinctSnapshots(snapshots) && LabelSelection.DistinctLabels(labels) && ValidConfig(c, minimums)
    requires SoundCohort(keys, minimums, Cohort.CohortRows(c, snapshots, labels))
    ensures Buildable(digests, keys, c, Unchecked(Cohort.CohortRows(c, snapshots, labels)))
  {
    var rows := Cohort.CohortRows(c, snapshots, labels);
    var members := Unchecked(rows);
    Cohort.MembersHaveOneRowPerSample(c, snapshots, labels);
    FetchesExactlyWellNamed(rows, true);
    FetchedAreMembers(rows);
    EnoughIsReady(minimums, rows);
    ReadyIsNotEmpty(minimums, members);
    FrameBuildsExactlyWhen(DatasetIdOf(ManifestHash(digests, c, members)), keys, rows, members);
  }

  /** What a build of these rows persists is what the same members written at once would be. */
  lemma PersistsMembers(digests: Digests, keys: seq<string>, columns: seq<string>, c: Config, rows: seq<Cohort.CohortRow>,
                        prior: Option<Catalog>, runId: string, uri: string)
    requires FetchMembers(rows, false).Ok? && FetchMembers(rows, true).Ok?
    ensures FetchMembers(rows, true).value == Unchecked(rows)
    ensures Summarize(FetchMembers(rows, false).value) == Summarize(Unchecked(rows))
    ensures Persist(digests, keys, columns, c, FetchMembers(rows, false).value, Unchecked(rows), prior, runId, uri)
         == Persist(digests, keys, columns, c, Unchecked(rows), Unchecked(rows), prior, runId, uri)
  {
    QueriesAgree(digests, c, rows);
    FetchedAreMembers(rows);
  }

  lemma PersistSucceedsExactlyWhen(digests: Digests, keys: seq<string>, columns: seq<string>, c: Config,
                                   rows: seq<Cohort.CohortRow>, prior: Option<Catalog>, runId: string, uri: string)
    ensures Persist(digests, keys, columns, c, Unchecked(rows), Unchecked(rows), prior, runId, uri).Persisted?
            <==> && (forall k | 0 <= k < |rows| :: SoundPayload(keys, rows[k].snapshot))
                 && (prior.Some? ==> prior.value.status != IsReady)
  {
    FrameBuildsExactlyWhen(DatasetIdOf(ManifestHash(digests, c, Unchecked(rows))), keys, rows, Unchecked(rows));
  }

  /** Past the checks of the configuration and of the rows. */
  lemma BuildOfFetched(digests: Digests, keys: seq<string>, columns: seq<string>, minimums: Minimums, c: Config,
                       snapshots: Snapshots, labels: Labels, prior: Option<Catalog>, runId: string, uri: string)
    requires ValidConfig(c, minimums) && FetchMembers(Cohort.CohortRows(c, snapshots, labels), false).Ok?
    ensures var members := Unchecked(Cohort.CohortRows(c, snapshots, labels));
            Build(digests, keys, columns, minimums, c, snapshots, labels, prior, runId, uri)
            == if !Ready(minimums, members) || (prior.Some? && prior.value.status == IsReady) then Skipped
               else Persist(digests, keys, columns, c, members, members, prior, runId, uri)
  {
    var rows := Cohort.CohortRows(c, snapshots, labels);
    FetchesExactlyWellNamed(rows, false);
    FetchesExactlyWellNamed(rows, true);
    PersistsMembers(digests, keys, columns, c, rows, prior, runId, uri);
  }

  /** A build persists a dataset exactly when its configuration is valid, its cohort sound and
      large enough, and no dataset of the same members is ready. */
  lemma PersistsExactlyWhen(digests: Digests, keys: seq<string>, columns: seq<string>, minimums: Minimums, c: Config,
                            snapshots: Snapshots, labels: Labels, prior: Option<Catalog>, runId: string, uri: string)
    ensures Build(digests, keys, columns, minimums, c, snapshots, labels, prior, runId, uri).Persisted?
            <==> && Sensible(c, minimums) && SoundCohort(keys, minimums, Cohort.CohortRows(c, snapshots, labels))
                 && (prior.Some? ==> prior.value.status != IsReady)
  {
    var rows := Cohort.CohortRows(c, snapshots, labels);
    FetchesExactlyWellNamed(rows, false);
    EnoughIsReady(minimums, rows);
    assert ValidConfig(c, minimums) <==> Sensible(c, minimums);
    if ValidConfig(c, minimums) && FetchMembers(rows, false).Ok? {
      BuildOfFetched(digests, keys, columns, minimums, c, snapshots, labels, prior, runId, uri);
      PersistSucceedsExactlyWhen(digests, keys, columns, c, rows, prior, runId, uri);
    }
  }

  /** By the time the snapshot became available, then by sample. */
  predicate InOrder(rows: seq<FrameRow>) {
    forall i, j | 0 <= i < j < |rows| ::
      || rows[i].snapshotAvailableAt < rows[j].snapshotAvailableAt
      || (rows[i].snapshotAvailableAt == rows[j].snapshotAvailableAt && TextBefore(rows[i].sampleId, rows[j].sampleId))
  }

  lemma ShownInOrder(keys: seq<string>, c: Config, snapshots: Snapshots, labels: Labels, frame: seq<FrameRow>)
    requires Cohort.DistinctSnapshots(snapshots) && LabelSelection.DistinctLabels(labels)
    requires var rows := Cohort.CohortRows(c, snapshots, labels);
             |frame| == |rows| && forall k | 0 <= k < |rows| :: Shows(keys, frame[k], rows[k])
    ensures InOrder(frame)
  {
    var rows := Cohort.CohortRows(c, snapshots, labels);
    Cohort.CohortRowsAreSorted(c, snapshots, labels);
    Cohort.MembersHaveOneRowPerSample(c, snapshots, labels);
    LabelSelection.TextIsOrdered();
    forall i, j | 0 <= i < j < |frame|
      ensures || frame[i].snapshotAvailableAt < frame[j].snapshotAvailableAt
              || (frame[i].snapshotAvailableAt == frame[j].snapshotAvailableAt && TextBefore(frame[i].sampleId, frame[j].sampleId))
    {
      assert Shows(keys, frame[i], rows[i]) && Shows(keys, frame[j], rows[j]);
      assert !Cohort.RowBefore(rows[j], rows[i]);
    }
  }

  /** Tables to tables: a persisted dataset loads, and what is loaded are the rows of the cohort,
      in the query's order, each as the tables have it. */
  lemma PersistedLoads(digests: Digests, keys: seq<string>, columns: seq<string>, minimums: Minimums, c: Config,
                       snapshots: Snapshots, labels: Labels, prior: Option<Catalog>, runId: string, uri: string)
    requires KeyedTables(digests, c, snapshots, labels, prior) && runId != "" && uri != ""
    requires Build(digests, keys, columns, minimums, c, snapshots, labels, prior, runId, uri).Persisted?
    ensures var built := Build(digests, keys, columns, minimums, c, snapshots, labels, prior, runId, uri);
            var rows, loaded := Cohort.CohortRows(c, snapshots, labels), Load(digests, columns, built.catalog, built.artifacts);
            && loaded.Ok? && |loaded.value.rows| == |rows| && InOrder(loaded.value.rows)
            && forall k | 0 <= k < |rows| :: Shows(keys, loaded.value.rows[k], rows[k])
  {
    var rows := Cohort.CohortRows(c, snapshots, labels);
    var members := Unchecked(rows);
    PersistsExactlyWhen(digests, keys, columns, minimums, c, snapshots, labels, prior, runId, uri);
    PersistsMembers(digests, keys, columns, c, rows, prior, runId, uri);
    CohortIsBuildable(digests, keys, minimums, c, snapshots, labels);
    BuiltLoads(digests, columns, keys, c, members, prior, runId, uri);
    FrameShowsCohort(DatasetIdOf(ManifestHash(digests, c, members)), keys, rows);
    ShownInOrder(keys, c, snapshots, labels, BuiltRows(digests, keys, c, members));
  }

  /** So a loaded dataset holds a sample exactly when its first complete snapshot fell into the
      window: with that snapshot and the newest label known at the cutoff, and nothing else. */
  lemma LoadedRowsAreMembers(digests: Digests, keys: seq<string>, columns: seq<string>, minimums: Minimums, c: Config,
                             snapshots: Snapshots, labels: Labels, prior: Option<Catalog>, runId: string, uri: string)
    requires KeyedTables(digests, c, snapshots, labels, prior) && runId != "" && uri != ""
    requires Build(digests, keys, columns, minimums, c, snapshots, labels, prior, runId, uri).Persisted?
    ensures var built := Build(digests, keys, columns, minimums, c, snapshots, labels, prior, runId, uri);
            var loaded := Load(digests, columns, built.catalog, built.artifacts);
            && loaded.Ok?
            && (forall row | row in loaded.value.rows :: exists m :: Cohort.IsMember(c, snapshots, labels, m) && Shows(keys, row, m))
            && (forall m | Cohort.IsMember(c, snapshots, labels, m) :: exists row :: row in loaded.value.rows && Shows(keys, row, m))
  {
    PersistedLoads(digests, keys, columns, minimums, c, snapshots, labels, prior, runId, uri);
    var built := Build(digests, keys, columns, minimums, c, snapshots, labels, prior, runId, uri);
    var rows, shown := Cohort.CohortRows(c, snapshots, labels), Load(digests, columns, built.catalog, built.artifacts).value.rows;
    forall row | row in shown ensures exists m :: Cohort.IsMember(c, snapshots, labels, m) && Shows(keys, row, m) {
      var k :| 0 <= k < |shown| && shown[k] == row;
      Cohort.MembersMean(c, snapshots, labels, rows[k]);
    }
    forall m | Cohort.IsMember(c, snapshots, labels, m) ensures exists row :: row in shown && Shows(keys, row, m) {
      Cohort.MembersMean(c, snapshots, labels, m);
      var k :| 0 <= k < |rows| && rows[k] == m;
      assert shown[k] in shown;
    }
  }

  /** A build of the same cohort after late rows came in ends in the same way. */
  lemma LateRowsChangeNoBuild(digests: Digests, keys: seq<string>, columns: seq<string>, minimums: Minimums, c: Config,
                              snapshots: Snapshots, labels: Labels, lateSnapshots: Snapshots, lateLabels: Labels,
                              prior: Option<Catalog>, runId: string, uri: string)
    requires forall s | s in lateSnapshots :: s.availableAt >= c.cutoff - c.maturity
    requires forall l | l in lateLabels :: l.availableAt > c.cutoff
    ensures Build(digests, keys, columns, minimums, c, snapshots + lateSnapshots, labels + lateLabels, prior, runId, uri)
         == Build(digests, keys, columns, minimums, c, snapshots, labels, prior, runId, uri)
  {
    Cohort.RebuildIsStable(c, snapshots, labels, lateSnapshots, lateLabels);
  }
}
