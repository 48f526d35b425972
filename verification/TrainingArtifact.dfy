/** The persisted training dataset: catalog row, manifest and file, the loader's checks on
    them, and the round trip of a build. */
module TrainingArtifact {
  import opened Common
  import opened Tables
  import opened TrainingDataset
  import LabelSelection
  import Cohort = TrainingCohort

  type Config = Cohort.Config

  /** What the dataset's hash is computed from. */
  datatype Identity = Identity(
    datasetType: string, schemaVersion: string, selectorVersion: string,
    cohortStart: real, maturity: real, simulationRunId: Option<string>, driftSegment: Option<string>, members: seq<Member>)

  datatype Artifact = Artifact(path: string, sha256: string, rowCount: int, columns: seq<string>)

  /** `manifest.json`; a section may be missing from what was downloaded. */
  datatype Manifest = Manifest(
    datasetId: string, manifestHash: string, identity: Option<Identity>, cutoff: Option<real>,
    stats: Option<Stats>, artifact: Option<Artifact>)

  /** `dataset.parquet`. */
  datatype File = File(columns: seq<string>, rows: seq<FrameRow>)

  datatype Downloaded = Downloaded(manifest: Option<Manifest>, file: Option<File>)

  datatype Status = Building | IsReady | HasFailed

  /** A row of `dataset_builds`. */
  datatype Catalog = Catalog(
    datasetId: string, datasetType: string, schemaVersion: string, selectorVersion: string, status: Status,
    cohortStart: real, cutoff: real, maturity: real, manifestHash: string,
    runId: string, uri: string, sha256: string, stats: Stats)

  /** Digests are not modelled: `identity` is the hex digest of a payload, `file` that of a file. */
  datatype Digests = Digests(identity: Identity -> string, file: File -> string)

  function RemovePrefix(s: string): string {
    if |s| >= |HASH_PREFIX| && s[..|HASH_PREFIX|] == HASH_PREFIX then s[|HASH_PREFIX|..] else s
  }

  function Take16(s: string): string {
    if |s| <= 16 then s else s[..16]
  }

  function DatasetIdOf(manifestHash: string): string {
    "training_" + Take16(RemovePrefix(manifestHash))
  }

  function Abs(x: real): real {
    if x < 0.0 then -x else x
  }

  /** `math.isclose` with its default tolerance. */
  predicate IsClose(a: real, b: real) {
    var largest := if Abs(a) > Abs(b) then Abs(a) else Abs(b);
    a == b || Abs(a - b) <= 0.000000001 * largest
  }

  // ------------------------------------------------------------------ loader

  datatype LoadError =
    | NotReady | FieldMissing | Incomplete | IdMismatch | HashMismatch | NoIdentity | WrongIdentityHash | WrongType
    | WrongId | NoArtifact | FileDigestMismatch | WrongPath | WrongColumns | WrongRowCount | WrongRows | DuplicateSamples
    | IncompleteLabel | LabelWithoutEvent | InvalidTarget | LabelNameMismatch | MissingCountWrong | InfiniteFeature
    | NoStats | StatsMismatch | CoverageMismatch | NoContext | TimeMismatch

  datatype Loaded = Loaded(datasetId: string, manifestHash: string, sha256: string, rows: seq<FrameRow>)

  predicate SamplesRepeat(rows: seq<FrameRow>) {
    exists i, j :: 0 <= i < j < |rows| && rows[i].sampleId == rows[j].sampleId
  }

  function RowIsLabelled(): FrameRow -> bool {
    (r: FrameRow) => r.actual.eventId.Some?
  }

  function RowHasValue(value: int): FrameRow -> bool {
    (r: FrameRow) => r.actual.eventId.Some? && r.actual.value == Some(value)
  }

  predicate IsInfinite(c: Cell) {
    c.Infinite?
  }

  /** The checks on the rows, in their order. */
  function CheckRows(datasetId: string, rows: seq<FrameRow>): Option<LoadError> {
    if rows == [] || exists k :: 0 <= k < |rows| && rows[k].datasetId != datasetId then Some(WrongRows)
    else if SamplesRepeat(rows) then Some(DuplicateSamples)
    else if exists k :: 0 <= k < |rows| && rows[k].actual.eventId.Some? && !AllPresent(rows[k].actual) then Some(IncompleteLabel)
    else if exists k :: 0 <= k < |rows| && rows[k].actual.eventId.None? && !AllAbsent(rows[k].actual) then Some(LabelWithoutEvent)
    else if exists k :: 0 <= k < |rows| && rows[k].actual.eventId.Some?
                        && rows[k].actual.value != Some(-1) && rows[k].actual.value != Some(1) then Some(InvalidTarget)
    else if exists k :: 0 <= k < |rows| && rows[k].actual.eventId.Some? && rows[k].actual.value.Some?
                        && rows[k].actual.name != Some(NameOf(rows[k].actual.value.value)) then Some(LabelNameMismatch)
    else if exists k :: 0 <= k < |rows| && Count(rows[k].features, IsMissing()) != rows[k].missingCount then Some(MissingCountWrong)
    else if exists k :: 0 <= k < |rows| && exists c :: c in rows[k].features && IsInfinite(c) then Some(InfiniteFeature)
    else None
  }

  function Recount(rows: seq<FrameRow>): Stats
    requires rows != []
  {
    var labelled := Count(rows, RowIsLabelled());
    Stats(|rows|, labelled, |rows| - labelled, labelled as real / |rows| as real,
          Count(rows, RowHasValue(1)), Count(rows, RowHasValue(-1)))
  }

  /** The counts agree; coverage is compared within a tolerance. */
  predicate SameCounts(a: Stats, b: Stats) {
    a.eligible == b.eligible && a.labelled == b.labelled && a.unlabelled == b.unlabelled && a.fails == b.fails && a.passes == b.passes
  }

  function CheckStats(manifest: Manifest, catalog: Catalog, rows: seq<FrameRow>): Option<LoadError>
    requires rows != []
  {
    if manifest.stats.None? then Some(NoStats)
    else if !SameCounts(Recount(rows), manifest.stats.value) || !SameCounts(Recount(rows), catalog.stats) then Some(StatsMismatch)
    else if !IsClose(manifest.stats.value.coverage, Recount(rows).coverage)
            || !IsClose(catalog.stats.coverage, Recount(rows).coverage) then Some(CoverageMismatch)
    else None
  }

  function CheckTimes(identity: Identity, cutoff: Option<real>, catalog: Catalog): Option<LoadError> {
    if cutoff.None? then Some(NoContext)
    else if IsClose(catalog.cohortStart, identity.cohortStart) && IsClose(catalog.cutoff, cutoff.value)
            && IsClose(catalog.maturity, identity.maturity) then None
    else Some(TimeMismatch)
  }

  /** The checks on manifest and file before the rows are looked at. */
  function CheckContract(digests: Digests, columns: seq<string>, manifest: Manifest, file: File, catalog: Catalog): Option<LoadError> {
    if manifest.datasetId != catalog.datasetId then Some(IdMismatch)
    else if manifest.manifestHash != catalog.manifestHash then Some(HashMismatch)
    else if manifest.identity.None? then Some(NoIdentity)
    else
      var identity := manifest.identity.value;
      if HASH_PREFIX + digests.identity(identity) != catalog.manifestHash then Some(WrongIdentityHash)
      else if identity.datasetType != DATASET_TYPE || identity.schemaVersion != SCHEMA_VERSION || identity.selectorVersion != SELECTOR_VERSION
      then Some(WrongType)
      else if DatasetIdOf(catalog.manifestHash) != catalog.datasetId then Some(WrongId)
      else if manifest.artifact.None? then Some(NoArtifact)
      else
        var artifact, sha256 := manifest.artifact.value, HASH_PREFIX + digests.file(file);
        if catalog.sha256 != sha256 || artifact.sha256 != sha256 then Some(FileDigestMismatch)
        else if artifact.path != ARTIFACT_PATH then Some(WrongPath)
        else if artifact.columns != columns || file.columns != columns then Some(WrongColumns)
        else if artifact.rowCount != |file.rows| then Some(WrongRowCount)
        else None
  }

  function OrElse(a: Option<LoadError>, b: Option<LoadError>): Option<LoadError> {
    if a.Some? then a else b
  }

  /** `load_training_dataset` with `verify_downloaded_artifacts`. */
  function Load(digests: Digests, columns: seq<string>, catalog: Catalog, d: Downloaded): Result<Loaded, LoadError> {
    if catalog.datasetType != DATASET_TYPE || catalog.schemaVersion != SCHEMA_VERSION
       || catalog.selectorVersion != SELECTOR_VERSION || catalog.status != IsReady then Err(NotReady)
    else if catalog.runId == "" || catalog.uri == "" || catalog.sha256 == "" || catalog.manifestHash == "" then Err(FieldMissing)
    else if d.manifest.None? || d.file.None? then Err(Incomplete)
    else
      var manifest, file := d.manifest.value, d.file.value;
      var contract := CheckContract(digests, columns, manifest, file, catalog);
      if contract.Some? then Err(contract.value)
      else
        var rows := CheckRows(catalog.datasetId, file.rows);
        if rows.Some? then Err(rows.value)
        else
          var rest := OrElse(CheckStats(manifest, catalog, file.rows), CheckTimes(manifest.identity.value, manifest.cutoff, catalog));
          if rest.Some? then Err(rest.value)
          else Ok(Loaded(catalog.datasetId, catalog.manifestHash, HASH_PREFIX + digests.file(file), file.rows))
  }

  // ------------------------------------------------------- what loading proves

  /** Rows a model may be trained on. */
  ghost predicate SoundRows(datasetId: string, rows: seq<FrameRow>) {
    && rows != []
    && (forall i, j | 0 <= i < j < |rows| :: rows[i].sampleId != rows[j].sampleId)
    && forall k | 0 <= k < |rows| ::
         && rows[k].datasetId == datasetId && WellLabelled(rows[k].actual)
         && HowMany(rows[k].features, (c: Cell) => c == Missing) == rows[k].missingCount
         && forall c | c in rows[k].features :: c != Infinite
  }

  lemma MissingAreCounted(features: seq<Cell>)
    ensures Count(features, IsMissing()) == HowMany(features, (c: Cell) => c == Missing)
  {
    CountIsHowMany(features, IsMissing());
    SameHowMany(features, IsMissing(), features, (c: Cell) => c == Missing);
  }

  /** The row checks pass exactly for sound rows. */
  lemma RowChecksPassExactly(datasetId: string, rows: seq<FrameRow>)
    ensures CheckRows(datasetId, rows).None? <==> SoundRows(datasetId, rows)
  {
    forall k | 0 <= k < |rows| ensures Count(rows[k].features, IsMissing()) == HowMany(rows[k].features, (c: Cell) => c == Missing) {
      MissingAreCounted(rows[k].features);
    }
  }

  /** The statistics are those of the rows, the coverage within the loader's tolerance. */
  ghost predicate StatsFit(stats: Stats, rows: seq<FrameRow>) {
    var labelled := HowMany(rows, (r: FrameRow) => r.actual.eventId.Some?);
    && rows != [] && stats.eligible == |rows| && stats.labelled == labelled && stats.unlabelled == |rows| - labelled
    && stats.fails == HowMany(rows, (r: FrameRow) => r.actual.eventId.Some? && r.actual.value == Some(1))
    && stats.passes == HowMany(rows, (r: FrameRow) => r.actual.eventId.Some? && r.actual.value == Some(-1))
    && Near(stats.coverage, labelled as real / |rows| as real)
  }

  /** Equal within a billionth of the larger one. */
  predicate Near(a: real, b: real) {
    var x, y := if a < 0.0 then -a else a, if b < 0.0 then -b else b;
    -0.000000001 * (if x > y then x else y) <= a - b <= 0.000000001 * (if x > y then x else y)
  }

  lemma NearIsClose(a: real, b: real)
    ensures Near(a, b) <==> IsClose(a, b)
  {
  }

  lemma StatsFitExactlyWhen(stats: Stats, rows: seq<FrameRow>)
    requires rows != []
    ensures StatsFit(stats, rows) <==> SameCounts(Recount(rows), stats) && IsClose(stats.coverage, Recount(rows).coverage)
  {
    CountIsHowMany(rows, RowIsLabelled());
    CountIsHowMany(rows, RowHasValue(1));
    CountIsHowMany(rows, RowHasValue(-1));
    SameHowMany(rows, RowIsLabelled(), rows, (r: FrameRow) => r.actual.eventId.Some?);
    SameHowMany(rows, RowHasValue(1), rows, (r: FrameRow) => r.actual.eventId.Some? && r.actual.value == Some(1));
    SameHowMany(rows, RowHasValue(-1), rows, (r: FrameRow) => r.actual.eventId.Some? && r.actual.value == Some(-1));
    NearIsClose(stats.coverage, Recount(rows).coverage);
  }

  /** Catalog row and manifest name the same dataset, whose id and hash are those of the identity. */
  ghost predicate IdentityFits(digests: Digests, catalog: Catalog, m: Manifest) {
    && m.datasetId == catalog.datasetId && m.manifestHash == catalog.manifestHash && m.identity.Some?
    && var identity := m.identity.value;
    && identity.datasetType == "training" && identity.schemaVersion == "training_source_dataset.v1"
    && identity.selectorVersion == "sample_first_complete_point_in_time.v1"
    && var hex := digests.identity(identity);
    && catalog.manifestHash == "sha256:v1:" + hex
    && catalog.datasetId == "training_" + (if |hex| > 16 then hex[..16] else hex)
  }

  /** The file is the one whose digest, size and columns were recorded. */
  ghost predicate FileFits(digests: Digests, columns: seq<string>, catalog: Catalog, m: Manifest, f: File) {
    && m.artifact.Some? && m.artifact.value.path == "data/dataset.parquet"
    && m.artifact.value.sha256 == catalog.sha256 == "sha256:v1:" + digests.file(f)
    && m.artifact.value.columns == f.columns == columns && m.artifact.value.rowCount == |f.rows|
  }

  ghost predicate TimesFit(catalog: Catalog, m: Manifest)
    requires m.identity.Some?
  {
    && m.cutoff.Some? && Near(catalog.cutoff, m.cutoff.value)
    && Near(catalog.cohortStart, m.identity.value.cohortStart) && Near(catalog.maturity, m.identity.value.maturity)
  }

  /** A row of a dataset that can be loaded. */
  predicate ReadyForLoad(catalog: Catalog) {
    && catalog.datasetType == "training" && catalog.schemaVersion == "training_source_dataset.v1"
    && catalog.selectorVersion == "sample_first_complete_point_in_time.v1" && catalog.status == IsReady
    && catalog.runId != "" && catalog.uri != "" && catalog.sha256 != "" && catalog.manifestHash != ""
  }

  lemma PrefixIsRemoved(hex: string)
    ensures DatasetIdOf("sha256:v1:" + hex) == "training_" + (if |hex| > 16 then hex[..16] else hex)
  {
    assert ("sha256:v1:" + hex)[|HASH_PREFIX|..] == hex;
    if |hex| == 16 { assert hex[..16] == hex; }
  }

  lemma ContractHoldsExactlyWhen(digests: Digests, columns: seq<string>, catalog: Catalog, m: Manifest, f: File)
    ensures CheckContract(digests, columns, m, f, catalog).None?
            <==> IdentityFits(digests, catalog, m) && FileFits(digests, columns, catalog, m, f)
  {
    if m.identity.Some? { PrefixIsRemoved(digests.identity(m.identity.value)); }
  }

  /** Everything the loader asks for, and nothing else: exactly then a dataset loads, and what is
      loaded are the rows of its file. */
  lemma LoadsExactlyWhen(digests: Digests, columns: seq<string>, catalog: Catalog, d: Downloaded)
    ensures Load(digests, columns, catalog, d).Ok?
            <==> && ReadyForLoad(catalog) && d.manifest.Some? && d.file.Some?
                 && var m, f := d.manifest.value, d.file.value;
                 && IdentityFits(digests, catalog, m) && FileFits(digests, columns, catalog, m, f) && TimesFit(catalog, m)
                 && SoundRows(catalog.datasetId, f.rows)
                 && m.stats.Some? && StatsFit(m.stats.value, f.rows) && StatsFit(catalog.stats, f.rows)
    ensures Load(digests, columns, catalog, d).Ok? ==>
              Load(digests, columns, catalog, d).value
              == Loaded(catalog.datasetId, catalog.manifestHash, catalog.sha256, d.file.value.rows)
  {
    if ReadyForLoad(catalog) && d.manifest.Some? && d.file.Some? {
      var m, f := d.manifest.value, d.file.value;
      ContractHoldsExactlyWhen(digests, columns, catalog, m, f);
      RowChecksPassExactly(catalog.datasetId, f.rows);
      if IdentityFits(digests, catalog, m) && f.rows != [] {
        StatsHoldExactlyWhen(m, catalog, f.rows);
        TimesHoldExactlyWhen(m, catalog);
      }
    }
  }

  lemma StatsHoldExactlyWhen(m: Manifest, catalog: Catalog, rows: seq<FrameRow>)
    requires rows != []
    ensures CheckStats(m, catalog, rows).None? <==> m.stats.Some? && StatsFit(m.stats.value, rows) && StatsFit(catalog.stats, rows)
  {
    if m.stats.Some? { StatsFitExactlyWhen(m.stats.value, rows); }
    StatsFitExactlyWhen(catalog.stats, rows);
  }

  lemma TimesHoldExactlyWhen(m: Manifest, catalog: Catalog)
    requires m.identity.Some?
    ensures CheckTimes(m.identity.value, m.cutoff, catalog).None? <==> TimesFit(catalog, m)
  {
    NearIsClose(catalog.cohortStart, m.identity.value.cohortStart);
    NearIsClose(catalog.maturity, m.identity.value.maturity);
    if m.cutoff.Some? { NearIsClose(catalog.cutoff, m.cutoff.value); }
  }

  /** Whatever was downloaded: a dataset that loads has sound rows, ids and digests that
      belong together, and statistics equal to a recount. */
  lemma LoadedIsSound(digests: Digests, columns: seq<string>, catalog: Catalog, d: Downloaded)
    requires Load(digests, columns, catalog, d).Ok?
    ensures var loaded := Load(digests, columns, catalog, d).value;
            && SoundRows(catalog.datasetId, loaded.rows) && loaded.datasetId == catalog.datasetId == DatasetIdOf(catalog.manifestHash)
            && d.manifest.Some? && d.manifest.value.identity.Some? && d.manifest.value.stats.Some?
            && catalog.manifestHash == HASH_PREFIX + digests.identity(d.manifest.value.identity.value)
            && SameCounts(Recount(loaded.rows), d.manifest.value.stats.value) && SameCounts(Recount(loaded.rows), catalog.stats)
            && Recount(loaded.rows).fails + Recount(loaded.rows).passes == Recount(loaded.rows).labelled
  {
    RowChecksPassExactly(catalog.datasetId, d.file.value.rows);
    LabelledAreFailsAndPasses(d.file.value.rows);
  }

  lemma {:induction false} LabelledAreFailsAndPasses(rows: seq<FrameRow>)
    requires forall k | 0 <= k < |rows| :: WellLabelled(rows[k].actual)
    ensures Count(rows, RowHasValue(1)) + Count(rows, RowHasValue(-1)) == Count(rows, RowIsLabelled())
    decreases |rows|
  {
    if rows != [] { LabelledAreFailsAndPasses(rows[..|rows| - 1]); }
  }

  // ------------------------------------------------------------------ builder

  /** `identity_record` leaves the features out. */
  function IdentityRecords(members: seq<Member>): seq<Member> {
    seq(|members|, k requires 0 <= k < |members| => members[k].(features := None))
  }

  /** The order of the members in the identity. */
  predicate MemberBefore(a: Member, b: Member) {
    || a.snapshotAvailableAt < b.snapshotAvailableAt
    || (a.snapshotAvailableAt == b.snapshotAvailableAt
        && (TextBefore(a.sampleId, b.sampleId) || (a.sampleId == b.sampleId && TextBefore(a.snapshotId, b.snapshotId))))
  }

  /** `build_dataset_identity`; the cutoff is not part of it. */
  function IdentityOf(c: Config, members: seq<Member>): Identity {
    Identity(DATASET_TYPE, SCHEMA_VERSION, SELECTOR_VERSION, c.cohortStart, c.maturity, c.simulationRunId, c.driftSegment,
             Sort(IdentityRecords(members), MemberBefore))
  }

  ghost predicate OneMemberPerSample(members: seq<Member>) {
    forall i, j | 0 <= i < j < |members| :: members[i].sampleId != members[j].sampleId
  }

  lemma MemberBeforeOrders(members: seq<Member>)
    requires OneMemberPerSample(members)
    ensures StrictOrder(MemberBefore) && Decides(MemberBefore, IdentityRecords(members))
  {
    LabelSelection.TextIsOrdered();
    var records := IdentityRecords(members);
    forall a, b | a in records && b in records ensures a == b || MemberBefore(a, b) || MemberBefore(b, a) {
      var i :| 0 <= i < |records| && records[i] == a;
      var j :| 0 <= j < |records| && records[j] == b;
      assert i != j ==> a.sampleId != b.sampleId;
    }
  }

  /** The identity is that of the window's start, the maturity, the filters and the set of members:
      neither the cutoff nor the order of the members matters, and nothing else is left out. */
  lemma IdentityIsCanonical(c: Config, c': Config, members: seq<Member>, others: seq<Member>)
    requires OneMemberPerSample(members)
    ensures IdentityOf(c, members) == IdentityOf(c', others)
            <==> && c.cohortStart == c'.cohortStart && c.maturity == c'.maturity
                 && c.simulationRunId == c'.simulationRunId && c.driftSegment == c'.driftSegment
                 && multiset(IdentityRecords(members)) == multiset(IdentityRecords(others))
  {
    MemberBeforeOrders(members);
    SortKeepsRows(IdentityRecords(members), MemberBefore);
    SortKeepsRows(IdentityRecords(others), MemberBefore);
    if multiset(IdentityRecords(others)) == multiset(IdentityRecords(members)) {
      SortIgnoresOrder(IdentityRecords(members), IdentityRecords(others), MemberBefore);
    }
  }

  function ManifestHash(digests: Digests, c: Config, members: seq<Member>): string {
    HASH_PREFIX + digests.identity(IdentityOf(c, members))
  }

  /** `claim_dataset_build`: a new row, or an update of one that is not READY. */
  function Claim(digests: Digests, c: Config, members: seq<Member>, prior: Option<Catalog>): Option<Catalog> {
    var hash := ManifestHash(digests, c, members);
    match prior
    case None =>
      Some(Catalog(DatasetIdOf(hash), DATASET_TYPE, SCHEMA_VERSION, SELECTOR_VERSION, Building, c.cohortStart, c.cutoff,
                   c.maturity, hash, "", "", "", Summarize(members)))
    case Some(row) =>
      if row.status == IsReady then None
      else Some(row.(status := Building, cutoff := c.cutoff, maturity := c.maturity, runId := "", uri := "", sha256 := "",
                     stats := Summarize(members)))
  }

  /** `mark_dataset_ready` and `mark_dataset_failed`; neither looks at the status. */
  function MarkReady(row: Catalog, runId: string, uri: string, sha256: string): Catalog {
    row.(status := IsReady, runId := runId, uri := uri, sha256 := sha256)
  }

  function MarkFailed(row: Catalog): Catalog {
    row.(status := HasFailed)
  }

  /** What `write_artifacts` leaves to be downloaded. */
  function Written(digests: Digests, columns: seq<string>, c: Config, members: seq<Member>, rows: seq<FrameRow>): Downloaded {
    var hash, file := ManifestHash(digests, c, members), File(columns, rows);
    Downloaded(
      Some(Manifest(DatasetIdOf(hash), hash, Some(IdentityOf(c, members)), Some(c.cutoff), Some(Summarize(members)),
                    Some(Artifact(ARTIFACT_PATH, HASH_PREFIX + digests.file(file), |rows|, columns)))),
      Some(file))
  }

  /** An earlier row for the same manifest hash was made from the same identity. */
  ghost predicate SameDataset(digests: Digests, c: Config, members: seq<Member>, row: Catalog) {
    && row.manifestHash == ManifestHash(digests, c, members) && row.datasetId == DatasetIdOf(row.manifestHash)
    && row.datasetType == DATASET_TYPE && row.schemaVersion == SCHEMA_VERSION && row.selectorVersion == SELECTOR_VERSION
    && row.cohortStart == c.cohortStart
  }

  lemma {:induction false} FrameCounts(datasetId: string, keys: seq<string>, members: seq<Member>)
    requires FrameOf(datasetId, keys, members).Ok?
    ensures var rows := FrameOf(datasetId, keys, members).value;
            && Count(rows, RowIsLabelled()) == Count(members, IsLabelled())
            && Count(rows, RowHasValue(1)) == Count(members, HasValue(1))
            && Count(rows, RowHasValue(-1)) == Count(members, HasValue(-1))
    decreases |members|
  {
    if members != [] {
      var most := members[..|members| - 1];
      FrameCounts(datasetId, keys, most);
      var rows := FrameOf(datasetId, keys, members).value;
      assert rows[..|rows| - 1] == FrameOf(datasetId, keys, most).value;
    }
  }

  lemma {:induction false} CellsAreFinite(features: map<string, RawValue>, keys: seq<string>)
    requires (forall key | key in keys :: key in features) && NormalizeAll(features, keys).Some?
    ensures forall c | c in NormalizeAll(features, keys).value :: !IsInfinite(c)
    decreases |keys|
  {
    if keys != [] { CellsAreFinite(features, keys[..|keys| - 1]); }
  }

  /** A frame built from well-labelled members, one per sample, has sound rows. */
  lemma BuiltRowsAreSound(datasetId: string, keys: seq<string>, members: seq<Member>)
    requires FrameOf(datasetId, keys, members).Ok? && members != []
    requires forall k | 0 <= k < |members| :: CheckLabel(members[k].actual).None?
    requires OneMemberPerSample(members)
    ensures SoundRows(datasetId, FrameOf(datasetId, keys, members).value)
  {
    FrameRowsFollowMembers(datasetId, keys, members);
    var rows := FrameOf(datasetId, keys, members).value;
    forall k | 0 <= k < |rows|
      ensures rows[k].datasetId == datasetId && WellLabelled(rows[k].actual)
              && HowMany(rows[k].features, (c: Cell) => c == Missing) == rows[k].missingCount && rows[k].sampleId == members[k].sampleId
              && forall c | c in rows[k].features :: c != Infinite
    {
      MissingAreCounted(rows[k].features);
      CheckLabelAcceptsExactly(members[k].actual);
      assert FrameRowOf(datasetId, keys, members[k]) == Ok(rows[k]);
      CellsAreFinite(members[k].features.value, keys);
    }
  }

  /** Members a dataset can be built from: labelled consistently, one per sample. */
  ghost predicate Buildable(digests: Digests, keys: seq<string>, c: Config, members: seq<Member>) {
    && members != []
    && (forall k | 0 <= k < |members| :: CheckLabel(members[k].actual).None?)
    && OneMemberPerSample(members)
    && FrameOf(DatasetIdOf(ManifestHash(digests, c, members)), keys, members).Ok?
  }

  function BuiltRows(digests: Digests, keys: seq<string>, c: Config, members: seq<Member>): seq<FrameRow>
    requires Buildable(digests, keys, c, members)
  {
    FrameOf(DatasetIdOf(ManifestHash(digests, c, members)), keys, members).value
  }

  function FileDigest(digests: Digests, columns: seq<string>, rows: seq<FrameRow>): string {
    HASH_PREFIX + digests.file(File(columns, rows))
  }

  /** The row was claimed for these members. */
  ghost predicate ClaimedFor(digests: Digests, c: Config, members: seq<Member>, row: Catalog) {
    SameDataset(digests, c, members, row) && row.maturity == c.maturity && row.stats == Summarize(members)
  }

  lemma ClaimIsForMembers(digests: Digests, c: Config, members: seq<Member>, prior: Option<Catalog>)
    requires prior.Some? ==> SameDataset(digests, c, members, prior.value)
    ensures Claim(digests, c, members, prior).Some? ==>
              ClaimedFor(digests, c, members, Claim(digests, c, members, prior).value)
              && Claim(digests, c, members, prior).value.cutoff == c.cutoff
  {
  }

  lemma PrefixedIsNotEmpty(s: string)
    ensures HASH_PREFIX + s != ""
  {
    assert |HASH_PREFIX + s| >= 10;
  }

  lemma WrittenPassesContract(digests: Digests, columns: seq<string>, c: Config, members: seq<Member>, rows: seq<FrameRow>, row: Catalog)
    requires SameDataset(digests, c, members, row) && row.sha256 == FileDigest(digests, columns, rows)
    ensures var d := Written(digests, columns, c, members, rows);
            CheckContract(digests, columns, d.manifest.value, d.file.value, row).None?
  {
  }

  /** The recount over a built frame is the summary of its members. */
  lemma RecountIsSummary(datasetId: string, keys: seq<string>, members: seq<Member>)
    requires members != [] && FrameOf(datasetId, keys, members).Ok?
    ensures var rows := FrameOf(datasetId, keys, members).value; rows != [] && Recount(rows) == Summarize(members)
  {
    FrameRowsFollowMembers(datasetId, keys, members);
    FrameCounts(datasetId, keys, members);
  }

  lemma SameStatsPass(manifest: Manifest, row: Catalog, rows: seq<FrameRow>)
    requires rows != [] && manifest.stats == Some(Recount(rows)) && row.stats == Recount(rows)
    ensures CheckStats(manifest, row, rows).None?
  {
  }

  /** What was written for a claimed row loads exactly when the row has the build's cutoff. */
  lemma WrittenLoadsExactlyWhen(digests: Digests, columns: seq<string>, keys: seq<string>, c: Config, members: seq<Member>,
                                row: Catalog, runId: string, uri: string)
    requires Buildable(digests, keys, c, members) && ClaimedFor(digests, c, members, row) && runId != "" && uri != ""
    ensures var rows := BuiltRows(digests, keys, c, members);
            var sha256 := FileDigest(digests, columns, rows);
            Load(digests, columns, MarkReady(row, runId, uri, sha256), Written(digests, columns, c, members, rows))
            == if IsClose(row.cutoff, c.cutoff) then Ok(Loaded(row.datasetId, row.manifestHash, sha256, rows)) else Err(TimeMismatch)
  {
    var rows := BuiltRows(digests, keys, c, members);
    var ready := MarkReady(row, runId, uri, FileDigest(digests, columns, rows));
    PrefixedIsNotEmpty(digests.file(File(columns, rows)));
    PrefixedIsNotEmpty(digests.identity(IdentityOf(c, members)));
    WrittenPassesContract(digests, columns, c, members, rows, ready);
    BuiltRowsAreSound(row.datasetId, keys, members);
    RowChecksPassExactly(row.datasetId, rows);
    RecountIsSummary(row.datasetId, keys, members);
    SameStatsPass(Written(digests, columns, c, members, rows).manifest.value, ready, rows);
  }

  /** A build, from any state of the catalog that lets it claim the dataset, that marks its
      row ready loads back: the frame, exactly. */
  lemma BuiltLoads(digests: Digests, columns: seq<string>, keys: seq<string>, c: Config, members: seq<Member>,
                   prior: Option<Catalog>, runId: string, uri: string)
    requires Buildable(digests, keys, c, members) && runId != "" && uri != ""
    requires prior.Some? ==> SameDataset(digests, c, members, prior.value)
    requires Claim(digests, c, members, prior).Some?
    ensures var rows := BuiltRows(digests, keys, c, members);
            var row := Claim(digests, c, members, prior).value;
            var sha256 := FileDigest(digests, columns, rows);
            Load(digests, columns, MarkReady(row, runId, uri, sha256), Written(digests, columns, c, members, rows))
            == Ok(Loaded(row.datasetId, row.manifestHash, sha256, rows))
  {
    ClaimIsForMembers(digests, c, members, prior);
    WrittenLoadsExactlyWhen(digests, columns, keys, c, members, Claim(digests, c, members, prior).value, runId, uri);
  }
}
