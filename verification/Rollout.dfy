/** The stores the deployment scripts share, and the atomic operations on them:
    rows of `model_deployment_requests`, rows of `model_runtime_deployment_state`,
    the two live model runtimes, the model aliases and the reload audit log. */
module Rollout {
  import opened Common

  type Version = string
  type RunId = string
  type RequestId = string
  type Alias = string

  datatype Status =
    | NotStarted | Promoted | CanaryReloading | CanaryReady | ReleaseReloading
    | Deployed | Failed | RolledBack | Superseded

  datatype Approval = Pending | Approved | Rejected

  datatype EvalStatus = Passed | NotPassed | InsufficientData | Skipped | Unknown

  datatype EvalType = ServingGate | OtherEvaluation

  datatype Request = Request(
    id: RequestId,
    modelName: string,
    targetAlias: Alias,
    sourceAlias: Option<Alias>,
    sourceVersion: Version,
    sourceRunId: RunId,
    previousVersion: Option<Version>,
    previousRunId: Option<RunId>,
    evalType: EvalType,
    evalStatus: EvalStatus,
    approval: Approval,
    status: Status,
    promotedAt: Option<real>,
    canaryReloadStartedAt: Option<real>,
    canaryReadyAt: Option<real>,
    releaseReloadStartedAt: Option<real>,
    deployedAt: Option<real>,
    failedAt: Option<real>,
    rolledBackAt: Option<real>)

  /** What `/metadata` reports of a model server. */
  datatype Runtime = Runtime(
    modelName: string,
    version: Option<Version>,
    runId: Option<RunId>,
    threshold: Option<real>,
    slot: string,
    reloadRequestId: Option<RequestId>)

  datatype Operation = Bootstrap | CanaryReload | Promotion | Rollback

  datatype StateRow = StateRow(
    modelName: string,
    slot: string,
    targetAlias: Alias,
    activeRequestId: Option<RequestId>,
    activeVersion: Version,
    activeRunId: RunId,
    activeThreshold: real,
    previousRequestId: Option<RequestId>,
    previousVersion: Option<Version>,
    previousRunId: Option<RunId>,
    previousThreshold: Option<real>,
    lastOperation: Operation,
    lastOperationRequestId: Option<RequestId>)

  datatype ReloadEvent = ReloadEvent(
    requestId: RequestId,
    slot: string,
    succeeded: bool,
    previousVersion: Option<Version>,
    newVersion: Version)

  /** The model registry: versions map to fixed run ids, runs to fixed thresholds. */
  datatype Registry = Registry(
    runOf: map<(string, Version), RunId>,
    thresholdOf: map<RunId, real>)

  datatype World = World(
    requests: map<RequestId, Request>,
    states: map<(string, string), StateRow>,
    release: Runtime,
    canary: Runtime,
    aliases: map<(string, Alias), Version>,
    canaryPercent: int,
    events: seq<ReloadEvent>)

  /** How an external call ends: it worked, it took effect but the caller saw an
      error (the answer was lost), or it had no effect and the caller saw an error. */
  datatype Outcome = Works | AnswerLost | Down

  const TOLERANCE: real := 0.000000000001

  predicate SameThreshold(a: real, b: real) {
    -TOLERANCE <= a - b <= TOLERANCE
  }

  // ---------------------------------------------------------------- requests

  function Coalesce(current: Option<real>, now: real): Option<real> {
    Some(current.GetOr(now))
  }

  /** MARK_ROLLOUT_STATUS_SQL: the first time a status is reached is kept. */
  function MarkStatus(r: Request, s: Status, now: real): Request {
    r.(status := s,
       canaryReloadStartedAt :=
         if s == CanaryReloading then Coalesce(r.canaryReloadStartedAt, now) else r.canaryReloadStartedAt,
       canaryReadyAt :=
         if s == CanaryReady then Coalesce(r.canaryReadyAt, now) else r.canaryReadyAt,
       releaseReloadStartedAt :=
         if s == ReleaseReloading then Coalesce(r.releaseReloadStartedAt, now) else r.releaseReloadStartedAt,
       deployedAt := if s == Deployed then Coalesce(r.deployedAt, now) else r.deployedAt,
       failedAt := if s == Failed then Coalesce(r.failedAt, now) else r.failedAt,
       rolledBackAt := if s == RolledBack then Coalesce(r.rolledBackAt, now) else r.rolledBackAt)
  }

  /** MARK_PROMOTED_SQL. */
  function MarkPromoted(r: Request, now: real): Request {
    r.(status := Promoted, promotedAt := Coalesce(r.promotedAt, now))
  }

  /** MARK_ROLLED_BACK_SQL of the manual script: the time is overwritten. */
  function MarkRolledBackManually(r: Request, now: real): Request {
    r.(status := RolledBack, rolledBackAt := Some(now))
  }

  /** A time that is set keeps its value. */
  predicate KeepsTime(t: Option<real>, t': Option<real>) {
    t.Some? ==> t' == t
  }

  predicate KeepsTimes(r: Request, r': Request) {
    && KeepsTime(r.promotedAt, r'.promotedAt) && KeepsTime(r.canaryReloadStartedAt, r'.canaryReloadStartedAt)
    && KeepsTime(r.canaryReadyAt, r'.canaryReadyAt) && KeepsTime(r.releaseReloadStartedAt, r'.releaseReloadStartedAt)
    && KeepsTime(r.deployedAt, r'.deployedAt) && KeepsTime(r.failedAt, r'.failedAt) && KeepsTime(r.rolledBackAt, r'.rolledBackAt)
  }

  /** The manual mark overwrites a time exactly when the request was rolled back before. */
  lemma ManualMarkKeepsTimesExactlyWhen(r: Request, now: real)
    ensures KeepsTimes(r, MarkRolledBackManually(r, now)) <==> r.rolledBackAt in {None, Some(now)}
  {
  }

  function MarkIn(w: World, id: RequestId, s: Status, now: real): World {
    if id in w.requests
    then w.(requests := w.requests[id := MarkStatus(w.requests[id], s, now)])
    else w
  }

  /** The caller of a status update sees an error when no row was updated. */
  predicate MarkSeenOk(w: World, id: RequestId, o: Outcome) {
    o == Works && id in w.requests
  }

  // ---------------------------------------------------------------- runtimes

  datatype ReloadPayload = ReloadPayload(
    requestId: RequestId,
    modelName: string,
    version: Version,
    expectedRunId: RunId,
    threshold: real,
    expectedCurrentVersion: Option<Version>,
    expectedCurrentRunId: Option<RunId>)

  /** A Python truth test on an optional string: None and "" are both false. */
  predicate Truthy(s: Option<string>) {
    s.Some? && s.value != ""
  }

  /** `_validate_current_runtime`: an expectation that is None or "" is not checked. */
  predicate CurrentRuntimeExpected(rt: Runtime, p: ReloadPayload) {
    && (p.modelName != "" ==> rt.modelName == p.modelName)
    && (Truthy(p.expectedCurrentVersion) ==> rt.version == p.expectedCurrentVersion)
    && (Truthy(p.expectedCurrentRunId) ==> rt.runId == p.expectedCurrentRunId)
  }

  predicate ThresholdAccepted(t: real) {
    0.0 <= t <= 1.0
  }

  /** `/admin/reload-model-version`: the runtime that replaces `rt`, or None when the
      server answers with an error. */
  function ReloadModelVersion(reg: Registry, rt: Runtime, p: ReloadPayload): (next: Option<Runtime>)
    ensures next.Some? ==>
              && next.value.version == Some(p.version)
              && next.value.threshold == Some(p.threshold)
              && next.value.slot == rt.slot
              && next.value.runId.Some?
              && CurrentRuntimeExpected(rt, p) && ThresholdAccepted(p.threshold)
  {
    var modelName := if p.modelName != "" then p.modelName else rt.modelName;
    if !ThresholdAccepted(p.threshold) || !CurrentRuntimeExpected(rt, p) then
      None
    else if (modelName, p.version) !in reg.runOf then
      None
    else if p.expectedRunId != "" && reg.runOf[(modelName, p.version)] != p.expectedRunId then
      None
    else
      Some(Runtime(modelName, Some(p.version), Some(reg.runOf[(modelName, p.version)]),
                   Some(p.threshold), rt.slot, Some(p.requestId)))
  }

  /** What a script knows of a runtime: nothing, or one answer of `/metadata`. */
  datatype Metadata = Unreadable | Read(runtime: Runtime)

  function VersionOf(m: Metadata): Option<Version> {
    if m.Read? then m.runtime.version else None
  }

  function RunIdOf(m: Metadata): Option<RunId> {
    if m.Read? then m.runtime.runId else None
  }

  function ThresholdOf(m: Metadata): Option<real> {
    if m.Read? then m.runtime.threshold else None
  }

  /** `validate_runtime_metadata` / `validate_canary_metadata`. */
  predicate RuntimeIs(rt: Runtime, modelName: string, v: Version, run: RunId, threshold: real, slot: string) {
    && rt.modelName == modelName
    && rt.version == Some(v)
    && rt.runId == Some(run)
    && rt.slot == slot
    && rt.threshold.Some? && SameThreshold(rt.threshold.value, threshold)
  }

  // ------------------------------------------------------------- state rows

  /** `active_request_id_from_state`: the request recorded as active, but only when
      the recorded row describes the runtime that was just replaced. */
  function ActiveRequestIdFromState(state: Option<StateRow>, m: Metadata): Option<RequestId> {
    if state.None? || m.Unreadable? then None
    else if m.runtime.version != Some(state.value.activeVersion) then None
    else if m.runtime.runId != Some(state.value.activeRunId) then None
    else if m.runtime.threshold.None? then None
    else if !SameThreshold(m.runtime.threshold.value, state.value.activeThreshold) then None
    else state.value.activeRequestId
  }

  function StateOf(w: World, modelName: string, slot: string): Option<StateRow> {
    if (modelName, slot) in w.states then Some(w.states[(modelName, slot)]) else None
  }

  function UpsertState(w: World, row: StateRow): World {
    w.(states := w.states[(row.modelName, row.slot) := row])
  }

  /** `seed_runtime_deployment_state_if_missing`, run when a model server starts. */
  function SeedState(w: World, rt: Runtime, alias: Option<Alias>): World {
    if rt.version.None? || rt.runId.None? || rt.threshold.None? || (rt.modelName, rt.slot) in w.states then
      w
    else
      UpsertState(w, StateRow(rt.modelName, rt.slot,
                              if Truthy(alias) then alias.value else "champion",
                              None, rt.version.value, rt.runId.value, rt.threshold.value,
                              None, None, None, None, Bootstrap, None))
  }

  // ----------------------------------------------------------------- aliases

  function SetAlias(w: World, modelName: string, a: Alias, v: Version): World {
    w.(aliases := w.aliases[(modelName, a) := v])
  }

  /** `clear_source_alias_if_current`. */
  function ClearSourceAlias(w: World, modelName: string, source: Option<Alias>, v: Version, target: Alias, keep: bool): World {
    if keep || source.None? || source.value == target then w
    else if (modelName, source.value) !in w.aliases || w.aliases[(modelName, source.value)] != v then w
    else w.(aliases := w.aliases - {(modelName, source.value)})
  }

  function AppendEvent(w: World, e: ReloadEvent): World {
    w.(events := w.events + [e])
  }

  // -------------------------------------------------- requests tied to a gate

  datatype Evaluation = Evaluation(
    runId: string, passed: bool, modelName: string,
    candidateVersion: Version, candidateRunId: RunId,
    championVersion: Version, championRunId: RunId)

  datatype Candidate = Candidate(
    sourceAlias: Option<Alias>, version: Version, runId: RunId, latestEvaluation: Option<string>)

  /** `validate_evaluation_for_deployment`. */
  predicate EvaluationFits(e: Evaluation, modelName: string, c: Candidate, champion: (Version, RunId)) {
    && e.passed
    && e.modelName == modelName && e.candidateVersion == c.version && e.candidateRunId == c.runId
    && c.latestEvaluation == Some(e.runId)
    && e.championVersion == champion.0 && e.championRunId == champion.1
  }

  /** record_serving_candidate_deployment_request.py with the default rollout status:
      the row that is inserted, or None when the evaluation does not fit. The recorded
      previous version is the champion at the time of recording. */
  function RecordRequest(reg: Registry, w: World, e: Evaluation, modelName: string, c: Candidate,
                         championAlias: Alias, approval: Approval, id: RequestId): (r: Option<Request>)
    ensures r.Some? ==>
              && r.value.id == id && r.value.modelName == e.modelName == modelName && r.value.targetAlias == championAlias
              && r.value.evalType == ServingGate && r.value.evalStatus == Passed && e.passed
              && r.value.approval == approval && r.value.status == NotStarted
    ensures r.Some? ==>
              && c.latestEvaluation == Some(e.runId)
              && r.value.sourceVersion == e.candidateVersion == c.version && r.value.sourceRunId == e.candidateRunId == c.runId
    ensures r.Some? ==>
              && (modelName, championAlias) in w.aliases && (modelName, e.championVersion) in reg.runOf
              && r.value.previousVersion == Some(e.championVersion) == Some(w.aliases[(modelName, championAlias)])
              && r.value.previousRunId == Some(e.championRunId) == Some(reg.runOf[(modelName, e.championVersion)])
    ensures r.Some? ==>
              && r.value.promotedAt == r.value.canaryReloadStartedAt == r.value.canaryReadyAt == r.value.releaseReloadStartedAt == None
              && r.value.deployedAt == r.value.failedAt == r.value.rolledBackAt == None
  {
    if (modelName, championAlias) !in w.aliases then None
    else
      var v := w.aliases[(modelName, championAlias)];
      if (modelName, v) !in reg.runOf then None
      else if !EvaluationFits(e, modelName, c, (v, reg.runOf[(modelName, v)])) then None
      else
        Some(Request(id, modelName, championAlias, c.sourceAlias, c.version, c.runId,
                     Some(e.championVersion), Some(e.championRunId), ServingGate, Passed,
                     approval, NotStarted, None, None, None, None, None, None, None))
  }
}
