/** `promote_candidate_to_release.py` as a sequence of atomic steps, one per external
    call. A step may fail; after the pre-reads a failure runs the script's handler. */
module PromoteScript {
  import opened Common
  import opened Rollout

  datatype Args = Args(
    modelName: string, targetAlias: Alias, slot: string, keepSourceAlias: bool, resetTraffic: bool)

  datatype Pc =
    | ReadMetadata | ReadState | MarkReloading | Reload | Verify | RecordEvent
    | MoveAlias | ClearSource | ResetTraffic | MarkDeployed | WriteState
    | RecordFailure | MarkFailed

  /** The local variables of `main`. `previous` is `previous_from_payload(...)`. */
  datatype Local =
    | Starting(args: Args, id: RequestId)
    | Running(args: Args, request: Request, threshold: real, pc: Pc,
              metadata: Metadata, state: Option<StateRow>, previous: Metadata)
    | Finished(succeeded: bool)

  /** `validate_deployment_request`. */
  predicate Promotable(r: Request, args: Args) {
    && r.evalType == ServingGate
    && r.modelName == args.modelName
    && r.targetAlias == args.targetAlias
    && r.evalStatus == Passed
    && r.approval == Approved
    && r.status in {CanaryReady, ReleaseReloading}
  }

  /** `validate_mlflow_source` and `load_run_threshold` both succeed. */
  predicate SourceRegistered(reg: Registry, r: Request, args: Args) {
    && (args.modelName, r.sourceVersion) in reg.runOf
    && reg.runOf[(args.modelName, r.sourceVersion)] == r.sourceRunId
    && r.sourceRunId in reg.thresholdOf
  }

  /** `validate_release_precondition`: unreadable metadata and an unknown version pass. */
  predicate ReleasePrecondition(m: Metadata, r: Request) {
    VersionOf(m).Some? ==>
      VersionOf(m) == Some(r.sourceVersion) || VersionOf(m) == r.previousVersion
  }

  /** `build_reload_payload`. */
  function Payload(p: Local): ReloadPayload
    requires p.Running?
  {
    ReloadPayload(p.request.id, p.args.modelName, p.request.sourceVersion, p.request.sourceRunId,
                  p.threshold, VersionOf(p.metadata), RunIdOf(p.metadata))
  }

  function Event(p: Local, succeeded: bool): ReloadEvent
    requires p.Running?
  {
    ReloadEvent(p.request.id, p.args.slot, succeeded, VersionOf(p.previous), p.request.sourceVersion)
  }

  function DeployedRow(p: Local): StateRow
    requires p.Running?
  {
    StateRow(p.args.modelName, p.args.slot, p.args.targetAlias,
             Some(p.request.id), p.request.sourceVersion, p.request.sourceRunId, p.threshold,
             ActiveRequestIdFromState(p.state, p.previous),
             VersionOf(p.previous), RunIdOf(p.previous), ThresholdOf(p.previous),
             Promotion, Some(p.request.id))
  }

  function Goto(p: Local, pc: Pc): Local
    requires p.Running?
  {
    p.(pc := pc)
  }

  /** Next program point after a call in the guarded part: `then` on success, else `handler`. */
  function After(p: Local, ok: bool, next: Pc, handler: Pc): Local
    requires p.Running?
  {
    Goto(p, if ok then next else handler)
  }

  function Step(reg: Registry, w: World, p: Local, o: Outcome, now: real): (World, Local)
  {
    match p
    case Finished(_) => (w, p)
    case Starting(args, id) =>
      if o.Works? && id in w.requests && Promotable(w.requests[id], args)
         && SourceRegistered(reg, w.requests[id], args) then
        var r := w.requests[id];
        (w, Running(args, r, reg.thresholdOf[r.sourceRunId], ReadMetadata, Unreadable, None, Unreadable))
      else
        (w, Finished(false))
    case Running(args, r, threshold, pc, metadata, state, previous) =>
      match pc
      case ReadMetadata =>
        var m := if o.Works? then Read(w.release) else Unreadable;
        (w, Goto(p, ReadState).(metadata := m, previous := m))
      case ReadState =>
        if o.Works? then (w, Goto(p, MarkReloading).(state := StateOf(w, args.modelName, args.slot)))
        else (w, Finished(false))
      case MarkReloading =>
        if !ReleasePrecondition(metadata, r) then (w, Goto(p, RecordFailure))
        else
          (if o.Down? then w else MarkIn(w, r.id, ReleaseReloading, now),
           After(p, MarkSeenOk(w, r.id, o), Reload, RecordFailure))
      case Reload =>
        var next := ReloadModelVersion(reg, w.release, Payload(p));
        if o.Down? || next.None? then (w, Goto(p, RecordFailure))
        else if o.AnswerLost? then (w.(release := next.value), Goto(p, RecordFailure))
        else (w.(release := next.value), Goto(p, Verify).(previous := Read(w.release)))
      case Verify =>
        var ok := o.Works? && RuntimeIs(w.release, args.modelName, r.sourceVersion, r.sourceRunId, threshold, args.slot);
        (w, After(p, ok, RecordEvent, RecordFailure))
      case RecordEvent =>
        (if o.Down? then w else AppendEvent(w, Event(p, true)), After(p, o.Works?, MoveAlias, RecordFailure))
      case MoveAlias =>
        (if o.Down? then w else SetAlias(w, args.modelName, args.targetAlias, r.sourceVersion),
         After(p, o.Works?, ClearSource, MarkFailed))
      case ClearSource =>
        (if o.Down? then w
         else ClearSourceAlias(w, args.modelName, r.sourceAlias, r.sourceVersion, args.targetAlias, args.keepSourceAlias),
         After(p, o.Works?, ResetTraffic, MarkFailed))
      case ResetTraffic =>
        if !args.resetTraffic then (w, Goto(p, MarkDeployed))
        else (if o.Down? then w else w.(canaryPercent := 0), After(p, o.Works?, MarkDeployed, MarkFailed))
      case MarkDeployed =>
        (if o.Down? then w else MarkIn(w, r.id, Deployed, now),
         After(p, MarkSeenOk(w, r.id, o), WriteState, MarkFailed))
      case WriteState =>
        var w' := if o.Down? then w else UpsertState(w, DeployedRow(p));
        (w', if o.Works? then Finished(true) else Goto(p, MarkFailed))
      case RecordFailure =>
        (if o.Down? then w else AppendEvent(w, Event(p, false)),
         if o.Works? then Goto(p, MarkFailed) else Finished(false))
      case MarkFailed =>
        (if o.Down? then w else MarkIn(w, r.id, Failed, now), Finished(false))
  }

  /** The status a program point writes to the request. */
  function MarkOf(pc: Pc): Option<Status> {
    match pc
    case MarkReloading => Some(ReleaseReloading)
    case MarkDeployed => Some(Deployed)
    case MarkFailed => Some(Failed)
    case _ => None
  }

  /** What a step does to the requests: nothing, or the mark of its program point. */
  predicate RequestsAfter(w: World, p: Local, now: real, w': World) {
    || w'.requests == w.requests
    || (p.Running? && MarkOf(p.pc).Some? && w'.requests == MarkIn(w, p.request.id, MarkOf(p.pc).value, now).requests)
  }

  lemma StepRequests(reg: Registry, w: World, p: Local, o: Outcome, now: real)
    ensures RequestsAfter(w, p, now, Step(reg, w, p, o, now).0)
  {
  }

  /** A run keeps its arguments, its request row and its threshold. */
  predicate SameRun(p: Local, p': Local) {
    && (p.Finished? ==> p'.Finished?)
    && (p.Running? && p'.Running? ==> p'.args == p.args && p'.request == p.request && p'.threshold == p.threshold)
  }

  lemma StepKeepsRun(reg: Registry, w: World, p: Local, o: Outcome, now: real)
    ensures SameRun(p, Step(reg, w, p, o, now).1)
  {
  }

  /** The first step reads the request from the stores. */
  lemma StartReadsRequest(reg: Registry, w: World, p: Local, o: Outcome, now: real)
    requires p.Starting?
    ensures var p' := Step(reg, w, p, o, now).1;
            p'.Running? ==>
              && p'.args == p.args && p'.pc == ReadMetadata && p.id in w.requests && p'.request == w.requests[p.id]
              && Promotable(p'.request, p.args) && SourceRegistered(reg, p'.request, p.args)
              && p'.threshold == reg.thresholdOf[p'.request.sourceRunId]
  {
  }

  /** How far a run has come; every step lowers it. */
  function Rank(p: Local): nat {
    match p
    case Starting(_, _) => 14
    case Finished(_) => 0
    case Running(_, _, _, pc, _, _, _) =>
      match pc
      case ReadMetadata => 13 case ReadState => 12 case MarkReloading => 11 case Reload => 10
      case Verify => 9 case RecordEvent => 8 case MoveAlias => 7 case ClearSource => 6
      case ResetTraffic => 5 case MarkDeployed => 4 case WriteState => 3
      case RecordFailure => 2 case MarkFailed => 1
  }

  lemma StepLowersRank(reg: Registry, w: World, p: Local, o: Outcome, now: real)
    requires !p.Finished?
    ensures Rank(Step(reg, w, p, o, now).1) < Rank(p)
  {
  }

  /** Runs to the end. `faults` and `clock` give the outcome and the time of the call made
      at each rank; no program point is visited twice in one run. */
  function Run(reg: Registry, w: World, p: Local, faults: nat -> Outcome, clock: nat -> real): (World, bool)
    decreases Rank(p)
  {
    match p
    case Finished(ok) => (w, ok)
    case _ =>
      StepLowersRank(reg, w, p, faults(Rank(p)), clock(Rank(p)));
      var (w', p') := Step(reg, w, p, faults(Rank(p)), clock(Rank(p)));
      Run(reg, w', p', faults, clock)
  }
}
