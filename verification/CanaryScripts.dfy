/** The scripts around the release promotion as step sequences: the canary deployment and
    its rollback, the alias promotion, and the manual `rolled_back` mark. */
module DeployCanaryScript {
  import opened Common
  import opened Rollout

  datatype Args = Args(modelName: string, targetAlias: Alias, slot: string)

  datatype Pc =
    | ReadMetadata | ReadState | MarkReloading | Reload | Verify | RecordEvent | MarkReady | WriteState
    | RecordFailure | MarkFailed

  datatype Local =
    | Starting(args: Args, id: RequestId)
    | Running(args: Args, request: Request, threshold: real, pc: Pc,
              state: Option<StateRow>, previous: Metadata)
    | Finished(succeeded: bool)

  /** `validate_deployment_request`. */
  predicate Deployable(r: Request, args: Args) {
    && r.evalType == ServingGate
    && r.modelName == args.modelName && r.targetAlias == args.targetAlias
    && r.evalStatus == Passed && r.approval == Approved
    && r.status in {NotStarted, Promoted, CanaryReloading, CanaryReady}
  }

  predicate SourceRegistered(reg: Registry, r: Request, args: Args) {
    && (args.modelName, r.sourceVersion) in reg.runOf
    && reg.runOf[(args.modelName, r.sourceVersion)] == r.sourceRunId
    && r.sourceRunId in reg.thresholdOf
  }

  function Event(p: Local, succeeded: bool): ReloadEvent
    requires p.Running?
  {
    ReloadEvent(p.request.id, p.args.slot, succeeded, VersionOf(p.previous), p.request.sourceVersion)
  }

  function ReadyRow(p: Local): StateRow
    requires p.Running?
  {
    StateRow(p.args.modelName, p.args.slot, p.args.targetAlias,
             Some(p.request.id), p.request.sourceVersion, p.request.sourceRunId, p.threshold,
             ActiveRequestIdFromState(p.state, p.previous),
             VersionOf(p.previous), RunIdOf(p.previous), ThresholdOf(p.previous),
             CanaryReload, Some(p.request.id))
  }

  /** The canary reload names no expected current version. */
  function Payload(p: Local): ReloadPayload
    requires p.Running?
  {
    ReloadPayload(p.request.id, p.args.modelName, p.request.sourceVersion, p.request.sourceRunId,
                  p.threshold, None, None)
  }

  function After(p: Local, ok: bool, next: Pc): Local
    requires p.Running?
  {
    p.(pc := if ok then next else RecordFailure)
  }

  function Step(reg: Registry, w: World, p: Local, o: Outcome, now: real): (World, Local) {
    match p
    case Finished(_) => (w, p)
    case Starting(args, id) =>
      if o.Works? && id in w.requests && Deployable(w.requests[id], args)
         && SourceRegistered(reg, w.requests[id], args) then
        var r := w.requests[id];
        (w, Running(args, r, reg.thresholdOf[r.sourceRunId], ReadMetadata, None, Unreadable))
      else
        (w, Finished(false))
    case Running(args, r, threshold, pc, state, previous) =>
      match pc
      case ReadMetadata =>
        (w, p.(pc := ReadState, previous := if o.Works? then Read(w.canary) else Unreadable))
      case ReadState =>
        if o.Works? then (w, p.(pc := MarkReloading, state := StateOf(w, args.modelName, args.slot)))
        else (w, Finished(false))
      case MarkReloading =>
        (if o.Down? then w else MarkIn(w, r.id, CanaryReloading, now), After(p, MarkSeenOk(w, r.id, o), Reload))
      case Reload =>
        var next := ReloadModelVersion(reg, w.canary, Payload(p));
        if o.Down? || next.None? then (w, p.(pc := RecordFailure))
        else if o.AnswerLost? then (w.(canary := next.value), p.(pc := RecordFailure))
        else (w.(canary := next.value), p.(pc := Verify, previous := Read(w.canary)))
      case Verify =>
        (w, After(p, o.Works? && RuntimeIs(w.canary, args.modelName, r.sourceVersion, r.sourceRunId, threshold, args.slot),
                  RecordEvent))
      case RecordEvent =>
        (if o.Down? then w else AppendEvent(w, Event(p, true)), After(p, o.Works?, MarkReady))
      case MarkReady =>
        (if o.Down? then w else MarkIn(w, r.id, CanaryReady, now), After(p, MarkSeenOk(w, r.id, o), WriteState))
      case WriteState =>
        (if o.Down? then w else UpsertState(w, ReadyRow(p)),
         if o.Works? then Finished(true) else p.(pc := RecordFailure))
      case RecordFailure =>
        (if o.Down? then w else AppendEvent(w, Event(p, false)),
         if o.Works? then p.(pc := MarkFailed) else Finished(false))
      case MarkFailed =>
        (if o.Down? then w else MarkIn(w, r.id, Failed, now), Finished(false))
  }

  /** How far a run has come; every step lowers it. */
  function Rank(p: Local): nat {
    match p
    case Starting(_, _) => 11
    case Finished(_) => 0
    case Running(_, _, _, pc, _, _) =>
      match pc
      case ReadMetadata => 10 case ReadState => 9 case MarkReloading => 8 case Reload => 7 case Verify => 6
      case RecordEvent => 5 case MarkReady => 4 case WriteState => 3 case RecordFailure => 2 case MarkFailed => 1
  }

  lemma StepLowersRank(reg: Registry, w: World, p: Local, o: Outcome, now: real)
    requires !p.Finished?
    ensures Rank(Step(reg, w, p, o, now).1) < Rank(p)
  {
  }

  function Run(reg: Registry, w: World, p: Local, faults: nat -> Outcome, clock: nat -> real): (World, bool)
    decreases Rank(p)
  {
    match p
    case Finished(ok) => (w, ok)
    case _ =>
      StepLowersRank(reg, w, p, faults(Rank(p)), clock(Rank(p)));
      var (w', p') := Step(reg, w, p, faults(Rank(p)), clock(Rank(p)));
      Run(reg, w', p', faults, clock)
  }
}

module RollbackCanaryScript {
  import opened Common
  import opened Rollout

  datatype Args = Args(modelName: string, targetAlias: Alias, slot: string, reloadPrevious: bool, notes: bool)

  datatype Pc =
    | ResetTraffic | ReadMetadata | Reload | Verify | RecordEvent | AppendNote | MarkRequest | RecordFailure

  datatype Local =
    | Starting(args: Args, id: RequestId)
    | Running(args: Args, request: Request, threshold: real, pc: Pc, previous: Metadata)
    | Finished(succeeded: bool)

  /** `validate_deployment_request`: the evaluation is not checked again here. */
  predicate Eligible(r: Request, args: Args) {
    && r.modelName == args.modelName && r.targetAlias == args.targetAlias
    && r.approval == Approved
    && r.status in {Promoted, CanaryReloading, CanaryReady, ReleaseReloading, Failed}
  }

  predicate PreviousRegistered(reg: Registry, r: Request, args: Args) {
    && r.previousVersion.Some? && r.previousRunId.Some?
    && (args.modelName, r.previousVersion.value) in reg.runOf
    && reg.runOf[(args.modelName, r.previousVersion.value)] == r.previousRunId.value
    && r.previousRunId.value in reg.thresholdOf
  }

  function PreviousThreshold(reg: Registry, r: Request): real {
    if r.previousRunId.Some? && r.previousRunId.value in reg.thresholdOf
    then reg.thresholdOf[r.previousRunId.value] else 0.0
  }

  function Event(p: Local, succeeded: bool): ReloadEvent
    requires p.Running?
  {
    ReloadEvent(p.request.id, p.args.slot, succeeded, VersionOf(p.previous), p.request.previousVersion.GetOr(""))
  }

  function Payload(p: Local): ReloadPayload
    requires p.Running?
  {
    ReloadPayload(p.request.id, p.args.modelName, p.request.previousVersion.GetOr(""),
                  p.request.previousRunId.GetOr(""), p.threshold, None, None)
  }

  function After(p: Local, ok: bool, next: Pc): Local
    requires p.Running?
  {
    if ok then p.(pc := next) else Finished(false)
  }

  function Step(reg: Registry, w: World, p: Local, o: Outcome, now: real): (World, Local) {
    match p
    case Finished(_) => (w, p)
    case Starting(args, id) =>
      if o.Works? && id in w.requests && Eligible(w.requests[id], args)
         && (args.reloadPrevious ==> PreviousRegistered(reg, w.requests[id], args))
      then (w, Running(args, w.requests[id], PreviousThreshold(reg, w.requests[id]), ResetTraffic, Unreadable))
      else (w, Finished(false))
    case Running(args, r, threshold, pc, previous) =>
      match pc
      case ResetTraffic =>
        (if o.Down? then w else w.(canaryPercent := 0),
         After(p, o.Works?, if args.reloadPrevious then ReadMetadata else AppendNote))
      case ReadMetadata =>
        (w, p.(pc := Reload, previous := if o.Works? then Read(w.canary) else Unreadable))
      case Reload =>
        var next := ReloadModelVersion(reg, w.canary, Payload(p));
        if o.Down? || next.None? then (w, p.(pc := RecordFailure))
        else if o.AnswerLost? then (w.(canary := next.value), p.(pc := RecordFailure))
        else (w.(canary := next.value), p.(pc := Verify, previous := Read(w.canary)))
      case Verify =>
        var ok := o.Works? && RuntimeIs(w.canary, args.modelName, r.previousVersion.GetOr(""),
                                        r.previousRunId.GetOr(""), threshold, args.slot);
        (w, p.(pc := if ok then RecordEvent else RecordFailure))
      case RecordEvent =>
        (if o.Down? then w else AppendEvent(w, Event(p, true)),
         p.(pc := if o.Works? then AppendNote else RecordFailure))
      case AppendNote => (w, After(p, !args.notes || o.Works?, MarkRequest))
      case MarkRequest =>
        (if o.Down? then w else MarkIn(w, r.id, RolledBack, now), Finished(MarkSeenOk(w, r.id, o)))
      case RecordFailure =>
        (if o.Down? then w else AppendEvent(w, Event(p, false)), Finished(false))
  }

  function Rank(p: Local): nat {
    match p
    case Starting(_, _) => 9
    case Finished(_) => 0
    case Running(_, _, _, pc, _) =>
      match pc
      case ResetTraffic => 8 case ReadMetadata => 7 case Reload => 6 case Verify => 5 case RecordEvent => 4
      case AppendNote => 3 case MarkRequest => 2 case RecordFailure => 1
  }

  lemma StepLowersRank(reg: Registry, w: World, p: Local, o: Outcome, now: real)
    requires !p.Finished?
    ensures Rank(Step(reg, w, p, o, now).1) < Rank(p)
  {
  }

  function Run(reg: Registry, w: World, p: Local, faults: nat -> Outcome, clock: nat -> real): (World, bool)
    decreases Rank(p)
  {
    match p
    case Finished(ok) => (w, ok)
    case _ =>
      StepLowersRank(reg, w, p, faults(Rank(p)), clock(Rank(p)));
      var (w', p') := Step(reg, w, p, faults(Rank(p)), clock(Rank(p)));
      Run(reg, w', p', faults, clock)
  }
}

module PromoteAliasScript {
  import opened Common
  import opened Rollout

  datatype Args = Args(modelName: string, targetAlias: Alias, keepSourceAlias: bool)

  datatype Pc = MoveAlias | ClearSource | MarkRequest

  datatype Local =
    | Starting(args: Args, id: RequestId)
    | Running(args: Args, request: Request, pc: Pc)
    | Finished(succeeded: bool)

  /** `validate_request`, with the source resolved from the request's own version. */
  predicate Valid(reg: Registry, r: Request, args: Args) {
    && r.evalType == ServingGate && r.evalStatus == Passed && r.approval == Approved
    && r.status !in {Deployed, Failed, RolledBack, Superseded}
    && (args.modelName, r.sourceVersion) in reg.runOf
    && reg.runOf[(args.modelName, r.sourceVersion)] == r.sourceRunId
    && r.targetAlias == args.targetAlias
  }

  function Step(reg: Registry, w: World, p: Local, o: Outcome, now: real): (World, Local) {
    match p
    case Finished(_) => (w, p)
    case Starting(args, id) =>
      if o.Works? && id in w.requests && Valid(reg, w.requests[id], args)
      then (w, Running(args, w.requests[id], MoveAlias))
      else (w, Finished(false))
    case Running(args, r, pc) =>
      match pc
      case MoveAlias =>
        (if o.Down? then w else SetAlias(w, args.modelName, args.targetAlias, r.sourceVersion),
         if o.Works? then p.(pc := ClearSource) else Finished(false))
      case ClearSource =>
        (if o.Down? then w
         else ClearSourceAlias(w, args.modelName, r.sourceAlias, r.sourceVersion, args.targetAlias, args.keepSourceAlias),
         if o.Works? then p.(pc := MarkRequest) else Finished(false))
      case MarkRequest =>
        (if o.Down? || r.id !in w.requests then w
         else w.(requests := w.requests[r.id := MarkPromoted(w.requests[r.id], now)]),
         Finished(MarkSeenOk(w, r.id, o)))
  }
}

/** mark_model_deployment_rolled_back.py reads, checks and updates in one transaction. */
module ManualMarkScript {
  import opened Common
  import opened Rollout

  function Step(w: World, id: RequestId, expectedSource: Option<Version>, o: Outcome, now: real): World {
    if o.Down? || id !in w.requests then w
    else if w.requests[id].status !in {Promoted, CanaryReloading, CanaryReady, ReleaseReloading, Deployed, Failed} then w
    else if expectedSource.Some? && expectedSource.value != w.requests[id].sourceVersion then w
    else w.(requests := w.requests[id := MarkRolledBackManually(w.requests[id], now)])
  }
}
