/** `rollback_release_deployment.py` as a sequence of atomic steps, one per external
    call. A failure before the reload leaves everything as it was; a later one records
    a failed reload event at most and never changes the request's status. */
module RollbackScript {
  import opened Common
  import opened Rollout

  datatype Args = Args(modelName: string, targetAlias: Alias, slot: string, resetTraffic: bool, notes: bool)

  datatype Pc =
    | ReadRequest | CheckAlias | ResetTraffic | ReadMetadata | Reload | Verify | RecordEvent
    | MoveAlias | AppendNote | MarkRequest | WriteState | RecordFailure

  datatype Local =
    | Starting(args: Args)
    | Running(args: Args, state: StateRow, request: Option<Request>, pc: Pc,
              metadata: Metadata, previous: Metadata)
    | Finished(succeeded: bool)

  /** `validate_runtime_state_for_rollback`. */
  predicate StateAllowsRollback(s: StateRow, args: Args) {
    && s.modelName == args.modelName && s.slot == args.slot && s.targetAlias == args.targetAlias
    && s.lastOperation != Rollback
    && s.previousVersion.Some? && s.previousRunId.Some? && s.previousThreshold.Some?
  }

  /** `validate_deployment_request`. */
  predicate RequestAllowsRollback(r: Request, args: Args, s: StateRow) {
    && r.modelName == args.modelName && r.targetAlias == args.targetAlias
    && r.approval == Approved && r.status == Deployed
    && r.sourceVersion == s.activeVersion && r.sourceRunId == s.activeRunId
  }

  /** `validate_model_version`. */
  predicate RegisteredAs(reg: Registry, modelName: string, v: Version, run: RunId) {
    (modelName, v) in reg.runOf && reg.runOf[(modelName, v)] == run
  }

  predicate VersionsRegistered(reg: Registry, args: Args, s: StateRow) {
    && RegisteredAs(reg, args.modelName, s.activeVersion, s.activeRunId)
    && s.previousVersion.Some? && s.previousRunId.Some?
    && RegisteredAs(reg, args.modelName, s.previousVersion.value, s.previousRunId.value)
  }

  /** `validate_alias_precondition`; an alias that cannot be read passes. */
  predicate AliasPrecondition(w: World, args: Args, s: StateRow, o: Outcome) {
    o.Works? && (args.modelName, args.targetAlias) in w.aliases ==>
      var v := w.aliases[(args.modelName, args.targetAlias)];
      v == s.activeVersion || Some(v) == s.previousVersion
  }

  /** `validate_release_precondition`; here an unknown version does not pass. */
  predicate ReleasePrecondition(m: Metadata, s: StateRow) {
    VersionOf(m).Some? && (VersionOf(m) == Some(s.activeVersion) || VersionOf(m) == s.previousVersion)
  }

  /** `build_reload_payload`. */
  function Payload(p: Local): ReloadPayload
    requires p.Running? && p.request.Some?
    requires p.state.previousVersion.Some? && p.state.previousRunId.Some? && p.state.previousThreshold.Some?
  {
    ReloadPayload(p.request.value.id, p.args.modelName,
                  p.state.previousVersion.value, p.state.previousRunId.value, p.state.previousThreshold.value,
                  VersionOf(p.metadata), RunIdOf(p.metadata))
  }

  function Event(p: Local, succeeded: bool): ReloadEvent
    requires p.Running? && p.request.Some? && p.state.previousVersion.Some?
  {
    ReloadEvent(p.request.value.id, p.args.slot, succeeded, VersionOf(p.previous), p.state.previousVersion.value)
  }

  /** The recorded state with active and previous exchanged. */
  function RolledBackRow(p: Local): StateRow
    requires p.Running? && p.request.Some?
    requires p.state.previousVersion.Some? && p.state.previousRunId.Some? && p.state.previousThreshold.Some?
  {
    var s := p.state;
    StateRow(p.args.modelName, p.args.slot, p.args.targetAlias,
             s.previousRequestId, s.previousVersion.value, s.previousRunId.value, s.previousThreshold.value,
             Some(p.request.value.id), Some(s.activeVersion), Some(s.activeRunId), Some(s.activeThreshold),
             Rollback, Some(p.request.value.id))
  }

  /** What the checks before each program point have established about the locals. */
  predicate Checked(p: Local) {
    p.Running? ==>
      && StateAllowsRollback(p.state, p.args)
      && (p.request.Some? <==> p.pc != ReadRequest)
      && (p.request.Some? ==> RequestAllowsRollback(p.request.value, p.args, p.state))
      && (p.pc in {Reload, Verify, RecordEvent, MoveAlias, AppendNote, MarkRequest, WriteState, RecordFailure} ==>
            ReleasePrecondition(p.metadata, p.state))
  }

  function After(p: Local, ok: bool, next: Pc): Local
    requires p.Running?
  {
    if ok then p.(pc := next) else Finished(false)
  }

  function Step(reg: Registry, w: World, p: Local, o: Outcome, now: real): (r: (World, Local))
    requires Checked(p)
    ensures Checked(r.1)
  {
    match p
    case Finished(_) => (w, p)
    case Starting(args) =>
      var s := StateOf(w, args.modelName, args.slot);
      if o.Works? && s.Some? && StateAllowsRollback(s.value, args)
      then (w, Running(args, s.value, None, ReadRequest, Unreadable, Unreadable))
      else (w, Finished(false))
    case Running(args, s, request, pc, metadata, previous) =>
      match pc
      case ReadRequest =>
        if o.Works? && s.activeRequestId.Some? && s.activeRequestId.value in w.requests
           && RequestAllowsRollback(w.requests[s.activeRequestId.value], args, s)
           && VersionsRegistered(reg, args, s)
        then (w, p.(request := Some(w.requests[s.activeRequestId.value]), pc := CheckAlias))
        else (w, Finished(false))
      case CheckAlias => (w, After(p, AliasPrecondition(w, args, s, o), ResetTraffic))
      case ResetTraffic =>
        if !args.resetTraffic then (w, p.(pc := ReadMetadata))
        else (if o.Down? then w else w.(canaryPercent := 0), After(p, o.Works?, ReadMetadata))
      case ReadMetadata =>
        if o.Works? && ReleasePrecondition(Read(w.release), s)
        then (w, p.(metadata := Read(w.release), previous := Read(w.release), pc := Reload))
        else (w, Finished(false))
      case Reload =>
        var next := ReloadModelVersion(reg, w.release, Payload(p));
        if o.Down? || next.None? then (w, p.(pc := RecordFailure))
        else if o.AnswerLost? then (w.(release := next.value), p.(pc := RecordFailure))
        else (w.(release := next.value), p.(previous := Read(w.release), pc := Verify))
      case Verify =>
        var ok := o.Works? && RuntimeIs(w.release, args.modelName, s.previousVersion.value,
                                        s.previousRunId.value, s.previousThreshold.value, args.slot);
        (w, p.(pc := if ok then RecordEvent else RecordFailure))
      case RecordEvent =>
        (if o.Down? then w else AppendEvent(w, Event(p, true)),
         p.(pc := if o.Works? then MoveAlias else RecordFailure))
      case MoveAlias =>
        (if o.Down? then w else SetAlias(w, args.modelName, args.targetAlias, s.previousVersion.value),
         After(p, o.Works?, AppendNote))
      case AppendNote =>
        (w, After(p, !args.notes || o.Works?, MarkRequest))
      case MarkRequest =>
        (if o.Down? then w else MarkIn(w, request.value.id, RolledBack, now),
         After(p, MarkSeenOk(w, request.value.id, o), WriteState))
      case WriteState =>
        (if o.Down? then w else UpsertState(w, RolledBackRow(p)), Finished(o.Works?))
      case RecordFailure =>
        (if o.Down? then w else AppendEvent(w, Event(p, false)), Finished(false))
  }

  function Rank(p: Local): nat {
    match p
    case Starting(_) => 13
    case Finished(_) => 0
    case Running(_, _, _, pc, _, _) =>
      match pc
      case ReadRequest => 12 case CheckAlias => 11 case ResetTraffic => 10 case ReadMetadata => 9
      case Reload => 8 case Verify => 7 case RecordEvent => 6 case MoveAlias => 5 case AppendNote => 4
      case MarkRequest => 3 case WriteState => 2 case RecordFailure => 1
  }

  lemma StepLowersRank(reg: Registry, w: World, p: Local, o: Outcome, now: real)
    requires Checked(p) && !p.Finished?
    ensures Rank(Step(reg, w, p, o, now).1) < Rank(p)
  {
  }

  /** Runs to the end; `faults` and `clock` are indexed by rank, as in PromoteScript. */
  function Run(reg: Registry, w: World, p: Local, faults: nat -> Outcome, clock: nat -> real): (World, bool)
    requires Checked(p)
    decreases Rank(p)
  {
    match p
    case Finished(ok) => (w, ok)
    case _ =>
      StepLowersRank(reg, w, p, faults(Rank(p)), clock(Rank(p)));
      var (w', p') := Step(reg, w, p, faults(Rank(p)), clock(Rank(p)));
      Run(reg, w', p', faults, clock)
  }
}
