/** Uninterrupted promotions and rollbacks of the release slot: when each succeeds, what it
    leaves, and that a rollback undoes the promotion before it. */
module PromoteThenRollback {
  import opened Common
  import opened Rollout
  import P = PromoteScript
  import R = RollbackScript

  const NO_FAULTS: nat -> Outcome := (_: nat) => Works

  // -------------------------------------------------------------- promotion

  /** Exactly what an uninterrupted promotion needs of the stores. */
  predicate CanPromote(reg: Registry, w: World, args: P.Args, id: RequestId) {
    && id in w.requests && w.requests[id].id == id
    && P.Promotable(w.requests[id], args)
    && P.SourceRegistered(reg, w.requests[id], args)
    && P.ReleasePrecondition(Read(w.release), w.requests[id])
    && ThresholdAccepted(reg.thresholdOf[w.requests[id].sourceRunId])
    && w.release.modelName == args.modelName
    && w.release.slot == args.slot
  }

  function StartedLocal(reg: Registry, w: World, args: P.Args, id: RequestId): P.Local
    requires id in w.requests && w.requests[id].sourceRunId in reg.thresholdOf
  {
    P.Running(args, w.requests[id], reg.thresholdOf[w.requests[id].sourceRunId],
              P.MarkReloading, Read(w.release), StateOf(w, args.modelName, args.slot), Read(w.release))
  }

  function ServedSource(reg: Registry, w: World, args: P.Args, id: RequestId): Runtime
    requires CanPromote(reg, w, args, id)
  {
    var r := w.requests[id];
    Runtime(args.modelName, Some(r.sourceVersion), Some(r.sourceRunId), Some(reg.thresholdOf[r.sourceRunId]),
            args.slot, Some(id))
  }

  function Deploying(w: World, id: RequestId, clock: nat -> real): map<RequestId, Request>
    requires id in w.requests
  {
    w.requests[id := MarkStatus(w.requests[id], ReleaseReloading, clock(11))]
  }

  /** The stores after the reload has been verified and recorded. */
  function ReloadedWorld(reg: Registry, w: World, args: P.Args, id: RequestId, clock: nat -> real): World
    requires CanPromote(reg, w, args, id)
  {
    w.(requests := Deploying(w, id, clock),
       release := ServedSource(reg, w, args, id),
       events := w.events + [P.Event(StartedLocal(reg, w, args, id), true)])
  }

  /** The aliases after a promotion: the champion moved, a matching candidate alias gone. */
  function PromotedAliases(w: World, args: P.Args, id: RequestId): map<(string, Alias), Version>
    requires id in w.requests
  {
    var r := w.requests[id];
    ClearSourceAlias(SetAlias(w, args.modelName, args.targetAlias, r.sourceVersion),
                     args.modelName, r.sourceAlias, r.sourceVersion, args.targetAlias, args.keepSourceAlias).aliases
  }

  /** The stores an uninterrupted promotion leaves. */
  function PromotedWorld(reg: Registry, w: World, args: P.Args, id: RequestId, clock: nat -> real): World
    requires CanPromote(reg, w, args, id)
  {
    ReloadedWorld(reg, w, args, id, clock).(
      aliases := PromotedAliases(w, args, id),
      canaryPercent := if args.resetTraffic then 0 else w.canaryPercent,
      requests := w.requests[id := MarkStatus(Deploying(w, id, clock)[id], Deployed, clock(4))],
      states := w.states[(args.modelName, args.slot) := P.DeployedRow(StartedLocal(reg, w, args, id))])
  }

  lemma PromoteAdvances(reg: Registry, w: World, p: P.Local, w': World, p': P.Local, clock: nat -> real)
    requires !p.Finished? && P.Step(reg, w, p, Works, clock(P.Rank(p))) == (w', p')
    ensures P.Run(reg, w, p, NO_FAULTS, clock) == P.Run(reg, w', p', NO_FAULTS, clock)
  {
    assert NO_FAULTS(P.Rank(p)) == Works;
  }

  lemma PromoteReads(reg: Registry, w: World, args: P.Args, id: RequestId, clock: nat -> real)
    requires id in w.requests && P.Promotable(w.requests[id], args) && P.SourceRegistered(reg, w.requests[id], args)
    ensures P.Run(reg, w, P.Starting(args, id), NO_FAULTS, clock)
         == P.Run(reg, w, StartedLocal(reg, w, args, id), NO_FAULTS, clock)
  {
    var p := StartedLocal(reg, w, args, id);
    var p13 := p.(pc := P.ReadMetadata, metadata := Unreadable, state := None, previous := Unreadable);
    var p12 := p.(pc := P.ReadState, state := None);
    PromoteAdvances(reg, w, P.Starting(args, id), w, p13, clock);
    PromoteAdvances(reg, w, p13, w, p12, clock);
    PromoteAdvances(reg, w, p12, w, p, clock);
  }

  lemma PromoteReloads(reg: Registry, w: World, args: P.Args, id: RequestId, clock: nat -> real)
    requires CanPromote(reg, w, args, id)
    ensures P.Run(reg, w, StartedLocal(reg, w, args, id), NO_FAULTS, clock)
         == P.Run(reg, ReloadedWorld(reg, w, args, id, clock),
                  StartedLocal(reg, w, args, id).(pc := P.MoveAlias), NO_FAULTS, clock)
  {
    var p := StartedLocal(reg, w, args, id);
    var w1 := MarkIn(w, id, ReleaseReloading, clock(11));
    var w2 := w1.(release := ServedSource(reg, w, args, id));
    PromoteAdvances(reg, w, p, w1, p.(pc := P.Reload), clock);
    assert ReloadModelVersion(reg, w1.release, P.Payload(p)) == Some(w2.release);
    PromoteAdvances(reg, w1, p.(pc := P.Reload), w2, p.(pc := P.Verify), clock);
    PromoteAdvances(reg, w2, p.(pc := P.Verify), w2, p.(pc := P.RecordEvent), clock);
    PromoteAdvances(reg, w2, p.(pc := P.RecordEvent), ReloadedWorld(reg, w, args, id, clock), p.(pc := P.MoveAlias), clock);
  }

  lemma PromoteMovesAliases(reg: Registry, w: World, args: P.Args, id: RequestId, clock: nat -> real)
    requires CanPromote(reg, w, args, id)
    ensures P.Run(reg, ReloadedWorld(reg, w, args, id, clock),
                  StartedLocal(reg, w, args, id).(pc := P.MoveAlias), NO_FAULTS, clock)
         == P.Run(reg, ReloadedWorld(reg, w, args, id, clock).(aliases := PromotedAliases(w, args, id)),
                  StartedLocal(reg, w, args, id).(pc := P.ResetTraffic), NO_FAULTS, clock)
  {
    var p := StartedLocal(reg, w, args, id);
    var w3 := ReloadedWorld(reg, w, args, id, clock);
    var w4 := SetAlias(w3, args.modelName, args.targetAlias, w.requests[id].sourceVersion);
    var w5 := w3.(aliases := PromotedAliases(w, args, id));
    PromoteAdvances(reg, w3, p.(pc := P.MoveAlias), w4, p.(pc := P.ClearSource), clock);
    PromoteAdvances(reg, w4, p.(pc := P.ClearSource), w5, p.(pc := P.ResetTraffic), clock);
  }

  lemma PromoteFinishes(reg: Registry, w: World, args: P.Args, id: RequestId, clock: nat -> real)
    requires CanPromote(reg, w, args, id)
    ensures P.Run(reg, ReloadedWorld(reg, w, args, id, clock).(aliases := PromotedAliases(w, args, id)),
                  StartedLocal(reg, w, args, id).(pc := P.ResetTraffic), NO_FAULTS, clock)
         == (PromotedWorld(reg, w, args, id, clock), true)
  {
    var p := StartedLocal(reg, w, args, id);
    var w5 := ReloadedWorld(reg, w, args, id, clock).(aliases := PromotedAliases(w, args, id));
    var w6 := w5.(canaryPercent := if args.resetTraffic then 0 else w.canaryPercent);
    PromoteAdvances(reg, w5, p.(pc := P.ResetTraffic), w6, p.(pc := P.MarkDeployed), clock);
    PromoteDeploys(reg, w, args, id, clock, w6);
  }

  lemma PromoteDeploys(reg: Registry, w: World, args: P.Args, id: RequestId, clock: nat -> real, w6: World)
    requires CanPromote(reg, w, args, id)
    requires w6 == ReloadedWorld(reg, w, args, id, clock).(aliases := PromotedAliases(w, args, id),
                                                           canaryPercent := if args.resetTraffic then 0 else w.canaryPercent)
    ensures P.Run(reg, w6, StartedLocal(reg, w, args, id).(pc := P.MarkDeployed), NO_FAULTS, clock)
         == (PromotedWorld(reg, w, args, id, clock), true)
  {
    var p := StartedLocal(reg, w, args, id);
    var w7 := w6.(requests := PromotedWorld(reg, w, args, id, clock).requests);
    DeployedRequests(reg, w, args, id, clock);
    assert MarkSeenOk(w6, id, Works);
    PromoteAdvances(reg, w6, p.(pc := P.MarkDeployed), w7, p.(pc := P.WriteState), clock);
    PromoteAdvances(reg, w7, p.(pc := P.WriteState), UpsertState(w7, P.DeployedRow(p)), P.Finished(true), clock);
  }

  lemma DeployedRequests(reg: Registry, w: World, args: P.Args, id: RequestId, clock: nat -> real)
    requires CanPromote(reg, w, args, id)
    ensures forall w6: World {:trigger MarkIn(w6, id, Deployed, clock(4))} | w6.requests == Deploying(w, id, clock) ::
              MarkIn(w6, id, Deployed, clock(4)) == w6.(requests := PromotedWorld(reg, w, args, id, clock).requests)
  {
    var before := Deploying(w, id, clock);
    assert before[id := MarkStatus(before[id], Deployed, clock(4))] == PromotedWorld(reg, w, args, id, clock).requests;
  }

  /** An uninterrupted promotion that may start leaves exactly `PromotedWorld`. */
  lemma PromoteSucceeds(reg: Registry, w: World, args: P.Args, id: RequestId, clock: nat -> real)
    requires CanPromote(reg, w, args, id)
    ensures P.Run(reg, w, P.Starting(args, id), NO_FAULTS, clock) == (PromotedWorld(reg, w, args, id, clock), true)
  {
    PromoteReads(reg, w, args, id, clock);
    PromoteReloads(reg, w, args, id, clock);
    PromoteMovesAliases(reg, w, args, id, clock);
    PromoteFinishes(reg, w, args, id, clock);
  }

  /** ... and one that may not start never succeeds. */
  lemma PromoteFails(reg: Registry, w: World, args: P.Args, id: RequestId, clock: nat -> real)
    requires id in w.requests ==> w.requests[id].id == id
    requires !CanPromote(reg, w, args, id)
    ensures !P.Run(reg, w, P.Starting(args, id), NO_FAULTS, clock).1
  {
    if id in w.requests && P.Promotable(w.requests[id], args) && P.SourceRegistered(reg, w.requests[id], args) {
      var p := StartedLocal(reg, w, args, id);
      PromoteReads(reg, w, args, id, clock);
      if P.ReleasePrecondition(p.metadata, p.request) {
        var w1 := MarkIn(w, id, ReleaseReloading, clock(11));
        PromoteAdvances(reg, w, p, w1, p.(pc := P.Reload), clock);
        var next := ReloadModelVersion(reg, w1.release, P.Payload(p));
        if next.Some? {
          var w2 := w1.(release := next.value);
          PromoteAdvances(reg, w1, p.(pc := P.Reload), w2, p.(pc := P.Verify), clock);
          PromoteAdvances(reg, w2, p.(pc := P.Verify), w2, p.(pc := P.RecordFailure), clock);
          HandlerFails(reg, w2, p.(pc := P.RecordFailure), clock);
        } else {
          PromoteAdvances(reg, w1, p.(pc := P.Reload), w1, p.(pc := P.RecordFailure), clock);
          HandlerFails(reg, w1, p.(pc := P.RecordFailure), clock);
        }
      } else {
        PromoteAdvances(reg, w, p, w, p.(pc := P.RecordFailure), clock);
        HandlerFails(reg, w, p.(pc := P.RecordFailure), clock);
      }
    } else {
      PromoteAdvances(reg, w, P.Starting(args, id), w, P.Finished(false), clock);
    }
  }

  lemma HandlerFails(reg: Registry, w: World, p: P.Local, clock: nat -> real)
    requires p.Running? && p.pc == P.RecordFailure
    ensures !P.Run(reg, w, p, NO_FAULTS, clock).1
  {
    var w1 := AppendEvent(w, P.Event(p, false));
    PromoteAdvances(reg, w, p, w1, p.(pc := P.MarkFailed), clock);
    PromoteAdvances(reg, w1, p.(pc := P.MarkFailed), MarkIn(w1, p.request.id, Failed, clock(1)), P.Finished(false), clock);
  }

  /** `CanPromote` says exactly when an uninterrupted promotion succeeds. */
  lemma PromoteSucceedsExactlyWhen(reg: Registry, w: World, args: P.Args, id: RequestId, clock: nat -> real)
    requires id in w.requests ==> w.requests[id].id == id
    ensures P.Run(reg, w, P.Starting(args, id), NO_FAULTS, clock).1 <==> CanPromote(reg, w, args, id)
  {
    if CanPromote(reg, w, args, id) {
      PromoteSucceeds(reg, w, args, id, clock);
    } else {
      PromoteFails(reg, w, args, id, clock);
    }
  }

  // --------------------------------------------------------------- rollback

  /** Every check the rollback script makes before it contacts the release server. */
  predicate RollbackEnabled(reg: Registry, w: World, args: R.Args) {
    var s := StateOf(w, args.modelName, args.slot);
    && s.Some? && R.StateAllowsRollback(s.value, args)
    && s.value.activeRequestId.Some? && s.value.activeRequestId.value in w.requests
    && var r := w.requests[s.value.activeRequestId.value];
    && r.id == s.value.activeRequestId.value
    && R.RequestAllowsRollback(r, args, s.value)
    && R.VersionsRegistered(reg, args, s.value)
    && R.AliasPrecondition(w, args, s.value, Works)
    && R.ReleasePrecondition(Read(w.release), s.value)
    && w.release.modelName == args.modelName && w.release.slot == args.slot
  }

  function ReloadLocal(reg: Registry, w: World, args: R.Args): (p: R.Local)
    requires RollbackEnabled(reg, w, args)
    ensures R.Checked(p)
  {
    var s := StateOf(w, args.modelName, args.slot).value;
    R.Running(args, s, Some(w.requests[s.activeRequestId.value]), R.Reload, Read(w.release), Read(w.release))
  }

  /** The stores just before the rollback's reload. */
  function QuietWorld(w: World, args: R.Args): World {
    if args.resetTraffic then w.(canaryPercent := 0) else w
  }

  /** The stores an uninterrupted, enabled rollback leaves. */
  function RolledBackWorld(reg: Registry, w: World, args: R.Args, clock: nat -> real): World
    requires RollbackEnabled(reg, w, args)
  {
    var p := ReloadLocal(reg, w, args);
    var s := p.state;
    QuietWorld(w, args).(
      release := Restoring(args, s),
      events := w.events + [R.Event(p, true)],
      aliases := w.aliases[(args.modelName, args.targetAlias) := s.previousVersion.value],
      requests := w.requests[p.request.value.id := MarkStatus(p.request.value, RolledBack, clock(3))],
      states := w.states[(args.modelName, args.slot) := R.RolledBackRow(p)])
  }

  /** The runtime a rollback of `s` loads. */
  function Restoring(args: R.Args, s: StateRow): Runtime {
    Runtime(args.modelName, s.previousVersion, s.previousRunId, s.previousThreshold, args.slot, s.activeRequestId)
  }

  lemma RollbackAdvances(reg: Registry, w: World, p: R.Local, w': World, p': R.Local, clock: nat -> real)
    requires R.Checked(p) && R.Checked(p')
    requires !p.Finished? && R.Step(reg, w, p, Works, clock(R.Rank(p))) == (w', p')
    ensures R.Run(reg, w, p, NO_FAULTS, clock) == R.Run(reg, w', p', NO_FAULTS, clock)
  {
    assert NO_FAULTS(R.Rank(p)) == Works;
  }

  lemma RollbackReads(reg: Registry, w: World, args: R.Args, clock: nat -> real)
    requires RollbackEnabled(reg, w, args)
    ensures R.Run(reg, w, R.Starting(args), NO_FAULTS, clock)
         == R.Run(reg, QuietWorld(w, args), ReloadLocal(reg, w, args), NO_FAULTS, clock)
  {
    var p := ReloadLocal(reg, w, args);
    var p12 := p.(request := None, pc := R.ReadRequest, metadata := Unreadable, previous := Unreadable);
    var p11 := p.(pc := R.CheckAlias, metadata := Unreadable, previous := Unreadable);
    RollbackAdvances(reg, w, R.Starting(args), w, p12, clock);
    RollbackAdvances(reg, w, p12, w, p11, clock);
    RollbackAdvances(reg, w, p11, w, p11.(pc := R.ResetTraffic), clock);
    RollbackAdvances(reg, w, p11.(pc := R.ResetTraffic), QuietWorld(w, args), p11.(pc := R.ReadMetadata), clock);
    RollbackAdvances(reg, QuietWorld(w, args), p11.(pc := R.ReadMetadata), QuietWorld(w, args), p, clock);
  }

  lemma RollbackRestores(reg: Registry, w: World, args: R.Args, clock: nat -> real)
    requires RollbackEnabled(reg, w, args)
    requires ThresholdAccepted(w.states[(args.modelName, args.slot)].previousThreshold.value)
    ensures R.Run(reg, QuietWorld(w, args), ReloadLocal(reg, w, args), NO_FAULTS, clock)
         == (RolledBackWorld(reg, w, args, clock), true)
  {
    var p := ReloadLocal(reg, w, args);
    var s := p.state;
    var w0 := QuietWorld(w, args);
    var w1 := w0.(release := Restoring(args, s));
    var w2 := w1.(events := w.events + [R.Event(p, true)]);
    assert ReloadModelVersion(reg, w0.release, R.Payload(p)) == Some(w1.release);
    RollbackAdvances(reg, w0, p, w1, p.(pc := R.Verify), clock);
    RollbackAdvances(reg, w1, p.(pc := R.Verify), w1, p.(pc := R.RecordEvent), clock);
    RollbackAdvances(reg, w1, p.(pc := R.RecordEvent), w2, p.(pc := R.MoveAlias), clock);
    RollbackMarks(reg, w, args, w2, clock);
  }

  lemma RollbackMarks(reg: Registry, w: World, args: R.Args, w2: World, clock: nat -> real)
    requires RollbackEnabled(reg, w, args)
    requires w2.requests == w.requests && w2.aliases == w.aliases && w2.states == w.states
    ensures var p := ReloadLocal(reg, w, args);
            R.Run(reg, w2, p.(pc := R.MoveAlias), NO_FAULTS, clock)
            == (w2.(aliases := RolledBackWorld(reg, w, args, clock).aliases,
                    requests := RolledBackWorld(reg, w, args, clock).requests,
                    states := RolledBackWorld(reg, w, args, clock).states), true)
  {
    var p := ReloadLocal(reg, w, args);
    var w3 := w2.(aliases := RolledBackWorld(reg, w, args, clock).aliases);
    var w4 := w3.(requests := RolledBackWorld(reg, w, args, clock).requests);
    RollbackAdvances(reg, w2, p.(pc := R.MoveAlias), w3, p.(pc := R.AppendNote), clock);
    RollbackAdvances(reg, w3, p.(pc := R.AppendNote), w3, p.(pc := R.MarkRequest), clock);
    RollbackAdvances(reg, w3, p.(pc := R.MarkRequest), w4, p.(pc := R.WriteState), clock);
    RollbackAdvances(reg, w4, p.(pc := R.WriteState), UpsertState(w4, R.RolledBackRow(p)), R.Finished(true), clock);
  }

  /** An enabled rollback succeeds exactly when the release server accepts the threshold it
      must restore; otherwise it leaves only the traffic reset and one failed reload event. */
  lemma EnabledRollback(reg: Registry, w: World, args: R.Args, clock: nat -> real)
    requires RollbackEnabled(reg, w, args)
    ensures R.Run(reg, w, R.Starting(args), NO_FAULTS, clock)
         == if ThresholdAccepted(w.states[(args.modelName, args.slot)].previousThreshold.value)
            then (RolledBackWorld(reg, w, args, clock), true)
            else (AppendEvent(QuietWorld(w, args), R.Event(ReloadLocal(reg, w, args), false)), false)
  {
    RollbackReads(reg, w, args, clock);
    if ThresholdAccepted(w.states[(args.modelName, args.slot)].previousThreshold.value) {
      RollbackRestores(reg, w, args, clock);
    } else {
      var p := ReloadLocal(reg, w, args);
      var w0 := QuietWorld(w, args);
      RollbackAdvances(reg, w0, p, w0, p.(pc := R.RecordFailure), clock);
      RollbackAdvances(reg, w0, p.(pc := R.RecordFailure), AppendEvent(w0, R.Event(p, false)), R.Finished(false), clock);
    }
  }

  // ------------------------------------------------------------- round trip

  /** Recorded state, champion alias and live runtime describe one fully known version. */
  predicate Agreed(reg: Registry, w: World, modelName: string, alias: Alias, slot: string) {
    && w.release.modelName == modelName && w.release.slot == slot
    && w.release.version.Some? && w.release.runId.Some? && w.release.threshold.Some?
    && R.RegisteredAs(reg, modelName, w.release.version.value, w.release.runId.value)
    && (modelName, alias) in w.aliases && w.aliases[(modelName, alias)] == w.release.version.value
    && (modelName, slot) in w.states
    && var s := w.states[(modelName, slot)];
    && s.modelName == modelName && s.slot == slot
    && s.activeVersion == w.release.version.value
    && s.activeRunId == w.release.runId.value
    && s.activeThreshold == w.release.threshold.value
  }

  function Undo(args: P.Args, notes: bool): R.Args {
    R.Args(args.modelName, args.targetAlias, args.slot, args.resetTraffic, notes)
  }

  /** A promotion keeps the three in agreement, deploys its request and no other, and
      records as previous exactly what was active and live before it. */
  lemma PromotionIsRecorded(reg: Registry, w: World, args: P.Args, id: RequestId, clock: nat -> real)
    requires Agreed(reg, w, args.modelName, args.targetAlias, args.slot)
    requires CanPromote(reg, w, args, id)
    ensures var w1 := PromotedWorld(reg, w, args, id, clock);
            && Agreed(reg, w1, args.modelName, args.targetAlias, args.slot)
            && w1.release.version == Some(w.requests[id].sourceVersion)
            && SameRequestsBut(w, w1, id) && w1.requests[id].status == Deployed
            && var was, s := w.states[(args.modelName, args.slot)], w1.states[(args.modelName, args.slot)];
            && s.activeRequestId == Some(id)
            && s.previousRequestId == was.activeRequestId
            && s.previousVersion == w.release.version
            && s.previousRunId == w.release.runId
            && s.previousThreshold == w.release.threshold
  {
    var p := StartedLocal(reg, w, args, id);
    var w1 := PromotedWorld(reg, w, args, id, clock);
    assert w1.states[(args.modelName, args.slot)] == P.DeployedRow(p);
    assert w1.aliases[(args.modelName, args.targetAlias)] == w.requests[id].sourceVersion;
  }

  /** After any promotion from agreed stores, every check of the rollback passes. */
  lemma PromotionEnablesRollback(reg: Registry, w: World, args: P.Args, id: RequestId, notes: bool, clock: nat -> real)
    requires Agreed(reg, w, args.modelName, args.targetAlias, args.slot)
    requires CanPromote(reg, w, args, id)
    ensures RollbackEnabled(reg, PromotedWorld(reg, w, args, id, clock), Undo(args, notes))
  {
    PromotionIsRecorded(reg, w, args, id, clock);
    var w1 := PromotedWorld(reg, w, args, id, clock);
    assert w1.states[(args.modelName, args.slot)] == P.DeployedRow(StartedLocal(reg, w, args, id));
  }

  /** The request rows are the same except for request `id`. */
  predicate SameRequestsBut(w: World, w': World, id: RequestId) {
    && id in w'.requests && w'.requests.Keys == w.requests.Keys
    && forall other | other in w.requests && other != id :: w'.requests[other] == w.requests[other]
  }

  /** Live version, run id, threshold, champion alias and active request are as in `w`. */
  predicate Restored(reg: Registry, w: World, w2: World, args: P.Args, id: RequestId)
    requires Agreed(reg, w, args.modelName, args.targetAlias, args.slot)
  {
    && Agreed(reg, w2, args.modelName, args.targetAlias, args.slot)
    && w2.release == w.release.(reloadRequestId := Some(id))
    && w2.aliases[(args.modelName, args.targetAlias)] == w.aliases[(args.modelName, args.targetAlias)]
    && w2.states[(args.modelName, args.slot)].activeRequestId == w.states[(args.modelName, args.slot)].activeRequestId
    && w2.states[(args.modelName, args.slot)].lastOperation == Rollback
    && SameRequestsBut(w, w2, id) && w2.requests[id].status == RolledBack
  }

  lemma RolledBackIsRestored(reg: Registry, w: World, args: P.Args, id: RequestId, notes: bool,
                             clock: nat -> real, clock': nat -> real)
    requires Agreed(reg, w, args.modelName, args.targetAlias, args.slot)
    requires CanPromote(reg, w, args, id)
    requires RollbackEnabled(reg, PromotedWorld(reg, w, args, id, clock), Undo(args, notes))
    ensures Restored(reg, w, RolledBackWorld(reg, PromotedWorld(reg, w, args, id, clock), Undo(args, notes), clock'), args, id)
  {
    var w1 := PromotedWorld(reg, w, args, id, clock);
    PromotionIsRecorded(reg, w, args, id, clock);
    var p := ReloadLocal(reg, w1, Undo(args, notes));
    var w2 := RolledBackWorld(reg, w1, Undo(args, notes), clock');
    assert w2.states[(args.modelName, args.slot)] == R.RolledBackRow(p);
    assert w2.requests == w1.requests[id := MarkStatus(w1.requests[id], RolledBack, clock'(3))];
  }

  /** Promote, then roll back, both uninterrupted: the rollback succeeds exactly when the
      replaced runtime's threshold lies in [0, 1], and then everything is restored. When the
      server refuses the threshold, the promotion stays as it was. */
  lemma RollbackUndoesPromotion(reg: Registry, w: World, args: P.Args, id: RequestId, notes: bool,
                                clock: nat -> real, clock': nat -> real)
    requires Agreed(reg, w, args.modelName, args.targetAlias, args.slot)
    requires CanPromote(reg, w, args, id)
    ensures var (w1, promoted) := P.Run(reg, w, P.Starting(args, id), NO_FAULTS, clock);
            var (w2, undone) := R.Run(reg, w1, R.Starting(Undo(args, notes)), NO_FAULTS, clock');
            && promoted
            && (undone <==> ThresholdAccepted(w.release.threshold.value))
            && (undone ==> Restored(reg, w, w2, args, id))
            && (!undone ==> w2.release == w1.release && w2.aliases == w1.aliases
                            && w2.states == w1.states && w2.requests == w1.requests)
  {
    var w1 := PromotedWorld(reg, w, args, id, clock);
    PromoteSucceeds(reg, w, args, id, clock);
    PromotionIsRecorded(reg, w, args, id, clock);
    PromotionEnablesRollback(reg, w, args, id, notes, clock);
    EnabledRollback(reg, w1, Undo(args, notes), clock');
    RolledBackIsRestored(reg, w, args, id, notes, clock, clock');
  }

  /** The condition on the threshold is real: a runtime started from a registry threshold of
      1.5 is agreed on by every store and can be promoted away, but not brought back. */
  lemma ThresholdThatCannotBeRestored(args: P.Args, clock: nat -> real, clock': nat -> real)
    requires args.modelName == "secom" && args.targetAlias == "champion" && args.slot == "release"
    ensures var reg := Registry(map[("secom", "1") := "run-1", ("secom", "2") := "run-2"],
                                map["run-1" := 1.5, "run-2" := 0.5]);
            var live := Runtime("secom", Some("1"), Some("run-1"), Some(1.5), "release", None);
            var row := StateRow("secom", "release", "champion", None, "1", "run-1", 1.5, None, None, None, None, Bootstrap, None);
            var r := Request("r", "secom", "champion", None, "2", "run-2", Some("1"), Some("run-1"), ServingGate, Passed,
                             Approved, CanaryReady, None, None, None, None, None, None, None);
            var w := World(map["r" := r], map[("secom", "release") := row], live, live, map[("secom", "champion") := "1"], 0, []);
            var (w1, promoted) := P.Run(reg, w, P.Starting(args, "r"), NO_FAULTS, clock);
            && promoted && !R.Run(reg, w1, R.Starting(Undo(args, false)), NO_FAULTS, clock').1
  {
    var reg := Registry(map[("secom", "1") := "run-1", ("secom", "2") := "run-2"],
                        map["run-1" := 1.5, "run-2" := 0.5]);
    var live := Runtime("secom", Some("1"), Some("run-1"), Some(1.5), "release", None);
    var row := StateRow("secom", "release", "champion", None, "1", "run-1", 1.5, None, None, None, None, Bootstrap, None);
    var r := Request("r", "secom", "champion", None, "2", "run-2", Some("1"), Some("run-1"), ServingGate, Passed,
                     Approved, CanaryReady, None, None, None, None, None, None, None);
    var w := World(map["r" := r], map[("secom", "release") := row], live, live, map[("secom", "champion") := "1"], 0, []);
    assert Agreed(reg, w, "secom", "champion", "release");
    RollbackUndoesPromotion(reg, w, args, "r", false, clock, clock');
  }
}
