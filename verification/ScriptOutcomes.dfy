/** The four deployment scripts that reload a server, undisturbed: exactly which columns each
    needs, and exactly which it leaves, whether it succeeds or fails. */
module ScriptOutcomes {
  import opened Common
  import opened Rollout
  import P = PromoteScript
  import R = RollbackScript
  import C = DeployCanaryScript
  import B = RollbackCanaryScript
  import A = PromoteAliasScript
  import M = ManualMarkScript
  import opened PromoteThenRollback
  import opened ReleasePipeline

  ghost predicate Keyed(w: World) {
    forall id | id in w.requests :: w.requests[id].id == id
  }

  /** The time a status was first reached. */
  function FirstTime(t: Option<real>, now: real): Option<real> {
    if t.Some? then t else Some(now)
  }

  predicate Registered(reg: Registry, modelName: string, v: Version, run: RunId) {
    (modelName, v) in reg.runOf && reg.runOf[(modelName, v)] == run
  }

  /** A candidate that passed its gate and was approved, for this model and alias. */
  predicate GatedFor(r: Request, modelName: string, alias: Alias) {
    && r.evalType == ServingGate && r.evalStatus == Passed && r.approval == Approved
    && r.modelName == modelName && r.targetAlias == alias
  }

  /** The recorded row describes what is live: version, run id and threshold. */
  predicate Describes(s: StateRow, live: Runtime) {
    && live.version == Some(s.activeVersion) && live.runId == Some(s.activeRunId)
    && live.threshold.Some? && -0.000000000001 <= live.threshold.value - s.activeThreshold <= 0.000000000001
  }

  /** The request a new row records as previous: the active one, if the old row was right. */
  function PreviousRequest(w: World, key: (string, string), live: Runtime): Option<RequestId> {
    if key in w.states && Describes(w.states[key], live) then w.states[key].activeRequestId else None
  }

  // -------------------------------------------------------------- promotion

  /** What a promotion asks of the request and the registry before it begins. */
  predicate PromotionMayStart(reg: Registry, w: World, args: P.Args, id: RequestId) {
    && id in w.requests
    && var r := w.requests[id];
    && GatedFor(r, args.modelName, args.targetAlias) && (r.status == CanaryReady || r.status == ReleaseReloading)
    && Registered(reg, args.modelName, r.sourceVersion, r.sourceRunId) && r.sourceRunId in reg.thresholdOf
  }

  /** The live version, if it is known, is the candidate or the version it was gated against. */
  predicate PromotionFits(w: World, r: Request) {
    w.release.version.Some? ==> w.release.version == Some(r.sourceVersion) || w.release.version == r.previousVersion
  }

  /** What the release server asks of a reload with this threshold. */
  predicate ServerAccepts(rt: Runtime, modelName: string, threshold: real) {
    (modelName == "" || rt.modelName == modelName) && 0.0 <= threshold <= 1.0
  }

  predicate MayPromote(reg: Registry, w: World, args: P.Args, id: RequestId) {
    && PromotionMayStart(reg, w, args, id) && PromotionFits(w, w.requests[id])
    && 0.0 <= reg.thresholdOf[w.requests[id].sourceRunId] <= 1.0
    && w.release.modelName == args.modelName && w.release.slot == args.slot
  }

  function AliasesAfter(w: World, args: P.Args, r: Request): map<(string, Alias), Version> {
    var moved := w.aliases[(args.modelName, args.targetAlias) := r.sourceVersion];
    if !args.keepSourceAlias && r.sourceAlias.Some? && r.sourceAlias.value != args.targetAlias
       && (args.modelName, r.sourceAlias.value) in w.aliases
       && w.aliases[(args.modelName, r.sourceAlias.value)] == r.sourceVersion
    then moved - {(args.modelName, r.sourceAlias.value)} else moved
  }

  /** The stores after a promotion. */
  function Promoted(reg: Registry, w: World, args: P.Args, id: RequestId, clock: nat -> real): World
    requires PromotionMayStart(reg, w, args, id)
  {
    var r, key := w.requests[id], (args.modelName, args.slot);
    var threshold := reg.thresholdOf[r.sourceRunId];
    World(
      w.requests[id := r.(status := Deployed, releaseReloadStartedAt := FirstTime(r.releaseReloadStartedAt, clock(11)),
                          deployedAt := FirstTime(r.deployedAt, clock(4)))],
      w.states[key := StateRow(
        args.modelName, args.slot, args.targetAlias, Some(id), r.sourceVersion, r.sourceRunId, threshold,
        PreviousRequest(w, key, w.release), w.release.version, w.release.runId, w.release.threshold, Promotion, Some(id))],
      Runtime(args.modelName, Some(r.sourceVersion), Some(r.sourceRunId), Some(threshold), args.slot, Some(id)),
      w.canary,
      AliasesAfter(w, args, r),
      if args.resetTraffic then 0 else w.canaryPercent,
      w.events + [ReloadEvent(id, args.slot, true, w.release.version, r.sourceVersion)])
  }

  /** The stores after a promotion that failed once it had started: the request is failed, a
      failed reload is recorded, and nothing else but perhaps the release server is different. */
  predicate FailedPromotion(w: World, args: P.Args, id: RequestId, reloading: Option<real>, now: real, w': World)
    requires id in w.requests
  {
    var r := w.requests[id];
    w' == w.(release := w'.release,
             requests := w.requests[id := r.(status := Failed, failedAt := FirstTime(r.failedAt, now),
                                             releaseReloadStartedAt :=
                                               if reloading.None? then r.releaseReloadStartedAt
                                               else FirstTime(r.releaseReloadStartedAt, reloading.value))],
             events := w.events + [ReloadEvent(id, args.slot, false, w.release.version, r.sourceVersion)])
  }

  lemma PromotedIsPromotedWorld(reg: Registry, w: World, args: P.Args, id: RequestId, clock: nat -> real)
    requires Keyed(w) && CanPromote(reg, w, args, id)
    ensures PromotionMayStart(reg, w, args, id) && PromotedWorld(reg, w, args, id, clock) == Promoted(reg, w, args, id, clock)
  {
    assert PromotedAliases(w, args, id) == AliasesAfter(w, args, w.requests[id]);
  }

  lemma MayPromoteIsCanPromote(reg: Registry, w: World, args: P.Args, id: RequestId)
    requires Keyed(w)
    ensures MayPromote(reg, w, args, id) <==> CanPromote(reg, w, args, id)
  {
  }

  /** An undisturbed promotion succeeds exactly when `MayPromote` says so, and what it leaves. */
  lemma PromotionOutcome(reg: Registry, w: World, args: P.Args, id: RequestId, clock: nat -> real)
    requires Keyed(w)
    ensures var (w', ok) := P.Run(reg, w, P.Starting(args, id), NO_FAULTS, clock);
            && (ok <==> MayPromote(reg, w, args, id))
            && (ok ==> w' == Promoted(reg, w, args, id, clock))
            && (!PromotionMayStart(reg, w, args, id) ==> w' == w)
  {
    MayPromoteIsCanPromote(reg, w, args, id);
    PromoteSucceedsExactlyWhen(reg, w, args, id, clock);
    if CanPromote(reg, w, args, id) {
      PromoteSucceeds(reg, w, args, id, clock);
      PromotedIsPromotedWorld(reg, w, args, id, clock);
    } else if !PromotionMayStart(reg, w, args, id) {
      PromoteAdvances(reg, w, P.Starting(args, id), w, P.Finished(false), clock);
    }
  }

  lemma HandlerLeaves(reg: Registry, w: World, p: P.Local, clock: nat -> real)
    requires p.Running? && p.pc == P.RecordFailure
    ensures P.Run(reg, w, p, NO_FAULTS, clock) == (MarkIn(AppendEvent(w, P.Event(p, false)), p.request.id, Failed, clock(1)), false)
  {
    var w1 := AppendEvent(w, P.Event(p, false));
    PromoteAdvances(reg, w, p, w1, p.(pc := P.MarkFailed), clock);
    PromoteAdvances(reg, w1, p.(pc := P.MarkFailed), MarkIn(w1, p.request.id, Failed, clock(1)), P.Finished(false), clock);
  }

  lemma FailsBeforeMark(reg: Registry, w: World, args: P.Args, id: RequestId, clock: nat -> real)
    requires Keyed(w) && PromotionMayStart(reg, w, args, id) && !PromotionFits(w, w.requests[id])
    ensures var w' := P.Run(reg, w, P.Starting(args, id), NO_FAULTS, clock).0;
            FailedPromotion(w, args, id, None, clock(1), w') && w'.release == w.release
  {
    var p := StartedLocal(reg, w, args, id);
    PromoteReads(reg, w, args, id, clock);
    PromoteAdvances(reg, w, p, w, p.(pc := P.RecordFailure), clock);
    HandlerLeaves(reg, w, p.(pc := P.RecordFailure), clock);
  }

  lemma MarkedTwice(w: World, id: RequestId, w1: World, e: ReloadEvent, args: P.Args, release: Runtime, at: real, now: real)
    requires Keyed(w) && id in w.requests && e == ReloadEvent(id, args.slot, false, w.release.version, w.requests[id].sourceVersion)
    requires w1 == MarkIn(w, id, ReleaseReloading, at).(release := release)
    ensures FailedPromotion(w, args, id, Some(at), now, MarkIn(AppendEvent(w1, e), id, Failed, now))
  {
    var w2 := MarkIn(AppendEvent(w1, e), id, Failed, now);
    assert w2.requests == w.requests[id := MarkStatus(MarkStatus(w.requests[id], ReleaseReloading, at), Failed, now)];
  }

  lemma FailsAfterMark(reg: Registry, w: World, args: P.Args, id: RequestId, clock: nat -> real)
    requires Keyed(w) && PromotionMayStart(reg, w, args, id) && PromotionFits(w, w.requests[id]) && !MayPromote(reg, w, args, id)
    ensures var w' := P.Run(reg, w, P.Starting(args, id), NO_FAULTS, clock).0;
            && FailedPromotion(w, args, id, Some(clock(11)), clock(1), w')
            && (!ServerAccepts(w.release, args.modelName, reg.thresholdOf[w.requests[id].sourceRunId]) ==> w'.release == w.release)
  {
    var p := StartedLocal(reg, w, args, id);
    var w1 := MarkIn(w, id, ReleaseReloading, clock(11));
    var f := p.(pc := P.RecordFailure);
    PromoteReads(reg, w, args, id, clock);
    PromoteAdvances(reg, w, p, w1, p.(pc := P.Reload), clock);
    var next := ReloadModelVersion(reg, w1.release, P.Payload(p));
    if next.Some? {
      var w2 := w1.(release := next.value);
      PromoteAdvances(reg, w1, p.(pc := P.Reload), w2, p.(pc := P.Verify), clock);
      PromoteAdvances(reg, w2, p.(pc := P.Verify), w2, f, clock);
      HandlerLeaves(reg, w2, f, clock);
      MarkedTwice(w, id, w2, P.Event(f, false), args, next.value, clock(11), clock(1));
    } else {
      PromoteAdvances(reg, w1, p.(pc := P.Reload), w1, f, clock);
      HandlerLeaves(reg, w1, f, clock);
      MarkedTwice(w, id, w1, P.Event(f, false), args, w.release, clock(11), clock(1));
    }
  }

  /** A promotion that started and failed closes its request and records one failed reload; it
      never moves an alias, the recorded state or the canary, and a server that refuses the reload
      goes on as it was. */
  lemma FailedPromotionOutcome(reg: Registry, w: World, args: P.Args, id: RequestId, clock: nat -> real)
    requires Keyed(w) && PromotionMayStart(reg, w, args, id) && !MayPromote(reg, w, args, id)
    ensures var w' := P.Run(reg, w, P.Starting(args, id), NO_FAULTS, clock).0;
            var fits := PromotionFits(w, w.requests[id]);
            && FailedPromotion(w, args, id, if fits then Some(clock(11)) else None, clock(1), w')
            && (!fits || !ServerAccepts(w.release, args.modelName, reg.thresholdOf[w.requests[id].sourceRunId]) ==> w'.release == w.release)
  {
    if PromotionFits(w, w.requests[id]) { FailsAfterMark(reg, w, args, id, clock); } else { FailsBeforeMark(reg, w, args, id, clock); }
  }

  // --------------------------------------------------------------- rollback

  /** What a rollback asks of the recorded state, its request, the registry and the alias. */
  predicate RollbackMayStart(reg: Registry, w: World, args: R.Args) {
    && (args.modelName, args.slot) in w.states
    && var s := w.states[(args.modelName, args.slot)];
    && s.modelName == args.modelName && s.slot == args.slot && s.targetAlias == args.targetAlias
    && s.lastOperation != Rollback
    && s.previousVersion.Some? && s.previousRunId.Some? && s.previousThreshold.Some?
    && s.activeRequestId.Some? && s.activeRequestId.value in w.requests
    && var r := w.requests[s.activeRequestId.value];
    && r.modelName == args.modelName && r.targetAlias == args.targetAlias && r.approval == Approved && r.status == Deployed
    && r.sourceVersion == s.activeVersion && r.sourceRunId == s.activeRunId
    && Registered(reg, args.modelName, s.activeVersion, s.activeRunId)
    && Registered(reg, args.modelName, s.previousVersion.value, s.previousRunId.value)
    && ((args.modelName, args.targetAlias) in w.aliases ==>
          || w.aliases[(args.modelName, args.targetAlias)] == s.activeVersion
          || w.aliases[(args.modelName, args.targetAlias)] == s.previousVersion.value)
  }

  /** The live version is known, and recorded as active or previous. */
  predicate RollbackFits(w: World, s: StateRow) {
    w.release.version.Some? && (w.release.version == Some(s.activeVersion) || w.release.version == s.previousVersion)
  }

  predicate MayRollBack(reg: Registry, w: World, args: R.Args) {
    && RollbackMayStart(reg, w, args)
    && var s := w.states[(args.modelName, args.slot)];
    && RollbackFits(w, s) && 0.0 <= s.previousThreshold.value <= 1.0
    && w.release.modelName == args.modelName && w.release.slot == args.slot
  }

  function TrafficOff(w: World, reset: bool): World {
    w.(canaryPercent := if reset then 0 else w.canaryPercent)
  }

  /** The stores after a rollback. */
  function RolledBackTo(reg: Registry, w: World, args: R.Args, now: real): World
    requires RollbackMayStart(reg, w, args)
  {
    var key := (args.modelName, args.slot);
    var s := w.states[key];
    var id := s.activeRequestId.value;
    var r := w.requests[id];
    World(
      w.requests[id := r.(status := RolledBack, rolledBackAt := FirstTime(r.rolledBackAt, now))],
      w.states[key := StateRow(
        args.modelName, args.slot, args.targetAlias,
        s.previousRequestId, s.previousVersion.value, s.previousRunId.value, s.previousThreshold.value,
        Some(id), Some(s.activeVersion), Some(s.activeRunId), Some(s.activeThreshold), Rollback, Some(id))],
      Runtime(args.modelName, s.previousVersion, s.previousRunId, s.previousThreshold, args.slot, Some(id)),
      w.canary,
      w.aliases[(args.modelName, args.targetAlias) := s.previousVersion.value],
      if args.resetTraffic then 0 else w.canaryPercent,
      w.events + [ReloadEvent(id, args.slot, true, w.release.version, s.previousVersion.value)])
  }

  lemma MayStartIsEnabled(reg: Registry, w: World, args: R.Args)
    requires Keyed(w)
    ensures RollbackEnabled(reg, w, args)
            <==> && RollbackMayStart(reg, w, args) && RollbackFits(w, w.states[(args.modelName, args.slot)])
                 && w.release.modelName == args.modelName && w.release.slot == args.slot
  {
  }

  lemma RolledBackIsWorld(reg: Registry, w: World, args: R.Args, clock: nat -> real)
    requires Keyed(w) && RollbackEnabled(reg, w, args)
    ensures RollbackMayStart(reg, w, args) && RolledBackWorld(reg, w, args, clock) == RolledBackTo(reg, w, args, clock(3))
  {
  }

  lemma RefusedAtOnce(reg: Registry, w: World, args: R.Args, clock: nat -> real)
    requires Keyed(w) && !RollbackMayStart(reg, w, args)
    ensures R.Run(reg, w, R.Starting(args), NO_FAULTS, clock) == (w, false)
  {
    var found := StateOf(w, args.modelName, args.slot);
    if found.Some? && R.StateAllowsRollback(found.value, args) {
      var p := R.Running(args, found.value, None, R.ReadRequest, Unreadable, Unreadable);
      RollbackAdvances(reg, w, R.Starting(args), w, p, clock);
      RefusedAtRequest(reg, w, args, p, clock);
    } else {
      RollbackAdvances(reg, w, R.Starting(args), w, R.Finished(false), clock);
    }
  }

  lemma RefusedAtRequest(reg: Registry, w: World, args: R.Args, p: R.Local, clock: nat -> real)
    requires Keyed(w) && !RollbackMayStart(reg, w, args) && R.Checked(p)
    requires (args.modelName, args.slot) in w.states
    requires p == R.Running(args, w.states[(args.modelName, args.slot)], None, R.ReadRequest, Unreadable, Unreadable)
    ensures R.Run(reg, w, p, NO_FAULTS, clock) == (w, false)
  {
    var s := p.state;
    if s.activeRequestId.Some? && s.activeRequestId.value in w.requests
       && R.RequestAllowsRollback(w.requests[s.activeRequestId.value], args, s) && R.VersionsRegistered(reg, args, s) {
      var q := p.(request := Some(w.requests[s.activeRequestId.value]), pc := R.CheckAlias);
      RollbackAdvances(reg, w, p, w, q, clock);
      RollbackAdvances(reg, w, q, w, R.Finished(false), clock);
    } else {
      RollbackAdvances(reg, w, p, w, R.Finished(false), clock);
    }
  }

  /** The run of a rollback that passed its first checks, up to the read of the live runtime. */
  lemma RollbackGetsToRead(reg: Registry, w: World, args: R.Args, clock: nat -> real) returns (p: R.Local)
    requires Keyed(w) && RollbackMayStart(reg, w, args)
    ensures R.Checked(p) && p.Running? && p.pc == R.ReadMetadata && p.args == args
    ensures p.state == w.states[(args.modelName, args.slot)] && p.request == Some(w.requests[p.state.activeRequestId.value])
    ensures R.Run(reg, w, R.Starting(args), NO_FAULTS, clock) == R.Run(reg, TrafficOff(w, args.resetTraffic), p, NO_FAULTS, clock)
  {
    var s := w.states[(args.modelName, args.slot)];
    var p12 := R.Running(args, s, None, R.ReadRequest, Unreadable, Unreadable);
    var p11 := p12.(request := Some(w.requests[s.activeRequestId.value]), pc := R.CheckAlias);
    p := p11.(pc := R.ReadMetadata);
    RollbackAdvances(reg, w, R.Starting(args), w, p12, clock);
    RollbackAdvances(reg, w, p12, w, p11, clock);
    RollbackAdvances(reg, w, p11, w, p11.(pc := R.ResetTraffic), clock);
    RollbackAdvances(reg, w, p11.(pc := R.ResetTraffic), TrafficOff(w, args.resetTraffic), p, clock);
  }

  /** The run of a rollback that may reload, up to the reload. */
  lemma RollbackGetsToReload(reg: Registry, w: World, args: R.Args, clock: nat -> real) returns (p: R.Local)
    requires Keyed(w) && RollbackMayStart(reg, w, args) && RollbackFits(w, w.states[(args.modelName, args.slot)])
    ensures R.Checked(p) && p.Running? && p.pc == R.Reload && p.args == args && p.metadata == p.previous == Read(w.release)
    ensures p.state == w.states[(args.modelName, args.slot)] && p.request == Some(w.requests[p.state.activeRequestId.value])
    ensures R.Run(reg, w, R.Starting(args), NO_FAULTS, clock) == R.Run(reg, TrafficOff(w, args.resetTraffic), p, NO_FAULTS, clock)
  {
    var w0 := TrafficOff(w, args.resetTraffic);
    var q := RollbackGetsToRead(reg, w, args, clock);
    p := q.(pc := R.Reload, metadata := Read(w.release), previous := Read(w.release));
    RollbackAdvances(reg, w0, q, w0, p, clock);
  }

  lemma FailureIsRecorded(reg: Registry, w: World, p: R.Local, clock: nat -> real)
    requires R.Checked(p) && p.Running? && p.pc == R.RecordFailure && p.request.Some? && p.state.previousVersion.Some?
    ensures R.Run(reg, w, p, NO_FAULTS, clock) == (AppendEvent(w, R.Event(p, false)), false)
  {
    RollbackAdvances(reg, w, p, AppendEvent(w, R.Event(p, false)), R.Finished(false), clock);
  }

  lemma ReloadIsRefused(reg: Registry, w0: World, p: R.Local, clock: nat -> real)
    requires R.Checked(p) && p.Running? && p.pc == R.Reload && p.previous == Read(w0.release)
    requires ReloadModelVersion(reg, w0.release, R.Payload(p)).None?
    ensures R.Run(reg, w0, p, NO_FAULTS, clock) == (AppendEvent(w0, R.Event(p, false)), false)
  {
    RollbackAdvances(reg, w0, p, w0, p.(pc := R.RecordFailure), clock);
    FailureIsRecorded(reg, w0, p.(pc := R.RecordFailure), clock);
  }

  lemma ReloadIsNotVerified(reg: Registry, w0: World, p: R.Local, next: Runtime, clock: nat -> real)
    requires R.Checked(p) && p.Running? && p.pc == R.Reload && p.previous == Read(w0.release)
    requires ReloadModelVersion(reg, w0.release, R.Payload(p)) == Some(next)
    requires !RuntimeIs(next, p.args.modelName, p.state.previousVersion.value, p.state.previousRunId.value, p.state.previousThreshold.value, p.args.slot)
    ensures R.Run(reg, w0, p, NO_FAULTS, clock) == (AppendEvent(w0.(release := next), R.Event(p, false)), false)
  {
    var w1 := w0.(release := next);
    RollbackAdvances(reg, w0, p, w1, p.(pc := R.Verify), clock);
    RollbackAdvances(reg, w1, p.(pc := R.Verify), w1, p.(pc := R.RecordFailure), clock);
    FailureIsRecorded(reg, w1, p.(pc := R.RecordFailure), clock);
  }

  /** The server refuses the reload, or runs another model afterwards. */
  lemma RollbackIsRefused(reg: Registry, w: World, args: R.Args, clock: nat -> real)
    requires Keyed(w) && RollbackMayStart(reg, w, args) && !MayRollBack(reg, w, args)
    requires RollbackFits(w, w.states[(args.modelName, args.slot)])
    ensures var s := w.states[(args.modelName, args.slot)];
            var (w', ok) := R.Run(reg, w, R.Starting(args), NO_FAULTS, clock);
            && !ok
            && w' == TrafficOff(w, args.resetTraffic).(
                 release := w'.release,
                 events := w.events + [ReloadEvent(s.activeRequestId.value, args.slot, false, w.release.version, s.previousVersion.value)])
            && (!ServerAccepts(w.release, args.modelName, s.previousThreshold.value) ==> w'.release == w.release)
  {
    var p := RollbackGetsToReload(reg, w, args, clock);
    var next := ReloadModelVersion(reg, w.release, R.Payload(p));
    if next.Some? {
      ReloadIsNotVerified(reg, TrafficOff(w, args.resetTraffic), p, next.value, clock);
    } else {
      ReloadIsRefused(reg, TrafficOff(w, args.resetTraffic), p, clock);
    }
  }

  lemma RollbackDoesNotFit(reg: Registry, w: World, args: R.Args, clock: nat -> real)
    requires Keyed(w) && RollbackMayStart(reg, w, args) && !RollbackFits(w, w.states[(args.modelName, args.slot)])
    ensures R.Run(reg, w, R.Starting(args), NO_FAULTS, clock) == (TrafficOff(w, args.resetTraffic), false)
  {
    var w0 := TrafficOff(w, args.resetTraffic);
    var p := RollbackGetsToRead(reg, w, args, clock);
    RollbackAdvances(reg, w0, p, w0, R.Finished(false), clock);
  }

  /** An undisturbed rollback succeeds exactly when every check holds, the alias is absent or at
      the active or previous version, and the server takes the previous threshold; and what it
      leaves when it does. */
  lemma RollbackSucceedsExactlyWhen(reg: Registry, w: World, args: R.Args, clock: nat -> real)
    requires Keyed(w)
    ensures var (w', ok) := R.Run(reg, w, R.Starting(args), NO_FAULTS, clock);
            && (ok <==> MayRollBack(reg, w, args))
            && (ok ==> w' == RolledBackTo(reg, w, args, clock(3)))
  {
    MayStartIsEnabled(reg, w, args);
    if MayRollBack(reg, w, args) {
      EnabledRollback(reg, w, args, clock);
      RolledBackIsWorld(reg, w, args, clock);
    } else if !RollbackMayStart(reg, w, args) {
      RefusedAtOnce(reg, w, args, clock);
    } else if !RollbackFits(w, w.states[(args.modelName, args.slot)]) {
      RollbackDoesNotFit(reg, w, args, clock);
    } else {
      RollbackIsRefused(reg, w, args, clock);
    }
  }

  /** A rollback that fails leaves aliases, requests, recorded state and canary server as they
      were; refused by its own checks it leaves everything but the canary traffic, and refused by
      the server it only records a failed reload. */
  lemma FailedRollbackOutcome(reg: Registry, w: World, args: R.Args, clock: nat -> real)
    requires Keyed(w) && !MayRollBack(reg, w, args)
    ensures var w' := R.Run(reg, w, R.Starting(args), NO_FAULTS, clock).0;
            && w'.aliases == w.aliases && w'.requests == w.requests && w'.states == w.states && w'.canary == w.canary
            && (!RollbackMayStart(reg, w, args) ==> w' == w)
            && (RollbackMayStart(reg, w, args) ==>
                  var s := w.states[(args.modelName, args.slot)];
                  && (!RollbackFits(w, s) ==> w' == TrafficOff(w, args.resetTraffic))
                  && (!ServerAccepts(w.release, args.modelName, s.previousThreshold.value) ==> w'.release == w.release)
                  && (RollbackFits(w, s) ==>
                        w'.events == w.events + [ReloadEvent(s.activeRequestId.value, args.slot, false, w.release.version, s.previousVersion.value)]))
  {
    if !RollbackMayStart(reg, w, args) {
      RefusedAtOnce(reg, w, args, clock);
    } else if !RollbackFits(w, w.states[(args.modelName, args.slot)]) {
      RollbackDoesNotFit(reg, w, args, clock);
    } else {
      RollbackIsRefused(reg, w, args, clock);
    }
  }

  // ----------------------------------------------------------------- canary

  predicate MayDeployCanary(reg: Registry, w: World, args: C.Args, id: RequestId) {
    && id in w.requests
    && var r := w.requests[id];
    && GatedFor(r, args.modelName, args.targetAlias)
    && (r.status == NotStarted || r.status == Status.Promoted || r.status == CanaryReloading || r.status == CanaryReady)
    && Registered(reg, args.modelName, r.sourceVersion, r.sourceRunId)
    && r.sourceRunId in reg.thresholdOf && 0.0 <= reg.thresholdOf[r.sourceRunId] <= 1.0
    && w.canary.modelName == args.modelName && w.canary.slot == args.slot
  }

  /** The stores after a canary deployment. */
  function OnCanary(reg: Registry, w: World, args: C.Args, id: RequestId, clock: nat -> real): World
    requires MayDeployCanary(reg, w, args, id)
  {
    var r, key := w.requests[id], (args.modelName, args.slot);
    var threshold := reg.thresholdOf[r.sourceRunId];
    World(
      w.requests[id := r.(status := CanaryReady, canaryReloadStartedAt := FirstTime(r.canaryReloadStartedAt, clock(8)),
                          canaryReadyAt := FirstTime(r.canaryReadyAt, clock(4)))],
      w.states[key := StateRow(
        args.modelName, args.slot, args.targetAlias, Some(id), r.sourceVersion, r.sourceRunId, threshold,
        PreviousRequest(w, key, w.canary), w.canary.version, w.canary.runId, w.canary.threshold, CanaryReload, Some(id))],
      w.release,
      Runtime(args.modelName, Some(r.sourceVersion), Some(r.sourceRunId), Some(threshold), args.slot, Some(id)),
      w.aliases,
      w.canaryPercent,
      w.events + [ReloadEvent(id, args.slot, true, w.canary.version, r.sourceVersion)])
  }

  /** An undisturbed canary deployment: exactly when it succeeds, and what it leaves. */
  lemma CanaryOutcome(reg: Registry, w: World, args: C.Args, id: RequestId, clock: nat -> real)
    requires Keyed(w)
    ensures var (w', ok) := C.Run(reg, w, C.Starting(args, id), NO_FAULTS, clock);
            && (ok <==> MayDeployCanary(reg, w, args, id))
            && (ok ==> w' == OnCanary(reg, w, args, id, clock))
  {
    CanarySucceedsExactlyWhen(reg, w, args, id, clock);
    if CanDeployCanary(reg, w, args, id) {
      CanarySucceeds(reg, w, args, id, clock);
    }
  }

  predicate MayTakeOffCanary(reg: Registry, w: World, args: B.Args, id: RequestId) {
    && id in w.requests
    && var r := w.requests[id];
    && r.modelName == args.modelName && r.targetAlias == args.targetAlias && r.approval == Approved
    && (r.status == Status.Promoted || r.status == CanaryReloading || r.status == CanaryReady || r.status == ReleaseReloading || r.status == Failed)
    && (args.reloadPrevious ==>
          && r.previousVersion.Some? && r.previousRunId.Some?
          && Registered(reg, args.modelName, r.previousVersion.value, r.previousRunId.value)
          && r.previousRunId.value in reg.thresholdOf && 0.0 <= reg.thresholdOf[r.previousRunId.value] <= 1.0
          && w.canary.modelName == args.modelName && w.canary.slot == args.slot)
  }

  /** The stores after a canary rollback; the recorded state is not among what it changes. */
  function OffCanary(reg: Registry, w: World, args: B.Args, id: RequestId, now: real): World
    requires MayTakeOffCanary(reg, w, args, id)
  {
    var r := w.requests[id];
    var w' := w.(requests := w.requests[id := r.(status := RolledBack, rolledBackAt := FirstTime(r.rolledBackAt, now))], canaryPercent := 0);
    if !args.reloadPrevious then w'
    else w'.(canary := Runtime(args.modelName, r.previousVersion, r.previousRunId, Some(reg.thresholdOf[r.previousRunId.value]), args.slot, Some(id)),
             events := w.events + [ReloadEvent(id, args.slot, true, w.canary.version, r.previousVersion.value)])
  }

  /** An undisturbed canary rollback: exactly when it succeeds, and what it leaves. */
  lemma CanaryRollbackOutcome(reg: Registry, w: World, args: B.Args, id: RequestId, clock: nat -> real)
    requires Keyed(w)
    ensures var (w', ok) := B.Run(reg, w, B.Starting(args, id), NO_FAULTS, clock);
            && (ok <==> MayTakeOffCanary(reg, w, args, id))
            && (ok ==> w' == OffCanary(reg, w, args, id, clock(2)))
  {
    CanaryRollbackSucceedsExactlyWhen(reg, w, args, id, clock);
    if CanRollBackCanary(reg, w, args, id) {
      CanaryRollbackSucceeds(reg, w, args, id, clock);
    }
  }

  // -------------------------------------------------- alias and manual mark

  predicate MayMoveAlias(reg: Registry, w: World, args: A.Args, id: RequestId) {
    && id in w.requests
    && var r := w.requests[id];
    && r.evalType == ServingGate && r.evalStatus == Passed && r.approval == Approved && r.targetAlias == args.targetAlias
    && (r.status == NotStarted || r.status == Status.Promoted || r.status == CanaryReloading || r.status == CanaryReady || r.status == ReleaseReloading)
    && Registered(reg, args.modelName, r.sourceVersion, r.sourceRunId)
  }

  /** Four calls of the alias script that work. */
  function AliasRun(reg: Registry, w: World, args: A.Args, id: RequestId, now: real): (World, A.Local) {
    var (w1, p1) := A.Step(reg, w, A.Starting(args, id), Works, now);
    var (w2, p2) := A.Step(reg, w1, p1, Works, now);
    var (w3, p3) := A.Step(reg, w2, p2, Works, now);
    A.Step(reg, w3, p3, Works, now)
  }

  /** The alias script, undisturbed: the alias moves, a candidate alias that still names the
      version goes, the request is marked; nothing else, and nothing at all if a check fails. */
  lemma AliasOutcome(reg: Registry, w: World, args: A.Args, id: RequestId, now: real)
    requires Keyed(w)
    ensures var (w', p) := AliasRun(reg, w, args, id, now);
            && p == A.Finished(MayMoveAlias(reg, w, args, id))
            && (!MayMoveAlias(reg, w, args, id) ==> w' == w)
            && (MayMoveAlias(reg, w, args, id) ==>
                  var r := w.requests[id];
                  w' == w.(aliases := AliasesAfter(w, P.Args(args.modelName, args.targetAlias, "", args.keepSourceAlias, false), r),
                           requests := w.requests[id := r.(status := Status.Promoted, promotedAt := FirstTime(r.promotedAt, now))]))
  {
    if MayMoveAlias(reg, w, args, id) {
      var r := w.requests[id];
      var w1 := SetAlias(w, args.modelName, args.targetAlias, r.sourceVersion);
      var w2 := ClearSourceAlias(w1, args.modelName, r.sourceAlias, r.sourceVersion, args.targetAlias, args.keepSourceAlias);
      assert w2.aliases == AliasesAfter(w, P.Args(args.modelName, args.targetAlias, "", args.keepSourceAlias, false), r);
    }
  }

  /** The manual mark takes requests that were started and not rolled back, of the version that
      was expected, if one was. */
  lemma ManualMarkOutcome(w: World, id: RequestId, expected: Option<Version>, now: real)
    ensures M.Step(w, id, expected, Works, now)
         == if id in w.requests && !w.requests[id].status.NotStarted? && !w.requests[id].status.RolledBack? && !w.requests[id].status.Superseded?
               && (expected.None? || w.requests[id].sourceVersion == expected.value)
            then w.(requests := w.requests[id := w.requests[id].(status := RolledBack, rolledBackAt := Some(now))]) else w
    ensures M.Step(w, id, expected, AnswerLost, now) == M.Step(w, id, expected, Works, now) && M.Step(w, id, expected, Down, now) == w
  {
    if id in w.requests {
      var s := w.requests[id].status;
      assert s.NotStarted? || s.RolledBack? || s.Superseded? || s in {Status.Promoted, CanaryReloading, CanaryReady, ReleaseReloading, Deployed, Failed};
    }
  }

  // -------------------------------------------------------- reload and record

  /** The reload endpoint takes a reload exactly when the threshold is in [0, 1], everything that
      is expected of the live runtime holds (what is absent or empty is not), and the version is
      registered under the expected run; then it serves just that. */
  lemma ReloadAcceptsExactlyWhen(reg: Registry, rt: Runtime, p: ReloadPayload)
    ensures var key := (if p.modelName == "" then rt.modelName else p.modelName, p.version);
            var accepted :=
              && 0.0 <= p.threshold <= 1.0
              && (p.modelName == "" || p.modelName == rt.modelName)
              && (p.expectedCurrentVersion in {None, Some(""), rt.version})
              && (p.expectedCurrentRunId in {None, Some(""), rt.runId})
              && key in reg.runOf && (p.expectedRunId == "" || p.expectedRunId == reg.runOf[key]);
            ReloadModelVersion(reg, rt, p)
            == if accepted then Some(Runtime(key.0, Some(p.version), Some(reg.runOf[key]), Some(p.threshold), rt.slot, Some(p.requestId)))
               else None
  {
  }

  /** A request is recorded exactly when the evaluation passed, is the candidate's latest, and
      compared this model, version and run with the champion's version and run; and as what. */
  lemma RecordsExactlyWhen(reg: Registry, w: World, e: Evaluation, modelName: string, c: Candidate, champion: Alias, approval: Approval, id: RequestId)
    ensures var fits :=
              && e.passed && c.latestEvaluation == Some(e.runId) && e.modelName == modelName
              && e.candidateVersion == c.version && e.candidateRunId == c.runId
              && (modelName, champion) in w.aliases && w.aliases[(modelName, champion)] == e.championVersion
              && Registered(reg, modelName, e.championVersion, e.championRunId);
            RecordRequest(reg, w, e, modelName, c, champion, approval, id)
            == if fits
               then Some(Request(id, modelName, champion, c.sourceAlias, c.version, c.runId, Some(e.championVersion), Some(e.championRunId),
                                 ServingGate, Passed, approval, NotStarted, None, None, None, None, None, None, None))
               else None
  {
  }

  // ------------------------------------------------- calls among other operators

  /** What a script knows of a version or run id. */
  function Seen(m: Metadata, of: Runtime -> Option<string>): Option<string> {
    if m.Read? then of(m.runtime) else None
  }

  function WithEvent(w: World, e: ReloadEvent): World {
    w.(events := w.events + [e])
  }

  /** The live runtime is the one that was asked for. */
  predicate Serves(rt: Runtime, modelName: string, version: Version, runId: RunId, threshold: real, slot: string) {
    && rt.modelName == modelName && rt.version == Some(version) && rt.runId == Some(runId) && rt.slot == slot
    && rt.threshold.Some? && -0.000000000001 <= rt.threshold.value - threshold <= 0.000000000001
  }

  /** The row a script records: what it loaded, and before it what its own reload replaced, with the
      request that was active if the row it read at the start described that. */
  function RecordedRow(modelName: string, slot: string, alias: Alias, r: Request, threshold: real,
                       state: Option<StateRow>, replaced: Metadata, operation: Operation): StateRow {
    StateRow(modelName, slot, alias, Some(r.id), r.sourceVersion, r.sourceRunId, threshold,
             if state.Some? && replaced.Read? && Describes(state.value, replaced.runtime) then state.value.activeRequestId else None,
             Seen(replaced, (rt: Runtime) => rt.version), Seen(replaced, (rt: Runtime) => rt.runId),
             if replaced.Read? then replaced.runtime.threshold else None, operation, Some(r.id))
  }

  /** Whatever others did to the stores in between: the reload of a promotion expects what it read,
      remembers what it replaced, goes on only if the server then serves the candidate, and records
      what it replaced as previous, in the event and in the state. */
  lemma PromotionAmongOthers(reg: Registry, w: World, p: P.Local, now: real)
    requires p.Running?
    ensures var (w', p') := P.Step(reg, w, p, Works, now);
            var payload := ReloadPayload(p.request.id, p.args.modelName, p.request.sourceVersion, p.request.sourceRunId, p.threshold,
                                         Seen(p.metadata, (rt: Runtime) => rt.version), Seen(p.metadata, (rt: Runtime) => rt.runId));
            match p.pc
            case ReadMetadata => w' == w && p' == p.(pc := P.ReadState, metadata := Read(w.release), previous := Read(w.release))
            case Reload =>
              var next := ReloadModelVersion(reg, w.release, payload);
              if next.Some? then w' == w.(release := next.value) && p' == p.(pc := P.Verify, previous := Read(w.release))
              else w' == w && p' == p.(pc := P.RecordFailure)
            case Verify =>
              && w' == w
              && p' == p.(pc := if Serves(w.release, p.args.modelName, p.request.sourceVersion, p.request.sourceRunId, p.threshold, p.args.slot)
                                then P.RecordEvent else P.RecordFailure)
            case RecordEvent => w' == WithEvent(w, ReloadEvent(p.request.id, p.args.slot, true, Seen(p.previous, (rt: Runtime) => rt.version), p.request.sourceVersion))
            case RecordFailure => w' == WithEvent(w, ReloadEvent(p.request.id, p.args.slot, false, Seen(p.previous, (rt: Runtime) => rt.version), p.request.sourceVersion))
            case WriteState =>
              && w' == w.(states := w.states[(p.args.modelName, p.args.slot) := RecordedRow(
                            p.args.modelName, p.args.slot, p.args.targetAlias, p.request, p.threshold, p.state, p.previous, Promotion)])
              && p' == P.Finished(true)
            case _ => true
  {
  }

  /** The same of a canary deployment, which expects nothing of the live runtime. */
  lemma CanaryAmongOthers(reg: Registry, w: World, p: C.Local, now: real)
    requires p.Running?
    ensures var (w', p') := C.Step(reg, w, p, Works, now);
            var payload := ReloadPayload(p.request.id, p.args.modelName, p.request.sourceVersion, p.request.sourceRunId, p.threshold, None, None);
            match p.pc
            case ReadMetadata => w' == w && p' == p.(pc := C.ReadState, previous := Read(w.canary))
            case Reload =>
              var next := ReloadModelVersion(reg, w.canary, payload);
              if next.Some? then w' == w.(canary := next.value) && p' == p.(pc := C.Verify, previous := Read(w.canary))
              else w' == w && p' == p.(pc := C.RecordFailure)
            case Verify =>
              && w' == w
              && p' == p.(pc := if Serves(w.canary, p.args.modelName, p.request.sourceVersion, p.request.sourceRunId, p.threshold, p.args.slot)
                                then C.RecordEvent else C.RecordFailure)
            case RecordEvent => w' == WithEvent(w, ReloadEvent(p.request.id, p.args.slot, true, Seen(p.previous, (rt: Runtime) => rt.version), p.request.sourceVersion))
            case RecordFailure => w' == WithEvent(w, ReloadEvent(p.request.id, p.args.slot, false, Seen(p.previous, (rt: Runtime) => rt.version), p.request.sourceVersion))
            case WriteState =>
              && w' == w.(states := w.states[(p.args.modelName, p.args.slot) := RecordedRow(
                            p.args.modelName, p.args.slot, p.args.targetAlias, p.request, p.threshold, p.state, p.previous, CanaryReload)])
              && p' == C.Finished(true)
            case _ => true
  {
  }

  /** The same of the two rollbacks. */
  lemma RollbackAmongOthers(reg: Registry, w: World, p: R.Local, now: real)
    requires R.Checked(p) && p.Running? && p.request.Some?
    ensures var (w', p') := R.Step(reg, w, p, Works, now);
            var s := p.state;
            var payload := ReloadPayload(p.request.value.id, p.args.modelName, s.previousVersion.value, s.previousRunId.value, s.previousThreshold.value,
                                         Seen(p.metadata, (rt: Runtime) => rt.version), Seen(p.metadata, (rt: Runtime) => rt.runId));
            (p.pc == R.Reload ==>
               var next := ReloadModelVersion(reg, w.release, payload);
               if next.Some? then w' == w.(release := next.value) && p' == p.(pc := R.Verify, previous := Read(w.release))
               else w' == w && p' == p.(pc := R.RecordFailure))
            && (p.pc == R.Verify ==>
                  && w' == w
                  && p' == p.(pc := if Serves(w.release, p.args.modelName, s.previousVersion.value, s.previousRunId.value, s.previousThreshold.value, p.args.slot)
                                    then R.RecordEvent else R.RecordFailure))
            && (p.pc == R.RecordEvent || p.pc == R.RecordFailure ==>
                  w' == WithEvent(w, ReloadEvent(p.request.value.id, p.args.slot, p.pc == R.RecordEvent,
                                                 Seen(p.previous, (rt: Runtime) => rt.version), s.previousVersion.value)))
            && (p.pc == R.WriteState ==>
                  w' == w.(states := w.states[(p.args.modelName, p.args.slot) := StateRow(
                             p.args.modelName, p.args.slot, p.args.targetAlias,
                             s.previousRequestId, s.previousVersion.value, s.previousRunId.value, s.previousThreshold.value,
                             Some(p.request.value.id), Some(s.activeVersion), Some(s.activeRunId), Some(s.activeThreshold),
                             Rollback, Some(p.request.value.id))]))
  {
  }

  lemma CanaryRollbackAmongOthers(reg: Registry, w: World, p: B.Local, now: real)
    requires p.Running? && p.request.previousVersion.Some? && p.request.previousRunId.Some?
    ensures var (w', p') := B.Step(reg, w, p, Works, now);
            var payload := ReloadPayload(p.request.id, p.args.modelName, p.request.previousVersion.value, p.request.previousRunId.value, p.threshold, None, None);
            (p.pc == B.Reload ==>
               var next := ReloadModelVersion(reg, w.canary, payload);
               if next.Some? then w' == w.(canary := next.value) && p' == p.(pc := B.Verify, previous := Read(w.canary))
               else w' == w && p' == p.(pc := B.RecordFailure))
            && (p.pc == B.Verify ==>
                  && w' == w
                  && p' == p.(pc := if Serves(w.canary, p.args.modelName, p.request.previousVersion.value, p.request.previousRunId.value, p.threshold, p.args.slot)
                                    then B.RecordEvent else B.RecordFailure))
            && (p.pc == B.RecordEvent || p.pc == B.RecordFailure ==>
                  w' == WithEvent(w, ReloadEvent(p.request.id, p.args.slot, p.pc == B.RecordEvent,
                                                 Seen(p.previous, (rt: Runtime) => rt.version), p.request.previousVersion.value)))
  {
  }

  // ------------------------------------------------------------- lost answers

  /** A call whose answer is lost has the effect of one that works, and one that fails has none;
      neither leads on to a success. */
  lemma LostAnswersTakeEffect(reg: Registry, w: World, now: real, p: P.Local, c: C.Local, b: B.Local)
    ensures P.Step(reg, w, p, AnswerLost, now).0 == P.Step(reg, w, p, Works, now).0 && P.Step(reg, w, p, Down, now).0 == w
    ensures C.Step(reg, w, c, AnswerLost, now).0 == C.Step(reg, w, c, Works, now).0 && C.Step(reg, w, c, Down, now).0 == w
    ensures B.Step(reg, w, b, AnswerLost, now).0 == B.Step(reg, w, b, Works, now).0 && B.Step(reg, w, b, Down, now).0 == w
  {
  }

  lemma LostAnswersTakeEffectInRollback(reg: Registry, w: World, now: real, p: R.Local)
    requires R.Checked(p)
    ensures R.Step(reg, w, p, AnswerLost, now).0 == R.Step(reg, w, p, Works, now).0 && R.Step(reg, w, p, Down, now).0 == w
  {
  }

  /** Where a promotion goes on when a call does not work: before its guarded part it ends, in it
      the reload is recorded as failed, and after the reload only the request is failed. */
  function PromotionAfterFailure(p: P.Local): P.Local {
    if p.Finished? then p
    else if p.Starting? || p.pc in {P.ReadState, P.RecordFailure, P.MarkFailed} then P.Finished(false)
    else if p.pc == P.ReadMetadata then p.(pc := P.ReadState, metadata := Unreadable, previous := Unreadable)
    else if p.pc == P.ResetTraffic && !p.args.resetTraffic then p.(pc := P.MarkDeployed)
    else if p.pc in {P.MarkReloading, P.Reload, P.Verify, P.RecordEvent} then p.(pc := P.RecordFailure)
    else p.(pc := P.MarkFailed)
  }

  /** A rollback ends, or records a failed reload while the server may have been changed; an alias
      that cannot be read is passed. */
  function RollbackAfterFailure(p: R.Local): R.Local {
    if p.Finished? then p
    else if p.Starting? then R.Finished(false)
    else if p.pc == R.CheckAlias then p.(pc := R.ResetTraffic)
    else if p.pc == R.ResetTraffic && !p.args.resetTraffic then p.(pc := R.ReadMetadata)
    else if p.pc == R.AppendNote && !p.args.notes then p.(pc := R.MarkRequest)
    else if p.pc in {R.Reload, R.Verify, R.RecordEvent} then p.(pc := R.RecordFailure)
    else R.Finished(false)
  }

  function CanaryAfterFailure(p: C.Local): C.Local {
    if p.Finished? then p
    else if p.Starting? || p.pc in {C.ReadState, C.RecordFailure, C.MarkFailed} then C.Finished(false)
    else if p.pc == C.ReadMetadata then p.(pc := C.ReadState, previous := Unreadable)
    else p.(pc := C.RecordFailure)
  }

  /** A rollback of the canary never fails its request. */
  function CanaryRollbackAfterFailure(p: B.Local): B.Local {
    if p.Finished? then p
    else if p.Starting? then B.Finished(false)
    else if p.pc == B.ReadMetadata then p.(pc := B.Reload, previous := Unreadable)
    else if p.pc == B.AppendNote && !p.args.notes then p.(pc := B.MarkRequest)
    else if p.pc in {B.Reload, B.Verify, B.RecordEvent} then p.(pc := B.RecordFailure)
    else B.Finished(false)
  }

  lemma FailedCallLeadsOn(reg: Registry, w: World, o: Outcome, now: real, p: P.Local, r: R.Local, c: C.Local, b: B.Local)
    requires !o.Works? && R.Checked(r)
    ensures P.Step(reg, w, p, o, now).1 == PromotionAfterFailure(p)
    ensures R.Step(reg, w, r, o, now).1 == RollbackAfterFailure(r)
    ensures C.Step(reg, w, c, o, now).1 == CanaryAfterFailure(c)
    ensures B.Step(reg, w, b, o, now).1 == CanaryRollbackAfterFailure(b)
  {
    FailedPromotionCall(reg, w, o, now, p);
    FailedRollbackCall(reg, w, o, now, r);
  }

  lemma FailedPromotionCall(reg: Registry, w: World, o: Outcome, now: real, p: P.Local)
    requires !o.Works?
    ensures P.Step(reg, w, p, o, now).1 == PromotionAfterFailure(p)
  {
  }

  lemma FailedRollbackCall(reg: Registry, w: World, o: Outcome, now: real, r: R.Local)
    requires !o.Works? && R.Checked(r)
    ensures R.Step(reg, w, r, o, now).1 == RollbackAfterFailure(r)
  {
  }
}
