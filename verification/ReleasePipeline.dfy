/** The whole way of a candidate: recorded, deployed to the canary, promoted; and the two ways
    back. */
module ReleasePipeline {
  import opened Common
  import opened Rollout
  import P = PromoteScript
  import R = RollbackScript
  import C = DeployCanaryScript
  import B = RollbackCanaryScript
  import opened PromoteThenRollback

  // ------------------------------------------------------------------ canary

  /** Exactly what an uninterrupted canary deployment needs of the stores. */
  predicate CanDeployCanary(reg: Registry, w: World, args: C.Args, id: RequestId) {
    && id in w.requests && w.requests[id].id == id
    && C.Deployable(w.requests[id], args) && C.SourceRegistered(reg, w.requests[id], args)
    && ThresholdAccepted(reg.thresholdOf[w.requests[id].sourceRunId])
    && w.canary.modelName == args.modelName && w.canary.slot == args.slot
  }

  function CanaryLocal(reg: Registry, w: World, args: C.Args, id: RequestId): C.Local
    requires id in w.requests && w.requests[id].sourceRunId in reg.thresholdOf
  {
    C.Running(args, w.requests[id], reg.thresholdOf[w.requests[id].sourceRunId], C.MarkReloading,
              StateOf(w, args.modelName, args.slot), Read(w.canary))
  }

  function CanaryServes(reg: Registry, w: World, args: C.Args, id: RequestId): Runtime
    requires CanDeployCanary(reg, w, args, id)
  {
    var r := w.requests[id];
    Runtime(args.modelName, Some(r.sourceVersion), Some(r.sourceRunId), Some(reg.thresholdOf[r.sourceRunId]), args.slot, Some(id))
  }

  function ReadyRequest(r: Request, clock: nat -> real): Request {
    MarkStatus(MarkStatus(r, CanaryReloading, clock(8)), CanaryReady, clock(4))
  }

  /** The stores an uninterrupted canary deployment leaves. */
  function CanaryWorld(reg: Registry, w: World, args: C.Args, id: RequestId, clock: nat -> real): World
    requires CanDeployCanary(reg, w, args, id)
  {
    var p := CanaryLocal(reg, w, args, id);
    w.(requests := w.requests[id := ReadyRequest(w.requests[id], clock)],
       canary := CanaryServes(reg, w, args, id),
       events := w.events + [C.Event(p, true)],
       states := w.states[(args.modelName, args.slot) := C.ReadyRow(p)])
  }

  lemma CanaryAdvances(reg: Registry, w: World, p: C.Local, w': World, p': C.Local, clock: nat -> real)
    requires !p.Finished? && C.Step(reg, w, p, Works, clock(C.Rank(p))) == (w', p')
    ensures C.Run(reg, w, p, NO_FAULTS, clock) == C.Run(reg, w', p', NO_FAULTS, clock)
  {
    assert NO_FAULTS(C.Rank(p)) == Works;
  }

  lemma CanaryReads(reg: Registry, w: World, args: C.Args, id: RequestId, clock: nat -> real)
    requires id in w.requests && C.Deployable(w.requests[id], args) && C.SourceRegistered(reg, w.requests[id], args)
    ensures C.Run(reg, w, C.Starting(args, id), NO_FAULTS, clock) == C.Run(reg, w, CanaryLocal(reg, w, args, id), NO_FAULTS, clock)
  {
    var p := CanaryLocal(reg, w, args, id);
    var p10 := p.(pc := C.ReadMetadata, state := None, previous := Unreadable);
    var p9 := p.(pc := C.ReadState, state := None);
    CanaryAdvances(reg, w, C.Starting(args, id), w, p10, clock);
    CanaryAdvances(reg, w, p10, w, p9, clock);
    CanaryAdvances(reg, w, p9, w, p, clock);
  }

  lemma CanaryReloads(reg: Registry, w: World, args: C.Args, id: RequestId, clock: nat -> real)
    requires CanDeployCanary(reg, w, args, id)
    ensures var p := CanaryLocal(reg, w, args, id);
            var w2 := MarkIn(w, id, CanaryReloading, clock(8)).(canary := CanaryServes(reg, w, args, id));
            C.Run(reg, w, p, NO_FAULTS, clock) == C.Run(reg, w2, p.(pc := C.RecordEvent), NO_FAULTS, clock)
  {
    var p := CanaryLocal(reg, w, args, id);
    var w1 := MarkIn(w, id, CanaryReloading, clock(8));
    var w2 := w1.(canary := CanaryServes(reg, w, args, id));
    CanaryAdvances(reg, w, p, w1, p.(pc := C.Reload), clock);
    assert ReloadModelVersion(reg, w1.canary, C.Payload(p)) == Some(w2.canary);
    CanaryAdvances(reg, w1, p.(pc := C.Reload), w2, p.(pc := C.Verify), clock);
    CanaryAdvances(reg, w2, p.(pc := C.Verify), w2, p.(pc := C.RecordEvent), clock);
  }

  lemma CanaryFinishes(reg: Registry, w: World, args: C.Args, id: RequestId, clock: nat -> real)
    requires CanDeployCanary(reg, w, args, id)
    ensures var p := CanaryLocal(reg, w, args, id);
            var w2 := MarkIn(w, id, CanaryReloading, clock(8)).(canary := CanaryServes(reg, w, args, id));
            C.Run(reg, w2, p.(pc := C.RecordEvent), NO_FAULTS, clock) == (CanaryWorld(reg, w, args, id, clock), true)
  {
    var p := CanaryLocal(reg, w, args, id);
    var w2 := MarkIn(w, id, CanaryReloading, clock(8)).(canary := CanaryServes(reg, w, args, id));
    var w3 := AppendEvent(w2, C.Event(p, true));
    var w4 := w3.(requests := CanaryWorld(reg, w, args, id, clock).requests);
    CanaryAdvances(reg, w2, p.(pc := C.RecordEvent), w3, p.(pc := C.MarkReady), clock);
    MarkTwice(w, w3, id, clock);
    CanaryAdvances(reg, w3, p.(pc := C.MarkReady), w4, p.(pc := C.WriteState), clock);
    CanaryAdvances(reg, w4, p.(pc := C.WriteState), UpsertState(w4, C.ReadyRow(p)), C.Finished(true), clock);
  }

  lemma MarkTwice(w: World, w3: World, id: RequestId, clock: nat -> real)
    requires id in w.requests && w3.requests == MarkIn(w, id, CanaryReloading, clock(8)).requests
    ensures MarkIn(w3, id, CanaryReady, clock(4)) == w3.(requests := w.requests[id := ReadyRequest(w.requests[id], clock)])
  {
    assert w3.requests[id := MarkStatus(w3.requests[id], CanaryReady, clock(4))] == w.requests[id := ReadyRequest(w.requests[id], clock)];
  }

  lemma CanarySucceeds(reg: Registry, w: World, args: C.Args, id: RequestId, clock: nat -> real)
    requires CanDeployCanary(reg, w, args, id)
    ensures C.Run(reg, w, C.Starting(args, id), NO_FAULTS, clock) == (CanaryWorld(reg, w, args, id, clock), true)
  {
    CanaryReads(reg, w, args, id, clock);
    CanaryReloads(reg, w, args, id, clock);
    CanaryFinishes(reg, w, args, id, clock);
  }

  lemma CanaryHandlerFails(reg: Registry, w: World, p: C.Local, clock: nat -> real)
    requires p.Running? && p.pc == C.RecordFailure
    ensures var w' := AppendEvent(w, C.Event(p, false));
            C.Run(reg, w, p, NO_FAULTS, clock) == (MarkIn(w', p.request.id, Failed, clock(1)), false)
  {
    var w1 := AppendEvent(w, C.Event(p, false));
    CanaryAdvances(reg, w, p, w1, p.(pc := C.MarkFailed), clock);
    CanaryAdvances(reg, w1, p.(pc := C.MarkFailed), MarkIn(w1, p.request.id, Failed, clock(1)), C.Finished(false), clock);
  }

  lemma CanaryFails(reg: Registry, w: World, args: C.Args, id: RequestId, clock: nat -> real)
    requires id in w.requests ==> w.requests[id].id == id
    requires !CanDeployCanary(reg, w, args, id)
    ensures !C.Run(reg, w, C.Starting(args, id), NO_FAULTS, clock).1
  {
    if id in w.requests && C.Deployable(w.requests[id], args) && C.SourceRegistered(reg, w.requests[id], args) {
      var p := CanaryLocal(reg, w, args, id);
      CanaryReads(reg, w, args, id, clock);
      var w1 := MarkIn(w, id, CanaryReloading, clock(8));
      CanaryAdvances(reg, w, p, w1, p.(pc := C.Reload), clock);
      var next := ReloadModelVersion(reg, w1.canary, C.Payload(p));
      if next.Some? {
        var w2 := w1.(canary := next.value);
        CanaryAdvances(reg, w1, p.(pc := C.Reload), w2, p.(pc := C.Verify), clock);
        CanaryAdvances(reg, w2, p.(pc := C.Verify), w2, p.(pc := C.RecordFailure), clock);
        CanaryHandlerFails(reg, w2, p.(pc := C.RecordFailure), clock);
      } else {
        CanaryAdvances(reg, w1, p.(pc := C.Reload), w1, p.(pc := C.RecordFailure), clock);
        CanaryHandlerFails(reg, w1, p.(pc := C.RecordFailure), clock);
      }
    } else {
      CanaryAdvances(reg, w, C.Starting(args, id), w, C.Finished(false), clock);
    }
  }

  /** `CanDeployCanary` says exactly when an uninterrupted canary deployment succeeds. */
  lemma CanarySucceedsExactlyWhen(reg: Registry, w: World, args: C.Args, id: RequestId, clock: nat -> real)
    requires id in w.requests ==> w.requests[id].id == id
    ensures C.Run(reg, w, C.Starting(args, id), NO_FAULTS, clock).1 <==> CanDeployCanary(reg, w, args, id)
  {
    if CanDeployCanary(reg, w, args, id) {
      CanarySucceeds(reg, w, args, id, clock);
    } else {
      CanaryFails(reg, w, args, id, clock);
    }
  }

  // ------------------------------------------------------ from record to live

  /** The stores with a new request. */
  function Recorded(w: World, r: Request): World {
    w.(requests := w.requests[r.id := r])
  }

  function PromotionOf(c: C.Args, slot: string, keepSourceAlias: bool, resetTraffic: bool): P.Args {
    P.Args(c.modelName, c.targetAlias, slot, keepSourceAlias, resetTraffic)
  }

  /** What the canary deployment needs of registry and canary server. */
  predicate CandidateDeployable(reg: Registry, w: World, args: C.Args, r: Request) {
    && C.SourceRegistered(reg, r, args) && ThresholdAccepted(reg.thresholdOf[r.sourceRunId])
    && w.canary.modelName == args.modelName && w.canary.slot == args.slot
  }

  /** A canary deployment leaves the release slot as it is, and its request promotable. */
  lemma CanaryLeavesPromotable(reg: Registry, w: World, args: C.Args, id: RequestId, slot: string, keep: bool, reset: bool, clock: nat -> real)
    requires CanDeployCanary(reg, w, args, id) && slot != args.slot
    requires Agreed(reg, w, args.modelName, args.targetAlias, slot)
    requires w.requests[id].previousVersion == w.release.version
    ensures var w1 := CanaryWorld(reg, w, args, id, clock);
            && Agreed(reg, w1, args.modelName, args.targetAlias, slot) && w1.release == w.release
            && CanPromote(reg, w1, PromotionOf(args, slot, keep, reset), id)
  {
    var w1 := CanaryWorld(reg, w, args, id, clock);
    assert w1.states[(args.modelName, slot)] == w.states[(args.modelName, slot)];
  }

  /** From agreed stores, a request that is recorded as approved goes through canary and
      release, each uninterrupted, exactly when its model is registered under its run with a
      threshold in [0, 1] and the canary server is the one meant; then it is live, champion and
      recorded, and rolling back still restores what was live before. */
  lemma RecordedRequestGoesLive(reg: Registry, w: World, e: Evaluation, c: Candidate, args: C.Args, slot: string, id: RequestId,
                                keep: bool, reset: bool, notes: bool,
                                canaryClock: nat -> real, clock: nat -> real, clock': nat -> real)
    requires Agreed(reg, w, args.modelName, args.targetAlias, slot) && slot != args.slot && id !in w.requests
    requires RecordRequest(reg, w, e, args.modelName, c, args.targetAlias, Approved, id).Some?
    ensures var r := RecordRequest(reg, w, e, args.modelName, c, args.targetAlias, Approved, id).value;
            var (w1, tried) := C.Run(reg, Recorded(w, r), C.Starting(args, id), NO_FAULTS, canaryClock);
            var promotion := PromotionOf(args, slot, keep, reset);
            var (w2, live) := P.Run(reg, w1, P.Starting(promotion, id), NO_FAULTS, clock);
            var (w3, undone) := R.Run(reg, w2, R.Starting(Undo(promotion, notes)), NO_FAULTS, clock');
            && (tried && live <==> CandidateDeployable(reg, w, args, r))
            && (tried && live ==>
                  && w2.release.version == w2.canary.version == Some(c.version)
                  && Agreed(reg, w2, args.modelName, args.targetAlias, slot) && id in w2.requests && w2.requests[id].status == Deployed
                  && (undone <==> ThresholdAccepted(w.release.threshold.value))
                  && (undone ==> w3.release == w.release.(reloadRequestId := Some(id)) && w3.canary == w2.canary))
  {
    var r := RecordRequest(reg, w, e, args.modelName, c, args.targetAlias, Approved, id).value;
    var w0 := Recorded(w, r);
    var promotion := PromotionOf(args, slot, keep, reset);
    CanarySucceedsExactlyWhen(reg, w0, args, id, canaryClock);
    assert CanDeployCanary(reg, w0, args, id) <==> CandidateDeployable(reg, w, args, r);
    if CanDeployCanary(reg, w0, args, id) {
      CanarySucceeds(reg, w0, args, id, canaryClock);
      CanaryLeavesPromotable(reg, w0, args, id, slot, keep, reset, canaryClock);
      GoesLiveAndBack(reg, CanaryWorld(reg, w0, args, id, canaryClock), promotion, id, notes, clock, clock');
    }
  }

  lemma GoesLiveAndBack(reg: Registry, w: World, args: P.Args, id: RequestId, notes: bool, clock: nat -> real, clock': nat -> real)
    requires Agreed(reg, w, args.modelName, args.targetAlias, args.slot) && CanPromote(reg, w, args, id)
    ensures var (w1, live) := P.Run(reg, w, P.Starting(args, id), NO_FAULTS, clock);
            var (w2, undone) := R.Run(reg, w1, R.Starting(Undo(args, notes)), NO_FAULTS, clock');
            && live && w1.release.version == Some(w.requests[id].sourceVersion) && w1.canary == w.canary
            && Agreed(reg, w1, args.modelName, args.targetAlias, args.slot)
            && id in w1.requests && w1.requests[id].status == Deployed
            && (undone <==> ThresholdAccepted(w.release.threshold.value))
            && (undone ==> w2.release == w.release.(reloadRequestId := Some(id)) && w2.canary == w.canary)
  {
    PromoteSucceeds(reg, w, args, id, clock);
    PromotionIsRecorded(reg, w, args, id, clock);
    PromotionEnablesRollback(reg, w, args, id, notes, clock);
    EnabledRollback(reg, PromotedWorld(reg, w, args, id, clock), Undo(args, notes), clock');
    RollbackUndoesPromotion(reg, w, args, id, notes, clock, clock');
  }

  // ------------------------------------------------------------- canary back

  predicate CanRollBackCanary(reg: Registry, w: World, args: B.Args, id: RequestId) {
    && id in w.requests && w.requests[id].id == id && B.Eligible(w.requests[id], args)
    && (args.reloadPrevious ==>
          && B.PreviousRegistered(reg, w.requests[id], args)
          && ThresholdAccepted(B.PreviousThreshold(reg, w.requests[id]))
          && w.canary.modelName == args.modelName && w.canary.slot == args.slot)
  }

  function BackLocal(reg: Registry, w: World, args: B.Args, id: RequestId, pc: B.Pc): B.Local
    requires id in w.requests
  {
    B.Running(args, w.requests[id], B.PreviousThreshold(reg, w.requests[id]), pc,
              if args.reloadPrevious && pc != B.ResetTraffic && pc != B.ReadMetadata then Read(w.canary) else Unreadable)
  }

  function PreviousServes(reg: Registry, w: World, args: B.Args, id: RequestId): Runtime
    requires id in w.requests
  {
    var r := w.requests[id];
    Runtime(args.modelName, r.previousVersion, r.previousRunId, Some(B.PreviousThreshold(reg, r)), args.slot, Some(id))
  }

  /** What a canary rollback leaves; it never touches the recorded runtime state. */
  function CanaryBackWorld(reg: Registry, w: World, args: B.Args, id: RequestId, clock: nat -> real): World
    requires id in w.requests
  {
    var back := w.(canaryPercent := 0, requests := w.requests[id := MarkStatus(w.requests[id], RolledBack, clock(2))]);
    if !args.reloadPrevious then back
    else back.(canary := PreviousServes(reg, w, args, id),
               events := w.events + [B.Event(BackLocal(reg, w, args, id, B.RecordEvent), true)])
  }

  lemma BackAdvances(reg: Registry, w: World, p: B.Local, w': World, p': B.Local, clock: nat -> real)
    requires !p.Finished? && B.Step(reg, w, p, Works, clock(B.Rank(p))) == (w', p')
    ensures B.Run(reg, w, p, NO_FAULTS, clock) == B.Run(reg, w', p', NO_FAULTS, clock)
  {
    assert NO_FAULTS(B.Rank(p)) == Works;
  }

  lemma BackMarks(reg: Registry, w: World, w2: World, args: B.Args, id: RequestId, clock: nat -> real)
    requires id in w.requests && w.requests[id].id == id && w2.requests == w.requests
    ensures B.Run(reg, w2, BackLocal(reg, w, args, id, B.AppendNote), NO_FAULTS, clock)
         == (w2.(requests := w.requests[id := MarkStatus(w.requests[id], RolledBack, clock(2))]), true)
  {
    var p := BackLocal(reg, w, args, id, B.AppendNote);
    BackAdvances(reg, w2, p, w2, p.(pc := B.MarkRequest), clock);
    BackAdvances(reg, w2, p.(pc := B.MarkRequest), MarkIn(w2, id, RolledBack, clock(2)), B.Finished(true), clock);
  }

  lemma BackReloads(reg: Registry, w: World, args: B.Args, id: RequestId, clock: nat -> real)
    requires CanRollBackCanary(reg, w, args, id) && args.reloadPrevious
    ensures var w0 := w.(canaryPercent := 0);
            var w2 := w0.(canary := PreviousServes(reg, w, args, id),
                          events := w.events + [B.Event(BackLocal(reg, w, args, id, B.RecordEvent), true)]);
            B.Run(reg, w0, BackLocal(reg, w, args, id, B.ReadMetadata), NO_FAULTS, clock)
            == B.Run(reg, w2, BackLocal(reg, w, args, id, B.AppendNote), NO_FAULTS, clock)
  {
    var w0 := w.(canaryPercent := 0);
    var w1 := w0.(canary := PreviousServes(reg, w, args, id));
    var p := BackLocal(reg, w, args, id, B.Reload);
    BackAdvances(reg, w0, BackLocal(reg, w, args, id, B.ReadMetadata), w0, p, clock);
    assert ReloadModelVersion(reg, w0.canary, B.Payload(p)) == Some(w1.canary);
    BackAdvances(reg, w0, p, w1, p.(pc := B.Verify), clock);
    BackAdvances(reg, w1, p.(pc := B.Verify), w1, p.(pc := B.RecordEvent), clock);
    BackAdvances(reg, w1, p.(pc := B.RecordEvent), AppendEvent(w1, B.Event(p, true)), p.(pc := B.AppendNote), clock);
  }

  /** An enabled canary rollback takes traffic off the canary, marks the request and, when told
      to, brings the previous version back; it writes no recorded state. */
  lemma CanaryRollbackSucceeds(reg: Registry, w: World, args: B.Args, id: RequestId, clock: nat -> real)
    requires CanRollBackCanary(reg, w, args, id)
    ensures B.Run(reg, w, B.Starting(args, id), NO_FAULTS, clock) == (CanaryBackWorld(reg, w, args, id, clock), true)
  {
    var w0 := w.(canaryPercent := 0);
    var p := BackLocal(reg, w, args, id, B.ResetTraffic);
    BackAdvances(reg, w, B.Starting(args, id), w, p, clock);
    if args.reloadPrevious {
      BackAdvances(reg, w, p, w0, BackLocal(reg, w, args, id, B.ReadMetadata), clock);
      BackReloads(reg, w, args, id, clock);
      BackMarks(reg, w, w0.(canary := PreviousServes(reg, w, args, id),
                            events := w.events + [B.Event(BackLocal(reg, w, args, id, B.RecordEvent), true)]), args, id, clock);
    } else {
      BackAdvances(reg, w, p, w0, BackLocal(reg, w, args, id, B.AppendNote), clock);
      BackMarks(reg, w, w0, args, id, clock);
    }
  }

  lemma CanaryRollbackFails(reg: Registry, w: World, args: B.Args, id: RequestId, clock: nat -> real)
    requires id in w.requests ==> w.requests[id].id == id
    requires !CanRollBackCanary(reg, w, args, id)
    ensures !B.Run(reg, w, B.Starting(args, id), NO_FAULTS, clock).1
  {
    if id in w.requests && B.Eligible(w.requests[id], args)
       && (args.reloadPrevious ==> B.PreviousRegistered(reg, w.requests[id], args)) {
      var w0 := w.(canaryPercent := 0);
      var p := BackLocal(reg, w, args, id, B.Reload);
      BackAdvances(reg, w, B.Starting(args, id), w, BackLocal(reg, w, args, id, B.ResetTraffic), clock);
      BackAdvances(reg, w, BackLocal(reg, w, args, id, B.ResetTraffic), w0, BackLocal(reg, w, args, id, B.ReadMetadata), clock);
      BackAdvances(reg, w0, BackLocal(reg, w, args, id, B.ReadMetadata), w0, p, clock);
      BackReloadFails(reg, w, w0, args, id, clock);
    } else {
      BackAdvances(reg, w, B.Starting(args, id), w, B.Finished(false), clock);
    }
  }

  lemma BackReloadFails(reg: Registry, w: World, w0: World, args: B.Args, id: RequestId, clock: nat -> real)
    requires id in w.requests && w.requests[id].id == id && w0 == w.(canaryPercent := 0)
    requires B.Eligible(w.requests[id], args) && args.reloadPrevious && B.PreviousRegistered(reg, w.requests[id], args)
    requires !CanRollBackCanary(reg, w, args, id)
    ensures !B.Run(reg, w0, BackLocal(reg, w, args, id, B.Reload), NO_FAULTS, clock).1
  {
    var p := BackLocal(reg, w, args, id, B.Reload);
    var next := ReloadModelVersion(reg, w0.canary, B.Payload(p));
    var q := p.(pc := B.RecordFailure);
    if next.Some? {
      var w1 := w0.(canary := next.value);
      BackAdvances(reg, w0, p, w1, p.(pc := B.Verify), clock);
      BackAdvances(reg, w1, p.(pc := B.Verify), w1, q, clock);
      BackAdvances(reg, w1, q, AppendEvent(w1, B.Event(q, false)), B.Finished(false), clock);
    } else {
      BackAdvances(reg, w0, p, w0, q, clock);
      BackAdvances(reg, w0, q, AppendEvent(w0, B.Event(q, false)), B.Finished(false), clock);
    }
  }

  /** `CanRollBackCanary` says exactly when an uninterrupted canary rollback succeeds. */
  lemma CanaryRollbackSucceedsExactlyWhen(reg: Registry, w: World, args: B.Args, id: RequestId, clock: nat -> real)
    requires id in w.requests ==> w.requests[id].id == id
    ensures B.Run(reg, w, B.Starting(args, id), NO_FAULTS, clock).1 <==> CanRollBackCanary(reg, w, args, id)
  {
    if CanRollBackCanary(reg, w, args, id) {
      CanaryRollbackSucceeds(reg, w, args, id, clock);
    } else {
      CanaryRollbackFails(reg, w, args, id, clock);
    }
  }

  /** After a canary deployment and its rollback, the recorded canary state names the live
      version exactly when the previous one was not reloaded, or was the same. */
  lemma CanaryRollbackLeavesRecordedState(reg: Registry, w: World, args: C.Args, id: RequestId, back: B.Args,
                                          clock: nat -> real, clock': nat -> real)
    requires CanDeployCanary(reg, w, args, id)
    requires back.modelName == args.modelName && back.slot == args.slot
    requires CanRollBackCanary(reg, CanaryWorld(reg, w, args, id, clock), back, id)
    ensures var (w1, tried) := C.Run(reg, w, C.Starting(args, id), NO_FAULTS, clock);
            var (w2, undone) := B.Run(reg, w1, B.Starting(back, id), NO_FAULTS, clock');
            && tried && undone && id in w2.requests && w2.requests[id].status == RolledBack && w2.canaryPercent == 0 && w2.release == w.release
            && (args.modelName, args.slot) in w2.states
            && (w2.canary.version == Some(w2.states[(args.modelName, args.slot)].activeVersion)
                <==> !back.reloadPrevious || w.requests[id].previousVersion == Some(w.requests[id].sourceVersion))
  {
    CanarySucceeds(reg, w, args, id, clock);
    var w1 := CanaryWorld(reg, w, args, id, clock);
    CanaryRollbackSucceeds(reg, w1, back, id, clock');
    assert w1.states[(args.modelName, args.slot)] == C.ReadyRow(CanaryLocal(reg, w, args, id));
  }

  // --------------------------------------------------------------- bootstrap

  /** A server that starts records itself exactly when all it serves is known and nothing is
      recorded for its slot: as active, with nothing before it. */
  lemma SeedsExactlyWhen(w: World, rt: Runtime, alias: Option<Alias>)
    ensures var key := (rt.modelName, rt.slot);
            SeedState(w, rt, alias)
            == if rt.version.Some? && rt.runId.Some? && rt.threshold.Some? && key !in w.states
               then w.(states := w.states[key := StateRow(
                         rt.modelName, rt.slot, if alias.None? || alias.value == "" then "champion" else alias.value,
                         None, rt.version.value, rt.runId.value, rt.threshold.value, None, None, None, None, Bootstrap, None)])
               else w
  {
  }

  /** A release server that starts with a fully known champion and finds no recorded row leaves
      stores that agree; a row that is there is never replaced. */
  lemma SeededStoresAgree(reg: Registry, w: World, alias: Alias)
    requires alias != "" && w.release.version.Some? && w.release.runId.Some? && w.release.threshold.Some?
    requires R.RegisteredAs(reg, w.release.modelName, w.release.version.value, w.release.runId.value)
    requires (w.release.modelName, alias) in w.aliases && w.aliases[(w.release.modelName, alias)] == w.release.version.value
    ensures var key, w' := (w.release.modelName, w.release.slot), SeedState(w, w.release, Some(alias));
            && (key in w.states ==> w' == w)
            && (key !in w.states ==> Agreed(reg, w', w.release.modelName, alias, w.release.slot)
                                     && !R.StateAllowsRollback(w'.states[key], R.Args(w.release.modelName, alias, w.release.slot, true, false)))
  {
    var row := SeedState(w, w.release, Some(alias)).states[(w.release.modelName, w.release.slot)];
  }
}
