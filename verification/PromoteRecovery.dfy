/** Recovery from killed promotions: any number of attempts on one request, each with
    arbitrary failing calls and killed after any number of steps, then one
    uninterrupted attempt. */
module PromoteRecovery {
  import opened Common
  import opened Rollout
  import P = PromoteScript
  import R = RollbackScript
  import opened PromoteThenRollback

  /** One attempt: which calls fail, at what times, and after how many steps it is killed. */
  datatype Attempt = Attempt(faults: nat -> Outcome, clock: nat -> real, steps: nat)

  /** The stores and locals after `steps` steps of a promotion. */
  function Killed(reg: Registry, w: World, p: P.Local, a: Attempt): (World, P.Local)
    decreases a.steps
  {
    if a.steps == 0 then (w, p)
    else
      var (w', p') := P.Step(reg, w, p, a.faults(P.Rank(p)), a.clock(P.Rank(p)));
      Killed(reg, w', p', a.(steps := a.steps - 1))
  }

  function KilledAttempts(reg: Registry, w: World, args: P.Args, id: RequestId, attempts: seq<Attempt>): World
    decreases |attempts|
  {
    if attempts == [] then w
    else KilledAttempts(reg, Killed(reg, w, P.Starting(args, id), attempts[0]).0, args, id, attempts[1..])
  }

  /** The request can still be promoted: no attempt has marked it deployed or failed. */
  predicate Open(w: World, id: RequestId) {
    id in w.requests && w.requests[id].status in {CanaryReady, ReleaseReloading}
  }

  /** The columns no deployment script ever changes. */
  function Fixed(r: Request): Request {
    r.(status := NotStarted, promotedAt := None, canaryReloadStartedAt := None, canaryReadyAt := None,
       releaseReloadStartedAt := None, deployedAt := None, failedAt := None, rolledBackAt := None)
  }

  predicate SameRequest(r: Request, r': Request) {
    Fixed(r) == Fixed(r')
  }

  /** The locals of an attempt on `id` that was started in these stores. */
  predicate Attempting(reg: Registry, w: World, p: P.Local, args: P.Args, id: RequestId) {
    && id in w.requests && w.requests[id].id == id
    && match p
       case Starting(a, i) => a == args && i == id
       case Finished(_) => true
       case Running(a, r, threshold, _, _, _, _) =>
         && a == args && r.id == id && SameRequest(r, w.requests[id])
         && r.sourceRunId in reg.thresholdOf && threshold == reg.thresholdOf[r.sourceRunId]
  }

  /** A step changes no column but the rollout status and its times, and the status only
      at the three program points that mark it. */
  lemma StepMarksRequest(reg: Registry, w: World, p: P.Local, args: P.Args, id: RequestId, o: Outcome, now: real)
    requires Attempting(reg, w, p, args, id)
    ensures var (w', p') := P.Step(reg, w, p, o, now);
            && Attempting(reg, w', p', args, id)
            && SameRequest(w.requests[id], w'.requests[id])
            && var s, s' := w.requests[id].status, w'.requests[id].status;
            (s' == s || (p.Running? && ((p.pc == P.MarkReloading && s' == ReleaseReloading)
                                        || (p.pc == P.MarkDeployed && s' == Deployed)
                                        || (p.pc == P.MarkFailed && s' == Failed))))
  {
    P.StepRequests(reg, w, p, o, now);
    P.StepKeepsRun(reg, w, p, o, now);
    if p.Starting? { P.StartReadsRequest(reg, w, p, o, now); }
    var (w', p') := P.Step(reg, w, p, o, now);
    MarkedRequest(reg, w, p, args, id, now, w', p');
  }

  lemma MarkedRequest(reg: Registry, w: World, p: P.Local, args: P.Args, id: RequestId, now: real, w': World, p': P.Local)
    requires Attempting(reg, w, p, args, id) && P.RequestsAfter(w, p, now, w') && P.SameRun(p, p')
    requires p.Starting? && p'.Running? ==>
               && p'.args == args && p'.request == w.requests[id] && p'.request.sourceRunId in reg.thresholdOf
               && p'.threshold == reg.thresholdOf[p'.request.sourceRunId]
    requires !p'.Starting?
    ensures Attempting(reg, w', p', args, id) && SameRequest(w.requests[id], w'.requests[id])
    ensures var s, s' := w.requests[id].status, w'.requests[id].status;
            s' == s || (p.Running? && P.MarkOf(p.pc) == Some(s'))
  {
  }

  /** A step leaves the live runtime alone or replaces it by the request's own model. */
  lemma StepServesSource(reg: Registry, w: World, p: P.Local, args: P.Args, id: RequestId, o: Outcome, now: real)
    requires Attempting(reg, w, p, args, id) && CanPromote(reg, w, args, id)
    ensures var w' := P.Step(reg, w, p, o, now).0;
            w'.release == w.release || w'.release == ServedSource(reg, w, args, id)
  {
  }

  /** The program points an attempt can be at after it has closed its request. */
  predicate Late(p: P.Local) {
    p.Finished? || (p.Running? && p.pc in {P.WriteState, P.MarkFailed})
  }

  /** Where an attempt goes when its step closes the request, and when it does not. */
  lemma StepMovesOn(reg: Registry, w: World, p: P.Local, args: P.Args, id: RequestId, o: Outcome, now: real)
    requires Attempting(reg, w, p, args, id)
    requires p.Running? ==> p.pc != P.WriteState
    ensures var (w', p') := P.Step(reg, w, p, o, now);
            && w'.states == w.states
            && (w'.requests[id].status != w.requests[id].status && w'.requests[id].status in {Deployed, Failed} ==> Late(p'))
            && (p'.Running? && p'.pc == P.WriteState ==> w'.requests[id].status == Deployed)
  {
  }

  /** Once the request is deployed or failed, the rest of the attempt never reopens it. */
  lemma ClosedStays(reg: Registry, w: World, p: P.Local, args: P.Args, id: RequestId, o: Outcome, now: real)
    requires Attempting(reg, w, p, args, id) && Late(p)
    requires w.requests[id].status in {Deployed, Failed}
    ensures var (w', p') := P.Step(reg, w, p, o, now);
            && Attempting(reg, w', p', args, id) && Late(p')
            && w'.requests[id].status in {Deployed, Failed}
            && w'.release == w.release
  {
  }

  /** One step of an attempt keeps everything the next attempt needs, unless it closes the request. */
  lemma StepKeepsPromotable(reg: Registry, w: World, p: P.Local, args: P.Args, id: RequestId, o: Outcome, now: real)
    requires Attempting(reg, w, p, args, id) && CanPromote(reg, w, args, id)
    requires p.Running? ==> p.pc != P.WriteState
    ensures var (w', p') := P.Step(reg, w, p, o, now);
            if Open(w', id)
            then CanPromote(reg, w', args, id) && w'.states == w.states && (p'.Running? ==> p'.pc != P.WriteState)
            else w'.requests[id].status in {Deployed, Failed} && Late(p')
  {
    StepMarksRequest(reg, w, p, args, id, o, now);
    StepServesSource(reg, w, p, args, id, o, now);
    StepMovesOn(reg, w, p, args, id, o, now);
  }

  /** A killed attempt either closes the request or leaves it promotable, with the recorded
      state untouched and the old runtime or the request's own model live. */
  lemma {:induction false} KilledKeepsPromotable(reg: Registry, w: World, p: P.Local, args: P.Args, id: RequestId, a: Attempt)
    requires Attempting(reg, w, p, args, id) && CanPromote(reg, w, args, id)
    requires p.Running? ==> p.pc != P.WriteState
    ensures var w' := Killed(reg, w, p, a).0;
            && id in w'.requests && SameRequest(w.requests[id], w'.requests[id])
            && (Open(w', id) ==> CanPromote(reg, w', args, id) && w'.states == w.states)
            && (!Open(w', id) ==> w'.requests[id].status in {Deployed, Failed})
            && (w'.release == w.release || w'.release == ServedSource(reg, w, args, id))
    decreases a.steps
  {
    if a.steps != 0 {
      var o, now := a.faults(P.Rank(p)), a.clock(P.Rank(p));
      var (w1, p1) := P.Step(reg, w, p, o, now);
      StepMarksRequest(reg, w, p, args, id, o, now);
      StepServesSource(reg, w, p, args, id, o, now);
      StepKeepsPromotable(reg, w, p, args, id, o, now);
      var rest := a.(steps := a.steps - 1);
      if Open(w1, id) {
        KilledKeepsPromotable(reg, w1, p1, args, id, rest);
      } else {
        ClosedKilled(reg, w1, p1, args, id, rest);
      }
    }
  }

  lemma {:induction false} ClosedKilled(reg: Registry, w: World, p: P.Local, args: P.Args, id: RequestId, a: Attempt)
    requires Attempting(reg, w, p, args, id) && Late(p)
    requires w.requests[id].status in {Deployed, Failed}
    ensures var w' := Killed(reg, w, p, a).0;
            && id in w'.requests && SameRequest(w.requests[id], w'.requests[id])
            && w'.requests[id].status in {Deployed, Failed} && w'.release == w.release
    decreases a.steps
  {
    if a.steps != 0 {
      var o, now := a.faults(P.Rank(p)), a.clock(P.Rank(p));
      var (w1, p1) := P.Step(reg, w, p, o, now);
      ClosedStays(reg, w, p, args, id, o, now);
      StepMarksRequest(reg, w, p, args, id, o, now);
      ClosedKilled(reg, w1, p1, args, id, a.(steps := a.steps - 1));
    }
  }

  /** While the request's model is not live, no attempt is past its reload. */
  predicate BeforeReload(w: World, p: P.Local, id: RequestId)
    requires id in w.requests
  {
    w.release.version != Some(w.requests[id].sourceVersion) && p.Running? ==>
      p.pc in {P.ReadMetadata, P.ReadState, P.MarkReloading, P.Reload, P.RecordFailure, P.MarkFailed}
  }

  /** ... so until the request's model is live, the aliases have not moved. */
  lemma StepMovesAliasLate(reg: Registry, w: World, p: P.Local, args: P.Args, id: RequestId, o: Outcome, now: real)
    requires Attempting(reg, w, p, args, id) && CanPromote(reg, w, args, id) && BeforeReload(w, p, id)
    ensures var (w', p') := P.Step(reg, w, p, o, now);
            && id in w'.requests && BeforeReload(w', p', id)
            && (w.release.version != Some(w.requests[id].sourceVersion) ==> w'.aliases == w.aliases)
  {
    StepMarksRequest(reg, w, p, args, id, o, now);
  }

  lemma {:induction false} KilledMovesAliasLate(reg: Registry, w: World, p: P.Local, args: P.Args, id: RequestId, a: Attempt)
    requires Attempting(reg, w, p, args, id) && CanPromote(reg, w, args, id) && BeforeReload(w, p, id)
    requires p.Running? ==> p.pc != P.WriteState
    requires Open(Killed(reg, w, p, a).0, id)
    requires Killed(reg, w, p, a).0.release.version != Some(w.requests[id].sourceVersion)
    ensures Killed(reg, w, p, a).0.aliases == w.aliases
    decreases a.steps
  {
    if a.steps != 0 {
      var o, now := a.faults(P.Rank(p)), a.clock(P.Rank(p));
      var (w1, p1) := P.Step(reg, w, p, o, now);
      var rest := a.(steps := a.steps - 1);
      StepMarksRequest(reg, w, p, args, id, o, now);
      StepServesSource(reg, w, p, args, id, o, now);
      StepKeepsPromotable(reg, w, p, args, id, o, now);
      StepMovesAliasLate(reg, w, p, args, id, o, now);
      if Open(w1, id) {
        KilledKeepsPromotable(reg, w1, p1, args, id, rest);
        KilledMovesAliasLate(reg, w1, p1, args, id, rest);
      } else {
        ClosedKilled(reg, w1, p1, args, id, rest);
      }
    }
  }

  lemma ClosedAttempt(reg: Registry, w: World, args: P.Args, id: RequestId, a: Attempt)
    requires id in w.requests && w.requests[id].id == id && w.requests[id].status in {Deployed, Failed}
    ensures var w' := Killed(reg, w, P.Starting(args, id), a).0;
            id in w'.requests && w'.requests[id].id == id && w'.requests[id].status in {Deployed, Failed}
  {
    if a.steps != 0 {
      ClosedKilled(reg, w, P.Finished(false), args, id, a.(steps := a.steps - 1));
    }
  }

  lemma {:induction false} ClosedAttempts(reg: Registry, w: World, args: P.Args, id: RequestId, attempts: seq<Attempt>)
    requires id in w.requests && w.requests[id].id == id && w.requests[id].status in {Deployed, Failed}
    ensures var w' := KilledAttempts(reg, w, args, id, attempts);
            id in w'.requests && w'.requests[id].id == id && w'.requests[id].status in {Deployed, Failed}
    decreases |attempts|
  {
    if attempts != [] {
      ClosedAttempt(reg, w, args, id, attempts[0]);
      ClosedAttempts(reg, Killed(reg, w, P.Starting(args, id), attempts[0]).0, args, id, attempts[1..]);
    }
  }

  /** After any number of killed attempts: either one of them closed the request, or the
      request is still promotable, its recorded state is the original one, the original
      runtime or the request's model is live, and in the first case the aliases stand. */
  lemma {:induction false} AttemptsKeepPromotable(reg: Registry, w: World, args: P.Args, id: RequestId, attempts: seq<Attempt>)
    requires CanPromote(reg, w, args, id)
    ensures var w' := KilledAttempts(reg, w, args, id, attempts);
            && id in w'.requests && w'.requests[id].id == id
            && (!Open(w', id) ==> w'.requests[id].status in {Deployed, Failed})
            && (Open(w', id) ==>
                  && CanPromote(reg, w', args, id) && SameRequest(w.requests[id], w'.requests[id])
                  && w'.states == w.states
                  && (w'.release == w.release || w'.release == ServedSource(reg, w, args, id))
                  && (w'.release.version != Some(w.requests[id].sourceVersion) ==> w'.aliases == w.aliases))
    decreases |attempts|
  {
    if attempts != [] {
      var p := P.Starting(args, id);
      var w1 := Killed(reg, w, p, attempts[0]).0;
      KilledKeepsPromotable(reg, w, p, args, id, attempts[0]);
      if Open(w1, id) {
        if w1.release.version != Some(w.requests[id].sourceVersion) {
          KilledMovesAliasLate(reg, w, p, args, id, attempts[0]);
        }
        AttemptsKeepPromotable(reg, w1, args, id, attempts[1..]);
      } else {
        ClosedAttempts(reg, w1, args, id, attempts[1..]);
      }
    }
  }

  /** Live runtime, champion alias, recorded state and request all name the request's model. */
  predicate Deployment(w: World, args: P.Args, id: RequestId) {
    && id in w.requests && w.requests[id].status == Deployed
    && var v := w.requests[id].sourceVersion;
    && w.release.version == Some(v) && w.release.runId == Some(w.requests[id].sourceRunId)
    && (args.modelName, args.targetAlias) in w.aliases && w.aliases[(args.modelName, args.targetAlias)] == v
    && (args.modelName, args.slot) in w.states
    && w.states[(args.modelName, args.slot)].activeVersion == v
    && w.states[(args.modelName, args.slot)].activeRequestId == Some(id)
  }

  /** Any number of killed promotions, then one uninterrupted promotion: it succeeds exactly
      when no attempt got as far as closing the request, and then everything agrees. */
  lemma RecoveryCompletes(reg: Registry, w: World, args: P.Args, id: RequestId, attempts: seq<Attempt>, clock: nat -> real)
    requires CanPromote(reg, w, args, id)
    ensures var w' := KilledAttempts(reg, w, args, id, attempts);
            var (w1, ok) := P.Run(reg, w', P.Starting(args, id), NO_FAULTS, clock);
            && (ok <==> Open(w', id))
            && (ok ==> Deployment(w1, args, id) && w1.requests[id].sourceVersion == w.requests[id].sourceVersion)
  {
    var w' := KilledAttempts(reg, w, args, id, attempts);
    AttemptsKeepPromotable(reg, w, args, id, attempts);
    PromoteSucceedsExactlyWhen(reg, w', args, id, clock);
    if Open(w', id) {
      PromoteSucceeds(reg, w', args, id, clock);
    }
  }

  /** What a recovered promotion can no longer undo: a rollback afterwards brings the
      original version back exactly when no killed attempt had replaced the runtime.
      Otherwise the promotion recorded its own model as the previous one. */
  lemma RollbackAfterRecovery(reg: Registry, w: World, args: P.Args, id: RequestId, attempts: seq<Attempt>,
                              notes: bool, clock: nat -> real, clock': nat -> real)
    requires CanPromote(reg, w, args, id) && Agreed(reg, w, args.modelName, args.targetAlias, args.slot)
    requires ThresholdAccepted(w.release.threshold.value)
    requires w.release.version != Some(w.requests[id].sourceVersion)
    requires Open(KilledAttempts(reg, w, args, id, attempts), id)
    ensures var w' := KilledAttempts(reg, w, args, id, attempts);
            var w1 := P.Run(reg, w', P.Starting(args, id), NO_FAULTS, clock).0;
            var (w2, undone) := R.Run(reg, w1, R.Starting(Undo(args, notes)), NO_FAULTS, clock');
            && undone
            && (w2.release.version == w.release.version <==> w'.release == w.release)
            && (w'.release != w.release ==>
                  && w2.release.version == Some(w.requests[id].sourceVersion)
                  && (args.modelName, args.slot) in w2.states
                  && w2.states[(args.modelName, args.slot)].activeRequestId == None)
  {
    var w' := KilledAttempts(reg, w, args, id, attempts);
    AttemptsKeepPromotable(reg, w, args, id, attempts);
    PromoteSucceeds(reg, w', args, id, clock);
    var w1 := PromotedWorld(reg, w', args, id, clock);
    if w'.release == w.release {
      RollbackUndoesPromotion(reg, w', args, id, notes, clock, clock');
    } else {
      var row := P.DeployedRow(StartedLocal(reg, w', args, id));
      assert w1.states[(args.modelName, args.slot)] == row;
      assert row.previousVersion == Some(w'.requests[id].sourceVersion) && row.previousRequestId == None;
      assert RollbackEnabled(reg, w1, Undo(args, notes));
      EnabledRollback(reg, w1, Undo(args, notes), clock');
    }
  }

  /** Such a killed attempt always exists: one killed right after its reload. */
  lemma KilledAfterReload(reg: Registry, w: World, args: P.Args, id: RequestId, clock: nat -> real)
    requires CanPromote(reg, w, args, id)
    ensures var w' := KilledAttempts(reg, w, args, id, [Attempt(NO_FAULTS, clock, 5)]);
            Open(w', id) && w'.release == ServedSource(reg, w, args, id)
  {
    var p11 := StartedLocal(reg, w, args, id);
    var p13 := p11.(pc := P.ReadMetadata, metadata := Unreadable, state := None, previous := Unreadable);
    var p12 := p11.(pc := P.ReadState, state := None);
    var p10 := p11.(pc := P.Reload);
    var w1 := MarkIn(w, id, ReleaseReloading, clock(11));
    KilledStep(reg, w, P.Starting(args, id), clock, 5);
    KilledStep(reg, w, p13, clock, 4);
    KilledStep(reg, w, p12, clock, 3);
    KilledStep(reg, w, p11, clock, 2);
    assert P.Step(reg, w, p11, Works, clock(11)) == (w1, p10);
    KilledStep(reg, w1, p10, clock, 1);
    assert ReloadModelVersion(reg, w1.release, P.Payload(p10)) == Some(ServedSource(reg, w, args, id));
  }

  lemma KilledStep(reg: Registry, w: World, p: P.Local, clock: nat -> real, n: nat)
    requires n > 0
    ensures var (w', p') := P.Step(reg, w, p, Works, clock(P.Rank(p)));
            Killed(reg, w, p, Attempt(NO_FAULTS, clock, n)) == Killed(reg, w', p', Attempt(NO_FAULTS, clock, n - 1))
  {
    assert NO_FAULTS(P.Rank(p)) == Works;
  }
}
