/** Promotions and rollbacks by any number of operators at once, interleaved call by call,
    in stores that anything else may change at any time. The reload is a compare-and-swap
    on the release version, for exactly the promotions that could read that version. */
module ReloadInterleaving {
  import opened Common
  import opened Rollout
  import P = PromoteScript
  import R = RollbackScript

  datatype Operator = Promoting(promote: P.Local) | RollingBack(rollback: R.Local)

  datatype System = System(world: World, operators: seq<Operator>)

  datatype Event =
    | StartPromotion(promoteArgs: P.Args, id: RequestId)
    | StartRollback(rollbackArgs: R.Args)
    | Call(operator: nat, outcome: Outcome, at: real)
    | Disturb(world: World)

  /** A promotion past its precondition check read metadata that fit its request. */
  predicate PromotionChecked(p: P.Local) {
    p.Running? && p.pc in {P.Reload, P.Verify, P.RecordEvent, P.MoveAlias, P.ClearSource, P.ResetTraffic,
                           P.MarkDeployed, P.WriteState} ==>
      P.ReleasePrecondition(p.metadata, p.request)
  }

  predicate Checked(op: Operator) {
    match op
    case Promoting(p) => PromotionChecked(p)
    case RollingBack(p) => R.Checked(p)
  }

  predicate AllChecked(s: System) {
    forall i | 0 <= i < |s.operators| :: Checked(s.operators[i])
  }

  lemma PromotionStaysChecked(reg: Registry, w: World, p: P.Local, o: Outcome, now: real)
    requires PromotionChecked(p)
    ensures PromotionChecked(P.Step(reg, w, p, o, now).1)
  {
  }

  function CallStep(reg: Registry, w: World, op: Operator, o: Outcome, now: real): (r: (World, Operator))
    requires Checked(op)
    ensures Checked(r.1)
  {
    match op
    case Promoting(p) =>
      PromotionStaysChecked(reg, w, p, o, now);
      var (w', p') := P.Step(reg, w, p, o, now); (w', Promoting(p'))
    case RollingBack(p) => var (w', p') := R.Step(reg, w, p, o, now); (w', RollingBack(p'))
  }

  function Next(reg: Registry, s: System, e: Event): (s': System)
    requires AllChecked(s)
    ensures AllChecked(s')
  {
    match e
    case StartPromotion(args, id) => s.(operators := s.operators + [Promoting(P.Starting(args, id))])
    case StartRollback(args) => s.(operators := s.operators + [RollingBack(R.Starting(args))])
    case Disturb(w) => s.(world := w)
    case Call(i, o, at) =>
      if i >= |s.operators| then s
      else
        var r := CallStep(reg, s.world, s.operators[i], o, at);
        System(r.0, s.operators[i := r.1])
  }

  function Execute(reg: Registry, s: System, events: seq<Event>): (s': System)
    requires AllChecked(s)
    ensures AllChecked(s')
    decreases |events|
  {
    if events == [] then s else Execute(reg, Next(reg, s, events[0]), events[1..])
  }

  function Start(w: World): System {
    System(w, [])
  }

  /** In every run of any number of operators: a promotion that read a version, and whose
      call changes the live release version, replaces exactly the version it read, which is
      the version its request was gated against. */
  lemma PromotionReplacesGatedVersion(reg: Registry, w0: World, events: seq<Event>, i: nat, o: Outcome, at: real)
    requires var s := Execute(reg, Start(w0), events);
             && i < |s.operators| && s.operators[i].Promoting? && s.operators[i].promote.Running?
             && Truthy(VersionOf(s.operators[i].promote.metadata))
    ensures var s := Execute(reg, Start(w0), events);
            var s' := Next(reg, s, Call(i, o, at));
            var p := s.operators[i].promote;
            s'.world.release.version != s.world.release.version ==>
              && s'.world.release.version == Some(p.request.sourceVersion)
              && s.world.release.version == VersionOf(p.metadata) == p.request.previousVersion
  {
    var s := Execute(reg, Start(w0), events);
    assert Checked(s.operators[i]);
    SwapIsGated(reg, s.world, s.operators[i].promote, o, at);
  }

  lemma SwapIsGated(reg: Registry, w: World, p: P.Local, o: Outcome, at: real)
    requires p.Running? && PromotionChecked(p) && Truthy(VersionOf(p.metadata))
    ensures var w' := P.Step(reg, w, p, o, at).0;
            w'.release.version != w.release.version ==>
              && w'.release.version == Some(p.request.sourceVersion)
              && w.release.version == VersionOf(p.metadata) == p.request.previousVersion
  {
    var w' := P.Step(reg, w, p, o, at).0;
    if p.pc != P.Reload {
      OnlyReloadSwaps(reg, w, p, o, at);
    }
  }

  lemma OnlyReloadSwaps(reg: Registry, w: World, p: P.Local, o: Outcome, at: real)
    requires p.Running? && p.pc != P.Reload
    ensures P.Step(reg, w, p, o, at).0.release == w.release
  {
  }

  /** The same for rollbacks, which always read a version: one that changes the live version
      restores the recorded previous version, in place of the active one it read. */
  lemma RollbackReplacesActiveVersion(reg: Registry, w0: World, events: seq<Event>, i: nat, o: Outcome, at: real)
    requires var s := Execute(reg, Start(w0), events);
             && i < |s.operators| && s.operators[i].RollingBack? && s.operators[i].rollback.Running?
             && s.operators[i].rollback.state.activeVersion != ""
    ensures var s := Execute(reg, Start(w0), events);
            var s' := Next(reg, s, Call(i, o, at));
            var p := s.operators[i].rollback;
            s'.world.release.version != s.world.release.version ==>
              && s'.world.release.version == p.state.previousVersion
              && (Truthy(p.state.previousVersion) ==> s.world.release.version == Some(p.state.activeVersion))
  {
    var s := Execute(reg, Start(w0), events);
    assert Checked(s.operators[i]);
    RollbackSwap(reg, s.world, s.operators[i].rollback, o, at);
  }

  lemma RollbackSwap(reg: Registry, w: World, p: R.Local, o: Outcome, at: real)
    requires R.Checked(p) && p.Running? && p.state.activeVersion != ""
    ensures var w' := R.Step(reg, w, p, o, at).0;
            w'.release.version != w.release.version ==>
              && w'.release.version == p.state.previousVersion
              && (Truthy(p.state.previousVersion) ==> w.release.version == Some(p.state.activeVersion))
  {
  }

  // ------------------------------------------------ exactly which promotions

  /** Whatever is live, this call replaces no version but the gated one. */
  ghost predicate ReplacesOnlyGated(reg: Registry, p: P.Local)
    requires p.Running?
  {
    forall w: World, o, at {:trigger P.Step(reg, w, p, o, at)} ::
      P.Step(reg, w, p, o, at).0.release.version != w.release.version ==>
        w.release.version == p.request.previousVersion
  }

  /** A runtime the reload of `p` would replace, running neither of the request's versions. */
  function Stranger(p: P.Local): Runtime
    requires p.Running?
  {
    Runtime(p.args.modelName, Some(p.request.sourceVersion + p.request.previousVersion.GetOr("") + "x"),
            RunIdOf(p.metadata), None, p.args.slot, None)
  }

  /** A reload about to be posted is a compare-and-swap on the gated version exactly when
      the pre-read reported a version: otherwise the server is told to expect nothing. */
  lemma GuardedExactlyWhenRead(reg: Registry, p: P.Local, w: World)
    requires p.Running? && p.pc == P.Reload && PromotionChecked(p)
    requires P.SourceRegistered(reg, p.request, p.args) && ThresholdAccepted(p.threshold)
    requires p.args.modelName != ""
    ensures ReplacesOnlyGated(reg, p) <==> Truthy(VersionOf(p.metadata))
  {
    if Truthy(VersionOf(p.metadata)) {
      forall w: World, o, at
        ensures P.Step(reg, w, p, o, at).0.release.version != w.release.version ==>
                  w.release.version == p.request.previousVersion
      {
        SwapIsGated(reg, w, p, o, at);
      }
    } else {
      var bad := w.(release := Stranger(p));
      var v := Stranger(p).version.value;
      assert |v| > |p.request.sourceVersion| && |v| > |p.request.previousVersion.GetOr("")|;
      assert ReloadModelVersion(reg, bad.release, P.Payload(p)).Some?;
      assert P.Step(reg, bad, p, Works, 0.0).0.release.version == Some(p.request.sourceVersion);
    }
  }
}
