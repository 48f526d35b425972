/** Every serial run of the deployment scripts: one operator at a time, calls that fail or
    lose their answer, operators killed between any two calls, and a clock that never
    goes back. The invariants here hold in every state of every such run. */
module SerialRuns {
  import opened Common
  import opened Rollout
  import P = PromoteScript
  import R = RollbackScript
  import C = DeployCanaryScript
  import B = RollbackCanaryScript
  import A = PromoteAliasScript
  import M = ManualMarkScript

  datatype Operator =
    | Promoting(promote: P.Local)
    | RollingBack(rollback: R.Local)
    | DeployingCanary(canary: C.Local)
    | RollingBackCanary(canaryRollback: B.Local)
    | PromotingAlias(alias: A.Local)
    | Marking(id: RequestId, expectedSource: Option<Version>, done: bool)

  /** `history` lists the operations written to the release slot's recorded state. */
  datatype System = System(world: World, active: Option<Operator>, now: real, history: seq<Operation>)

  datatype Event =
    | Record(request: Request)
    | Launch(operator: Operator)
    | Call(outcome: Outcome, at: real)
    | Kill

  predicate Fresh(op: Operator) {
    match op
    case Promoting(p) => p.Starting?
    case RollingBack(p) => p.Starting?
    case DeployingCanary(p) => p.Starting?
    case RollingBackCanary(p) => p.Starting?
    case PromotingAlias(p) => p.Starting?
    case Marking(_, _, done) => !done
  }

  /** A request as the recording script inserts it. */
  predicate NewRequest(r: Request) {
    && r.status == NotStarted
    && r.promotedAt == r.canaryReloadStartedAt == r.canaryReadyAt == r.releaseReloadStartedAt == None
    && r.deployedAt == r.failedAt == r.rolledBackAt == None
  }

  /** Canary operators keep away from the release slot's row. */
  predicate OwnSlot(op: Operator, slot: string) {
    op.DeployingCanary? && op.canary.Starting? ==> op.canary.args.slot != slot
  }

  /** The next external call of the operator at work. */
  function CallStep(reg: Registry, w: World, op: Operator, o: Outcome, now: real): (World, Operator) {
    match op
    case Promoting(p) => var (w', p') := P.Step(reg, w, p, o, now); (w', Promoting(p'))
    case RollingBack(p) =>
      if !R.Checked(p) then (w, op) else var (w', p') := R.Step(reg, w, p, o, now); (w', RollingBack(p'))
    case DeployingCanary(p) => var (w', p') := C.Step(reg, w, p, o, now); (w', DeployingCanary(p'))
    case RollingBackCanary(p) => var (w', p') := B.Step(reg, w, p, o, now); (w', RollingBackCanary(p'))
    case PromotingAlias(p) => var (w', p') := A.Step(reg, w, p, o, now); (w', PromotingAlias(p'))
    case Marking(id, v, done) => (if done then w else M.Step(w, id, v, o, now), Marking(id, v, true))
  }

  /** The operation a call writes to the recorded state of `slot`, if any. */
  function Written(op: Operator, o: Outcome, key: (string, string)): seq<Operation> {
    match op
    case Promoting(p) =>
      if p.Running? && p.pc == P.WriteState && !o.Down? && (p.args.modelName, p.args.slot) == key then [Promotion] else []
    case RollingBack(p) =>
      if p.Running? && p.pc == R.WriteState && !o.Down? && (p.args.modelName, p.args.slot) == key then [Rollback] else []
    case _ => []
  }

  // ------------------------------------------------------------- invariants

  /** What a request's status and times say about its past. */
  predicate Timeline(r: Request, now: real) {
    && (r.canaryReloadStartedAt.Some? ==> r.canaryReloadStartedAt.value <= now)
    && (r.canaryReadyAt.Some? ==>
          r.canaryReloadStartedAt.Some? && r.canaryReloadStartedAt.value <= r.canaryReadyAt.value <= now)
    && (r.releaseReloadStartedAt.Some? ==>
          r.canaryReadyAt.Some? && r.canaryReadyAt.value <= r.releaseReloadStartedAt.value <= now)
    && (r.deployedAt.Some? ==>
          r.releaseReloadStartedAt.Some? && r.releaseReloadStartedAt.value <= r.deployedAt.value <= now)
    && (r.status == CanaryReloading ==> r.canaryReloadStartedAt.Some?)
    && (r.status == CanaryReady ==> r.canaryReadyAt.Some?)
    && (r.status == ReleaseReloading ==> r.releaseReloadStartedAt.Some?)
    && (r.status == Deployed ==> r.deployedAt.Some?)
    && (r.rolledBackAt.Some? ==> r.status == RolledBack)
    && (r.status != NotStarted ==> Gated(r))
  }

  /** Approved, and based on a passed serving-gate evaluation. */
  predicate Gated(r: Request) {
    r.approval == Approved && r.evalType == ServingGate && r.evalStatus == Passed
  }

  type Requests = map<RequestId, Request>

  predicate Timelines(rs: Requests, now: real) {
    forall id | id in rs :: rs[id].id == id && Timeline(rs[id], now)
  }

  /** The status of the request an operator works on, at each of its program points. */
  predicate PromoteStatus(pc: P.Pc, s: Status) {
    match pc
    case ReadMetadata => s == CanaryReady || s == ReleaseReloading
    case ReadState => s == CanaryReady || s == ReleaseReloading
    case MarkReloading => s == CanaryReady || s == ReleaseReloading
    case RecordFailure => s == CanaryReady || s == ReleaseReloading
    case WriteState => s == Deployed
    case MarkFailed => s == CanaryReady || s == ReleaseReloading || s == Deployed
    case _ => s == ReleaseReloading
  }

  predicate BeforeRelease(s: Status) {
    s == NotStarted || s == Promoted || s == CanaryReloading || s == CanaryReady
  }

  predicate CanaryStatus(pc: C.Pc, s: Status) {
    match pc
    case ReadMetadata => BeforeRelease(s)
    case ReadState => BeforeRelease(s)
    case MarkReloading => BeforeRelease(s)
    case RecordFailure => BeforeRelease(s)
    case MarkFailed => BeforeRelease(s)
    case WriteState => s == CanaryReady
    case _ => s == CanaryReloading
  }

  /** What each serial operator knows about the stores. */
  predicate PromotionHolds(w: World, p: P.Local) {
    p.Running? ==>
      && p.request.id in w.requests && Gated(w.requests[p.request.id])
      && PromoteStatus(p.pc, w.requests[p.request.id].status)
  }

  predicate RollbackStateHolds(w: World, p: R.Local) {
    p.Running? ==> StateOf(w, p.args.modelName, p.args.slot) == Some(p.state)
  }

  predicate RollbackRequestHolds(w: World, p: R.Local) {
    p.Running? && p.request.Some? ==>
      && p.request.value.id in w.requests
      && w.requests[p.request.value.id].status == (if p.pc == R.WriteState then RolledBack else Deployed)
  }

  predicate CanaryHolds(w: World, p: C.Local, slot: string) {
    p.Running? ==>
      && p.args.slot != slot
      && p.request.id in w.requests && Gated(w.requests[p.request.id])
      && CanaryStatus(p.pc, w.requests[p.request.id].status)
  }

  predicate CanaryRollbackHolds(w: World, p: B.Local) {
    p.Running? ==>
      p.request.id in w.requests && w.requests[p.request.id].status !in {NotStarted, RolledBack}
  }

  predicate AliasHolds(w: World, p: A.Local) {
    p.Running? ==>
      && p.request.id in w.requests && Gated(w.requests[p.request.id])
      && w.requests[p.request.id].status !in {Deployed, Failed, RolledBack, Superseded}
  }

  predicate Holds(w: World, op: Operator, key: (string, string)) {
    match op
    case Promoting(p) => PromotionHolds(w, p)
    case RollingBack(p) => R.Checked(p) && RollbackStateHolds(w, p) && RollbackRequestHolds(w, p)
    case DeployingCanary(p) => CanaryHolds(w, p, key.1)
    case RollingBackCanary(p) => CanaryRollbackHolds(w, p)
    case PromotingAlias(p) => AliasHolds(w, p)
    case Marking(_, _, _) => true
  }

  /** The last operation recorded for the slot is the last one in the history, and no
      rollback directly follows another. */
  predicate HistoryOk(w: World, key: (string, string), history: seq<Operation>) {
    && (history != [] ==> key in w.states && w.states[key].lastOperation == history[|history| - 1])
    && (forall i | 0 <= i < |history| :: history[i] in {Promotion, Rollback})
    && (forall i | 0 <= i < |history| - 1 :: history[i] == Rollback ==> history[i + 1] == Promotion)
  }

  predicate Invariant(s: System, key: (string, string)) {
    && Timelines(s.world.requests, s.now)
    && (s.active.Some? ==> Holds(s.world, s.active.value, key) && OwnSlot(s.active.value, key.1))
    && HistoryOk(s.world, key, s.history)
  }

  // ----------------------------------------------------- one call keeps them

  /** No row is lost, a time that is set keeps its value, and `rolled_back` is never left. */
  predicate KeepsPast(rs: Requests, rs': Requests) {
    forall id | id in rs :: id in rs' && KeepsTimes(rs[id], rs'[id]) && (rs[id].status == RolledBack ==> rs'[id].status == RolledBack)
  }

  /** What a request must have behind it before it is marked `s`. */
  predicate MayBeMarked(r: Request, s: Status) {
    && Gated(r) && r.status != RolledBack
    && (s == CanaryReady ==> r.canaryReloadStartedAt.Some?)
    && (s == ReleaseReloading ==> r.canaryReadyAt.Some?)
    && (s == Deployed ==> r.releaseReloadStartedAt.Some?)
  }

  lemma MarkKeepsTimeline(r: Request, s: Status, now: real, now': real)
    requires Timeline(r, now) && now <= now' && MayBeMarked(r, s)
    ensures Timeline(MarkStatus(r, s, now'), now') && MarkStatus(r, s, now').id == r.id && KeepsTimes(r, MarkStatus(r, s, now'))
  {
  }

  /** The rows after a call: unchanged, or one row marked that may be marked so. */
  predicate Marks(rs: Requests, rs': Requests, id: RequestId, s: Status, now': real) {
    rs' == rs || (id in rs && MayBeMarked(rs[id], s) && rs' == rs[id := MarkStatus(rs[id], s, now')])
  }

  lemma TimePasses(rs: Requests, now: real, now': real)
    requires Timelines(rs, now) && now <= now'
    ensures Timelines(rs, now') && KeepsPast(rs, rs)
  {
  }

  /** Replacing one row by one with the same past. */
  lemma RowKeepsTimelines(rs: Requests, id: RequestId, r: Request, now: real, now': real)
    requires Timelines(rs, now) && now <= now' && id in rs && r.id == id && Timeline(r, now') && KeepsTimes(rs[id], r)
    requires rs[id].status == RolledBack ==> r.status == RolledBack
    ensures Timelines(rs[id := r], now') && KeepsPast(rs, rs[id := r])
  {
    var rs' := rs[id := r];
    TimePasses(rs, now, now');
    forall i | i in rs' ensures rs'[i].id == i && Timeline(rs'[i], now') {
      assert i != id ==> rs'[i] == rs[i];
    }
  }

  lemma MarksKeepTimelines(rs: Requests, rs': Requests, id: RequestId, s: Status, now: real, now': real)
    requires Timelines(rs, now) && now <= now' && Marks(rs, rs', id, s, now')
    ensures Timelines(rs', now') && KeepsPast(rs, rs')
  {
    if rs' == rs {
      TimePasses(rs, now, now');
    } else {
      MarkKeepsTimeline(rs[id], s, now, now');
      RowKeepsTimelines(rs, id, MarkStatus(rs[id], s, now'), now, now');
    }
  }

  function PromoteMark(pc: P.Pc): Status {
    if pc == P.MarkReloading then ReleaseReloading else if pc == P.MarkDeployed then Deployed else Failed
  }

  lemma PromoteMarks(reg: Registry, w: World, p: P.Local, o: Outcome, now: real, now': real)
    requires PromotionHolds(w, p)
    requires p.Running? ==> Timeline(w.requests[p.request.id], now)
    ensures var w' := P.Step(reg, w, p, o, now').0;
            if p.Running? then Marks(w.requests, w'.requests, p.request.id, PromoteMark(p.pc), now')
            else w'.requests == w.requests
  {
  }

  lemma PromoteKeeps(reg: Registry, w: World, p: P.Local, o: Outcome, now: real)
    requires PromotionHolds(w, p)
    requires p.Starting? && p.id in w.requests ==> w.requests[p.id].id == p.id
    ensures var (w', p') := P.Step(reg, w, p, o, now); PromotionHolds(w', p')
  {
    P.StepRequests(reg, w, p, o, now);
    P.StepKeepsRun(reg, w, p, o, now);
    if p.Starting? {
      P.StartReadsRequest(reg, w, p, o, now);
    } else if p.Running? {
      PromoteStatusFollows(reg, w, p, o, now);
    }
  }

  /** The request's status is the one its program point calls for. */
  lemma PromoteStatusFollows(reg: Registry, w: World, p: P.Local, o: Outcome, now: real)
    requires p.Running? && PromotionHolds(w, p)
    ensures var (w', p') := P.Step(reg, w, p, o, now);
            p.request.id in w'.requests && (p'.Running? ==> PromoteStatus(p'.pc, w'.requests[p.request.id].status))
  {
    P.StepRequests(reg, w, p, o, now);
    if P.MarkOf(p.pc).None? {
      PromoteGoesOn(reg, w, p, o, now);
    } else {
      PromoteMarksAndGoesOn(reg, w, p, o, now);
    }
  }

  lemma PromoteGoesOn(reg: Registry, w: World, p: P.Local, o: Outcome, now: real)
    requires p.Running? && P.MarkOf(p.pc).None?
    ensures var (w', p') := P.Step(reg, w, p, o, now);
            w'.requests == w.requests && (p'.Running? ==> forall s | PromoteStatus(p.pc, s) :: PromoteStatus(p'.pc, s))
  {
  }

  lemma PromoteMarksAndGoesOn(reg: Registry, w: World, p: P.Local, o: Outcome, now: real)
    requires p.Running? && P.MarkOf(p.pc).Some? && PromotionHolds(w, p)
    ensures var (w', p') := P.Step(reg, w, p, o, now);
            p.request.id in w'.requests && (p'.Running? ==> PromoteStatus(p'.pc, w'.requests[p.request.id].status))
  {
  }

  lemma RollbackLeavesRequests(reg: Registry, w: World, p: R.Local, o: Outcome, now: real)
    requires R.Checked(p) && (p.Running? ==> p.pc != R.MarkRequest)
    ensures R.Step(reg, w, p, o, now).0.requests == w.requests
  {
  }

  lemma RollbackMarks(reg: Registry, w: World, p: R.Local, o: Outcome, now: real, now': real)
    requires R.Checked(p) && RollbackRequestHolds(w, p)
    requires p.Running? && p.request.Some? ==> Timeline(w.requests[p.request.value.id], now)
    ensures var w' := R.Step(reg, w, p, o, now').0;
            if p.Running? && p.request.Some?
            then Marks(w.requests, w'.requests, p.request.value.id, RolledBack, now')
            else w'.requests == w.requests
  {
    if p.Running? && p.pc == R.MarkRequest {
      RollbackMarksDeployed(reg, w, p, o, now, now');
    } else {
      RollbackLeavesRequests(reg, w, p, o, now');
    }
  }

  lemma RollbackMarksDeployed(reg: Registry, w: World, p: R.Local, o: Outcome, now: real, now': real)
    requires R.Checked(p) && RollbackRequestHolds(w, p) && p.Running? && p.pc == R.MarkRequest
    requires p.request.Some? && Timeline(w.requests[p.request.value.id], now)
    ensures Marks(w.requests, R.Step(reg, w, p, o, now').0.requests, p.request.value.id, RolledBack, now')
  {
  }

  lemma RollbackKeepsState(reg: Registry, w: World, p: R.Local, o: Outcome, now: real)
    requires R.Checked(p) && RollbackStateHolds(w, p)
    ensures var (w', p') := R.Step(reg, w, p, o, now); RollbackStateHolds(w', p')
  {
    if p.Running? { RollbackKeepsRow(reg, w, p, o, now); }
  }

  lemma RollbackKeepsRow(reg: Registry, w: World, p: R.Local, o: Outcome, now: real)
    requires R.Checked(p) && p.Running?
    ensures var (w', p') := R.Step(reg, w, p, o, now);
            p'.Running? ==> p'.args == p.args && p'.state == p.state && w'.states == w.states
  {
  }

  lemma RollbackKeepsRequest(reg: Registry, w: World, p: R.Local, o: Outcome, now: real)
    requires R.Checked(p) && RollbackRequestHolds(w, p)
    requires forall id | id in w.requests :: w.requests[id].id == id
    ensures var (w', p') := R.Step(reg, w, p, o, now); RollbackRequestHolds(w', p')
  {
    if p.Running? {
      if p.pc.ReadRequest? {
        RollbackReadsRequest(reg, w, p, o, now);
      } else {
        RollbackFollowsRequest(reg, w, p, o, now);
      }
    }
  }

  lemma RollbackReadsRequest(reg: Registry, w: World, p: R.Local, o: Outcome, now: real)
    requires R.Checked(p) && p.Running? && p.pc.ReadRequest?
    requires forall id | id in w.requests :: w.requests[id].id == id
    ensures var (w', p') := R.Step(reg, w, p, o, now);
            w' == w && (p'.Running? ==>
              && p'.pc.CheckAlias? && p'.request.Some? && p'.request.value.id in w.requests
              && w.requests[p'.request.value.id].status == Deployed)
  {
  }

  lemma RollbackFollowsRequest(reg: Registry, w: World, p: R.Local, o: Outcome, now: real)
    requires R.Checked(p) && p.Running? && !p.pc.ReadRequest? && RollbackRequestHolds(w, p)
    ensures var (w', p') := R.Step(reg, w, p, o, now);
            p'.Running? ==>
              && p'.request == p.request && p.request.value.id in w'.requests
              && (p'.pc.WriteState? <==> p.pc.MarkRequest?)
              && w'.requests[p.request.value.id].status == (if p.pc.MarkRequest? then RolledBack else Deployed)
  {
  }

  function CanaryMark(pc: C.Pc): Status {
    if pc == C.MarkReloading then CanaryReloading else if pc == C.MarkReady then CanaryReady else Failed
  }

  lemma CanaryMarks(reg: Registry, w: World, p: C.Local, o: Outcome, now: real, now': real, slot: string)
    requires CanaryHolds(w, p, slot)
    requires p.Running? ==> Timeline(w.requests[p.request.id], now)
    ensures var w' := C.Step(reg, w, p, o, now').0;
            if p.Running? then Marks(w.requests, w'.requests, p.request.id, CanaryMark(p.pc), now')
            else w'.requests == w.requests
  {
  }

  lemma CanaryKeeps(reg: Registry, w: World, p: C.Local, o: Outcome, now: real, slot: string)
    requires CanaryHolds(w, p, slot) && OwnSlot(DeployingCanary(p), slot)
    requires p.Starting? && p.id in w.requests ==> w.requests[p.id].id == p.id
    ensures var (w', p') := C.Step(reg, w, p, o, now);
            CanaryHolds(w', p', slot) && OwnSlot(DeployingCanary(p'), slot)
  {
    if p.Running? {
      CanaryFollowsRequest(reg, w, p, o, now, slot);
    } else {
      CanaryStarts(reg, w, p, o, now, slot);
    }
  }

  lemma CanaryStarts(reg: Registry, w: World, p: C.Local, o: Outcome, now: real, slot: string)
    requires !p.Running? && OwnSlot(DeployingCanary(p), slot)
    requires p.Starting? && p.id in w.requests ==> w.requests[p.id].id == p.id
    ensures var (w', p') := C.Step(reg, w, p, o, now); !p'.Starting? && CanaryHolds(w', p', slot)
  {
  }

  lemma CanaryGoesOn(reg: Registry, w: World, p: C.Local, o: Outcome, now: real)
    requires p.Running? && p.pc !in {C.MarkReloading, C.MarkReady, C.MarkFailed}
    ensures var (w', p') := C.Step(reg, w, p, o, now);
            && w'.requests == w.requests && !p'.Starting?
            && (p'.Running? ==> p'.args == p.args && p'.request == p.request && forall s | CanaryStatus(p.pc, s) :: CanaryStatus(p'.pc, s))
  {
  }

  lemma CanaryMarksAndGoesOn(reg: Registry, w: World, p: C.Local, o: Outcome, now: real, slot: string)
    requires p.Running? && p.pc in {C.MarkReloading, C.MarkReady, C.MarkFailed} && CanaryHolds(w, p, slot)
    ensures var (w', p') := C.Step(reg, w, p, o, now); !p'.Starting? && CanaryHolds(w', p', slot)
  {
  }

  lemma CanaryFollowsRequest(reg: Registry, w: World, p: C.Local, o: Outcome, now: real, slot: string)
    requires p.Running? && CanaryHolds(w, p, slot)
    ensures var (w', p') := C.Step(reg, w, p, o, now); !p'.Starting? && CanaryHolds(w', p', slot)
  {
    if p.pc in {C.MarkReloading, C.MarkReady, C.MarkFailed} {
      CanaryMarksAndGoesOn(reg, w, p, o, now, slot);
    } else {
      CanaryGoesOn(reg, w, p, o, now);
    }
  }

  lemma CanaryRollbackMarks(reg: Registry, w: World, p: B.Local, o: Outcome, now: real, now': real)
    requires CanaryRollbackHolds(w, p)
    requires p.Running? ==> Timeline(w.requests[p.request.id], now)
    ensures var w' := B.Step(reg, w, p, o, now').0;
            if p.Running? then Marks(w.requests, w'.requests, p.request.id, RolledBack, now')
            else w'.requests == w.requests
  {
  }

  lemma CanaryRollbackKeeps(reg: Registry, w: World, p: B.Local, o: Outcome, now: real)
    requires CanaryRollbackHolds(w, p)
    requires p.Starting? && p.id in w.requests ==> w.requests[p.id].id == p.id
    ensures var (w', p') := B.Step(reg, w, p, o, now); CanaryRollbackHolds(w', p')
  {
  }

  lemma PromotedKeepsTimeline(r: Request, now: real, now': real)
    requires Timeline(r, now) && now <= now' && Gated(r) && r.status != RolledBack
    ensures Timeline(MarkPromoted(r, now'), now') && MarkPromoted(r, now').id == r.id && KeepsTimes(r, MarkPromoted(r, now'))
  {
  }

  /** A request that was not rolled back has no time the manual mark could overwrite. */
  lemma ManualMarkKeepsTimeline(r: Request, now: real, now': real)
    requires Timeline(r, now) && now <= now' && r.status !in {NotStarted, RolledBack}
    ensures Timeline(MarkRolledBackManually(r, now'), now') && MarkRolledBackManually(r, now').id == r.id
    ensures KeepsTimes(r, MarkRolledBackManually(r, now'))
  {
    ManualMarkKeepsTimesExactlyWhen(r, now');
  }

  lemma AliasCall(reg: Registry, w: World, p: A.Local, o: Outcome, now: real, now': real)
    requires Timelines(w.requests, now) && now <= now' && AliasHolds(w, p)
    ensures var (w', p') := A.Step(reg, w, p, o, now');
            Timelines(w'.requests, now') && KeepsPast(w.requests, w'.requests) && AliasHolds(w', p')
  {
    TimePasses(w.requests, now, now');
    if p.Running? && p.pc == A.MarkRequest {
      PromotedKeepsTimeline(w.requests[p.request.id], now, now');
      RowKeepsTimelines(w.requests, p.request.id, MarkPromoted(w.requests[p.request.id], now'), now, now');
    } else {
      assert A.Step(reg, w, p, o, now').0.requests == w.requests;
    }
  }

  lemma MarkingCall(w: World, id: RequestId, v: Option<Version>, o: Outcome, now: real, now': real)
    requires Timelines(w.requests, now) && now <= now'
    ensures var w' := M.Step(w, id, v, o, now');
            Timelines(w'.requests, now') && KeepsPast(w.requests, w'.requests)
  {
    var w' := M.Step(w, id, v, o, now');
    TimePasses(w.requests, now, now');
    if w' != w {
      ManualMarkKeepsTimeline(w.requests[id], now, now');
      RowKeepsTimelines(w.requests, id, MarkRolledBackManually(w.requests[id], now'), now, now');
    }
  }

  /** One call of the active operator keeps the timelines and what the operator knows. */
  lemma CallKeepsTimelines(reg: Registry, key: (string, string), w: World, op: Operator, o: Outcome, now: real, now': real)
    requires Timelines(w.requests, now) && now <= now' && Holds(w, op, key) && OwnSlot(op, key.1)
    ensures var (w', op') := CallStep(reg, w, op, o, now');
            && Timelines(w'.requests, now') && KeepsPast(w.requests, w'.requests)
            && Holds(w', op', key) && OwnSlot(op', key.1)
  {
    var w' := CallStep(reg, w, op, o, now').0;
    match op
    case Promoting(p) =>
      PromoteMarks(reg, w, p, o, now, now');
      PromoteKeeps(reg, w, p, o, now');
      MarksKeepTimelines(w.requests, w'.requests, if p.Running? then p.request.id else "",
                         if p.Running? then PromoteMark(p.pc) else Failed, now, now');
    case RollingBack(p) =>
      RollbackMarks(reg, w, p, o, now, now');
      RollbackKeepsState(reg, w, p, o, now');
      RollbackKeepsRequest(reg, w, p, o, now');
      MarksKeepTimelines(w.requests, w'.requests, if p.Running? && p.request.Some? then p.request.value.id else "",
                         RolledBack, now, now');
    case DeployingCanary(p) =>
      CanaryMarks(reg, w, p, o, now, now', key.1);
      CanaryKeeps(reg, w, p, o, now', key.1);
      MarksKeepTimelines(w.requests, w'.requests, if p.Running? then p.request.id else "",
                         if p.Running? then CanaryMark(p.pc) else Failed, now, now');
    case RollingBackCanary(p) =>
      CanaryRollbackMarks(reg, w, p, o, now, now');
      CanaryRollbackKeeps(reg, w, p, o, now');
      MarksKeepTimelines(w.requests, w'.requests, if p.Running? then p.request.id else "", RolledBack, now, now');
    case PromotingAlias(p) => AliasCall(reg, w, p, o, now, now');
    case Marking(id, v, done) =>
      if done { MarksKeepTimelines(w.requests, w'.requests, id, Failed, now, now'); }
      else { MarkingCall(w, id, v, o, now, now'); }
  }

  /** The recorded row of the slot, as far as the history is concerned. */
  function RecordedOperation(w: World, key: (string, string)): Option<Operation> {
    if key in w.states then Some(w.states[key].lastOperation) else None
  }

  /** A promotion changes the recorded operation of its slot in its last call only. */
  lemma PromoteRecords(reg: Registry, w: World, p: P.Local, o: Outcome, now: real, key: (string, string))
    ensures var after := RecordedOperation(P.Step(reg, w, p, o, now).0, key);
            after == if Written(Promoting(p), o, key) == [] then RecordedOperation(w, key) else Some(Promotion)
  {
  }

  lemma RollbackRecords(reg: Registry, w: World, p: R.Local, o: Outcome, now: real, key: (string, string))
    requires R.Checked(p)
    ensures var after := RecordedOperation(R.Step(reg, w, p, o, now).0, key);
            after == if Written(RollingBack(p), o, key) == [] then RecordedOperation(w, key) else Some(Rollback)
  {
  }

  lemma CanaryRecords(reg: Registry, w: World, p: C.Local, o: Outcome, now: real, key: (string, string))
    requires CanaryHolds(w, p, key.1)
    ensures RecordedOperation(C.Step(reg, w, p, o, now).0, key) == RecordedOperation(w, key)
  {
  }

  /** A call that writes no operation for the slot leaves the slot's recorded operation alone. */
  lemma CallRecords(reg: Registry, w: World, op: Operator, o: Outcome, now: real, key: (string, string))
    requires Holds(w, op, key)
    ensures var after := RecordedOperation(CallStep(reg, w, op, o, now).0, key);
            after == if Written(op, o, key) == [] then RecordedOperation(w, key) else Some(Written(op, o, key)[0])
  {
    match op
    case Promoting(p) => PromoteRecords(reg, w, p, o, now, key);
    case RollingBack(p) => RollbackRecords(reg, w, p, o, now, key);
    case DeployingCanary(p) => CanaryRecords(reg, w, p, o, now, key);
    case RollingBackCanary(p) => assert B.Step(reg, w, p, o, now).0.states == w.states;
    case PromotingAlias(p) => assert A.Step(reg, w, p, o, now).0.states == w.states;
    case Marking(_, _, _) =>
  }

  lemma CallKeepsHistory(reg: Registry, w: World, op: Operator, o: Outcome, now: real, key: (string, string), h: seq<Operation>)
    requires Holds(w, op, key) && HistoryOk(w, key, h)
    ensures HistoryOk(CallStep(reg, w, op, o, now).0, key, h + Written(op, o, key))
  {
    CallRecords(reg, w, op, o, now, key);
    HistoryGrows(w, CallStep(reg, w, op, o, now).0, op, o, key, h);
  }

  lemma HistoryGrows(w: World, w': World, op: Operator, o: Outcome, key: (string, string), h: seq<Operation>)
    requires Holds(w, op, key) && HistoryOk(w, key, h)
    requires RecordedOperation(w', key)
             == if Written(op, o, key) == [] then RecordedOperation(w, key) else Some(Written(op, o, key)[0])
    ensures HistoryOk(w', key, h + Written(op, o, key))
  {
    if Written(op, o, key) == [] {
      assert h + [] == h;
    } else if op.RollingBack? {
      assert RecordedOperation(w, key) == Some(op.rollback.state.lastOperation);
    }
  }

  lemma CalledKeepsInvariant(reg: Registry, key: (string, string), w: World, op: Operator, o: Outcome,
                             now: real, now': real, h: seq<Operation>)
    requires Timelines(w.requests, now) && now <= now' && Holds(w, op, key) && OwnSlot(op, key.1) && HistoryOk(w, key, h)
    ensures var r := CallStep(reg, w, op, o, now');
            && Invariant(System(r.0, Some(r.1), now', h + Written(op, o, key)), key)
            && KeepsPast(w.requests, r.0.requests)
  {
    CallKeepsTimelines(reg, key, w, op, o, now, now');
    CallKeepsHistory(reg, w, op, o, now', key, h);
  }

  lemma RecordKeepsInvariant(s: System, r: Request, key: (string, string))
    requires Invariant(s, key) && r.id !in s.world.requests && NewRequest(r)
    ensures Invariant(s.(world := s.world.(requests := s.world.requests[r.id := r])), key)
    ensures KeepsPast(s.world.requests, s.world.requests[r.id := r])
  {
    if s.active.Some? { RecordKeepsHolds(s.world, r, s.active.value, key); }
  }

  lemma RecordKeepsHolds(w: World, r: Request, op: Operator, key: (string, string))
    requires Holds(w, op, key) && r.id !in w.requests
    ensures Holds(w.(requests := w.requests[r.id := r]), op, key)
  {
  }

  // -------------------------------------------------------------- whole runs

  type Caller = (World, Operator, Outcome, real) -> (World, Operator)

  function Scripts(reg: Registry): Caller {
    (w, op, o, now) => CallStep(reg, w, op, o, now)
  }

  function Next(call: Caller, key: (string, string), s: System, e: Event): System {
    match e
    case Record(r) =>
      if r.id in s.world.requests || !NewRequest(r) then s
      else s.(world := s.world.(requests := s.world.requests[r.id := r]))
    case Launch(op) =>
      if s.active.Some? || !Fresh(op) || !OwnSlot(op, key.1) then s else s.(active := Some(op))
    case Call(o, at) =>
      if s.active.None? || at < s.now then s
      else
        var r := call(s.world, s.active.value, o, at);
        System(r.0, Some(r.1), at, s.history + Written(s.active.value, o, key))
    case Kill => s.(active := None)
  }

  /** The state after a run of events. */
  function Execute(call: Caller, key: (string, string), s: System, events: seq<Event>): System
    decreases |events|
  {
    if events == [] then s else Execute(call, key, Next(call, key, s, events[0]), events[1..])
  }

  /** Every call keeps the invariant and the past of every request. */
  ghost predicate CallsKeep(call: Caller, key: (string, string)) {
    forall s: System, o, at {:trigger call(s.world, s.active.value, o, at)} |
      Invariant(s, key) && s.active.Some? && s.now <= at ::
        var r := call(s.world, s.active.value, o, at);
        && Invariant(System(r.0, Some(r.1), at, s.history + Written(s.active.value, o, key)), key)
        && KeepsPast(s.world.requests, r.0.requests)
  }

  lemma ScriptsKeep(reg: Registry, key: (string, string))
    ensures CallsKeep(Scripts(reg), key)
  {
    forall s: System, o, at | Invariant(s, key) && s.active.Some? && s.now <= at
      ensures var r := Scripts(reg)(s.world, s.active.value, o, at);
              && Invariant(System(r.0, Some(r.1), at, s.history + Written(s.active.value, o, key)), key)
              && KeepsPast(s.world.requests, r.0.requests)
    {
      CalledKeepsInvariant(reg, key, s.world, s.active.value, o, s.now, at, s.history);
    }
  }

  lemma NextKeepsInvariant(call: Caller, key: (string, string), s: System, e: Event)
    requires CallsKeep(call, key) && Invariant(s, key)
    ensures var s' := Next(call, key, s, e);
            Invariant(s', key) && KeepsPast(s.world.requests, s'.world.requests)
  {
    match e
    case Record(r) =>
      if r.id !in s.world.requests && NewRequest(r) { RecordKeepsInvariant(s, r, key); }
    case _ =>
  }

  lemma {:induction false} ExecuteKeepsInvariant(call: Caller, key: (string, string), s: System, events: seq<Event>)
    requires CallsKeep(call, key) && Invariant(s, key)
    ensures Invariant(Execute(call, key, s, events), key)
    decreases |events|
  {
    if events != [] {
      NextKeepsInvariant(call, key, s, events[0]);
      ExecuteKeepsInvariant(call, key, Next(call, key, s, events[0]), events[1..]);
    }
  }

  /** Where a run may begin: recorded requests that have not been started, nobody at work. */
  predicate Initial(s: System) {
    && s.active.None? && s.history == []
    && forall id | id in s.world.requests :: s.world.requests[id].id == id && NewRequest(s.world.requests[id])
  }

  lemma RunKeepsInvariant(reg: Registry, key: (string, string), s: System, events: seq<Event>)
    requires Initial(s)
    ensures Invariant(Execute(Scripts(reg), key, s, events), key)
  {
    ScriptsKeep(reg, key);
    ExecuteKeepsInvariant(Scripts(reg), key, s, events);
  }

  /** In every state of every serial run: a deployed request went through canary reload,
      canary ready and release reload in that order, and a request that was ever started is
      approved and rests on a passed serving-gate evaluation. */
  lemma DeployedWentThroughCanary(reg: Registry, key: (string, string), s: System, events: seq<Event>, id: RequestId)
    requires Initial(s)
    requires id in Execute(Scripts(reg), key, s, events).world.requests
    ensures var r := Execute(Scripts(reg), key, s, events).world.requests[id];
            && (r.status == Deployed ==>
                  && r.canaryReloadStartedAt.Some? && r.canaryReadyAt.Some?
                  && r.releaseReloadStartedAt.Some? && r.deployedAt.Some?
                  && r.canaryReloadStartedAt.value <= r.canaryReadyAt.value
                     <= r.releaseReloadStartedAt.value <= r.deployedAt.value)
            && (r.status != NotStarted ==> Gated(r))
  {
    RunKeepsInvariant(reg, key, s, events);
    var s' := Execute(Scripts(reg), key, s, events);
    assert Timeline(s'.world.requests[id], s'.now);
  }

  lemma KeepsPastTransitively(a: Requests, b: Requests, c: Requests)
    requires KeepsPast(a, b) && KeepsPast(b, c)
    ensures KeepsPast(a, c)
  {
    forall id | id in a
      ensures id in c && KeepsTimes(a[id], c[id]) && (a[id].status == RolledBack ==> c[id].status == RolledBack)
    {
      assert KeepsTimes(a[id], b[id]) && KeepsTimes(b[id], c[id]);
    }
  }

  lemma {:induction false} ExecuteKeepsPast(call: Caller, key: (string, string), s: System, events: seq<Event>)
    requires CallsKeep(call, key) && Invariant(s, key)
    ensures KeepsPast(s.world.requests, Execute(call, key, s, events).world.requests)
    decreases |events|
  {
    if events != [] {
      var s1 := Next(call, key, s, events[0]);
      NextKeepsInvariant(call, key, s, events[0]);
      ExecuteKeepsPast(call, key, s1, events[1..]);
      KeepsPastTransitively(s.world.requests, s1.world.requests, Execute(call, key, s, events).world.requests);
    }
  }

  /** In every serial run the time at which a request first reached a status stays, however the
      run goes on: even the manual mark never finds a time it would overwrite. */
  lemma TimesStay(reg: Registry, key: (string, string), s: System, before: seq<Event>, after: seq<Event>, id: RequestId)
    requires Initial(s) && id in Execute(Scripts(reg), key, s, before).world.requests
    ensures var s1 := Execute(Scripts(reg), key, s, before);
            var rs := Execute(Scripts(reg), key, s1, after).world.requests;
            id in rs && KeepsTimes(s1.world.requests[id], rs[id])
  {
    ScriptsKeep(reg, key);
    RunKeepsInvariant(reg, key, s, before);
    ExecuteKeepsPast(Scripts(reg), key, Execute(Scripts(reg), key, s, before), after);
  }

  /** Once a request is rolled back it stays rolled back, however the run goes on. */
  lemma RolledBackIsFinal(reg: Registry, key: (string, string), s: System, before: seq<Event>, after: seq<Event>, id: RequestId)
    requires Initial(s)
    requires var m := Execute(Scripts(reg), key, s, before).world.requests; id in m && m[id].status == RolledBack
    ensures var w' := Execute(Scripts(reg), key, Execute(Scripts(reg), key, s, before), after).world;
            id in w'.requests && w'.requests[id].status == RolledBack
  {
    ScriptsKeep(reg, key);
    RunKeepsInvariant(reg, key, s, before);
    ExecuteKeepsPast(Scripts(reg), key, Execute(Scripts(reg), key, s, before), after);
  }

  /** Between two rollbacks of the release slot there is always a promotion. */
  lemma RollbacksAreSeparated(reg: Registry, key: (string, string), s: System, events: seq<Event>, i: nat, j: nat)
    requires Initial(s)
    requires i < j < |Execute(Scripts(reg), key, s, events).history|
    requires Execute(Scripts(reg), key, s, events).history[i] == Rollback
    requires Execute(Scripts(reg), key, s, events).history[j] == Rollback
    ensures exists k :: i < k < j && Execute(Scripts(reg), key, s, events).history[k] == Promotion
  {
    RunKeepsInvariant(reg, key, s, events);
    var h := Execute(Scripts(reg), key, s, events).history;
    assert h[i + 1] == Promotion;
  }
}
