/** The deployment scripts in their own form: straight-line code that changes the shared
    stores call by call, with Python's guarded part and handler. Each is proved to do what
    the step sequence of its module does, whatever calls fail. */
module DeploymentStores {
  import opened Common
  import opened Rollout
  import P = PromoteScript
  import R = RollbackScript

  class Stores {
    var requests: map<RequestId, Request>
    var states: map<(string, string), StateRow>
    var release: Runtime
    var canary: Runtime
    var aliases: map<(string, Alias), Version>
    var canaryPercent: int
    var events: seq<ReloadEvent>

    function View(): World
      reads this
    {
      World(requests, states, release, canary, aliases, canaryPercent, events)
    }

    constructor (w: World)
      ensures View() == w
    {
      requests, states, release, canary := w.requests, w.states, w.release, w.canary;
      aliases, canaryPercent, events := w.aliases, w.canaryPercent, w.events;
    }

    /** `mark_deployment_request_rollout_status`. */
    method MarkRolloutStatus(id: RequestId, s: Status, o: Outcome, now: real) returns (ok: bool)
      modifies this
      ensures View() == if o.Down? then old(View()) else MarkIn(old(View()), id, s, now)
      ensures ok == MarkSeenOk(old(View()), id, o)
    {
      if !o.Down? && id in requests {
        requests := requests[id := MarkStatus(requests[id], s, now)];
      }
      ok := o.Works? && id in requests;
    }

    /** `insert_runtime_reload_event`. */
    method InsertReloadEvent(e: ReloadEvent, o: Outcome) returns (ok: bool)
      modifies this
      ensures View() == if o.Down? then old(View()) else AppendEvent(old(View()), e)
      ensures ok == o.Works?
    {
      if !o.Down? {
        events := events + [e];
      }
      ok := o.Works?;
    }

    /** POST to the release server's reload endpoint; `replaced` is the runtime the answer
        reports as the previous one. */
    method ReloadRelease(reg: Registry, p: ReloadPayload, o: Outcome) returns (ok: bool, replaced: Runtime)
      modifies this
      ensures var next := ReloadModelVersion(reg, old(release), p);
              && View() == (if o.Down? || next.None? then old(View()) else old(View()).(release := next.value))
              && ok == (o.Works? && next.Some?)
      ensures replaced == old(release)
    {
      replaced := release;
      var next := ReloadModelVersion(reg, release, p);
      if !o.Down? && next.Some? {
        release := next.value;
      }
      ok := o.Works? && next.Some?;
    }

    /** `set_registered_model_alias`. */
    method MoveAlias(modelName: string, a: Alias, v: Version, o: Outcome) returns (ok: bool)
      modifies this
      ensures View() == if o.Down? then old(View()) else SetAlias(old(View()), modelName, a, v)
      ensures ok == o.Works?
    {
      if !o.Down? {
        aliases := aliases[(modelName, a) := v];
      }
      ok := o.Works?;
    }

    /** `upsert_runtime_deployment_state`. */
    method WriteState(row: StateRow, o: Outcome) returns (ok: bool)
      modifies this
      ensures View() == if o.Down? then old(View()) else UpsertState(old(View()), row)
      ensures ok == o.Works?
    {
      if !o.Down? {
        states := states[(row.modelName, row.slot) := row];
      }
      ok := o.Works?;
    }

    /** `clear_source_alias_if_current`. */
    method ClearAlias(modelName: string, source: Option<Alias>, v: Version, target: Alias, keep: bool, o: Outcome)
      returns (ok: bool)
      modifies this
      ensures View() == if o.Down? then old(View()) else ClearSourceAlias(old(View()), modelName, source, v, target, keep)
      ensures ok == o.Works?
    {
      if !o.Down? && !keep && source.Some? && source.value != target
         && (modelName, source.value) in aliases && aliases[(modelName, source.value)] == v {
        aliases := aliases - {(modelName, source.value)};
      }
      ok := o.Works?;
    }

    method ResetCanaryTraffic(o: Outcome) returns (ok: bool)
      modifies this
      ensures View() == if o.Down? then old(View()) else old(View()).(canaryPercent := 0)
      ensures ok == o.Works?
    {
      if !o.Down? {
        canaryPercent := 0;
      }
      ok := o.Works?;
    }

    /** The guarded reload: mark, reload, verify, record. Leaves the local variables either after
        the recorded reload or in the handler. */
    method StartRelease(reg: Registry, start: P.Local, faults: nat -> Outcome, clock: nat -> real)
      returns (p: P.Local)
      requires start.Running? && start.pc == P.MarkReloading
      modifies this
      ensures P.Run(reg, View(), p, faults, clock) == P.Run(reg, old(View()), start, faults, clock)
      ensures p.Running? && p.pc in {P.MoveAlias, P.RecordFailure}
    {
      ghost var goal := P.Run(reg, View(), start, faults, clock);
      p := start;
      label guarded: {
        if !P.ReleasePrecondition(p.metadata, p.request) {
          break guarded;
        }
        var ok := MarkRolloutStatus(p.request.id, ReleaseReloading, faults(11), clock(11));
        if !ok { break guarded; }
        p := p.(pc := P.Reload);
        assert goal == P.Run(reg, View(), p, faults, clock);

        var replaced;
        ok, replaced := ReloadRelease(reg, P.Payload(p), faults(10));
        if !ok { break guarded; }
        p := p.(pc := P.Verify, previous := Read(replaced));
        assert goal == P.Run(reg, View(), p, faults, clock);

        if !faults(9).Works? ||
           !RuntimeIs(release, p.args.modelName, p.request.sourceVersion, p.request.sourceRunId,
                      p.threshold, p.args.slot) {
          break guarded;
        }
        p := p.(pc := P.RecordEvent);
        assert goal == P.Run(reg, View(), p, faults, clock);

        ok := InsertReloadEvent(P.Event(p, true), faults(8));
        if !ok { break guarded; }
        p := p.(pc := P.MoveAlias);
        return;
      }
      p := p.(pc := P.RecordFailure);
    }

    /** After the reload: the champion alias moves, the candidate alias goes. */
    method MoveAliases(reg: Registry, start: P.Local, faults: nat -> Outcome, clock: nat -> real)
      returns (p: P.Local)
      requires start.Running? && start.pc == P.MoveAlias
      modifies this
      ensures P.Run(reg, View(), p, faults, clock) == P.Run(reg, old(View()), start, faults, clock)
      ensures p.Running? && p.pc in {P.ResetTraffic, P.MarkFailed}
    {
      ghost var goal := P.Run(reg, View(), start, faults, clock);
      p := start;
      label guarded: {
        var ok := MoveAlias(p.args.modelName, p.args.targetAlias, p.request.sourceVersion, faults(7));
        if !ok { break guarded; }
        p := p.(pc := P.ClearSource);
        assert goal == P.Run(reg, View(), p, faults, clock);

        ok := ClearAlias(p.args.modelName, p.request.sourceAlias, p.request.sourceVersion,
                         p.args.targetAlias, p.args.keepSourceAlias, faults(6));
        if !ok { break guarded; }
        return p.(pc := P.ResetTraffic);
      }
      p := p.(pc := P.MarkFailed);
    }

    /** The end of a promotion: status and recorded state. */
    method RecordDeployment(reg: Registry, start: P.Local, faults: nat -> Outcome, clock: nat -> real)
      returns (p: P.Local)
      requires start.Running? && start.pc == P.MarkDeployed
      modifies this
      ensures P.Run(reg, View(), p, faults, clock) == P.Run(reg, old(View()), start, faults, clock)
      ensures p == P.Finished(true) || (p.Running? && p.pc == P.MarkFailed)
    {
      ghost var goal := P.Run(reg, View(), start, faults, clock);
      var ok := MarkRolloutStatus(start.request.id, Deployed, faults(4), clock(4));
      if !ok { return start.(pc := P.MarkFailed); }
      p := start.(pc := P.WriteState);
      assert goal == P.Run(reg, View(), p, faults, clock);

      ok := WriteState(P.DeployedRow(p), faults(3));
      p := if ok then P.Finished(true) else p.(pc := P.MarkFailed);
    }

    /** The same, with the canary traffic reset first. */
    method FinishRelease(reg: Registry, start: P.Local, faults: nat -> Outcome, clock: nat -> real)
      returns (p: P.Local)
      requires start.Running? && start.pc == P.ResetTraffic
      modifies this
      ensures P.Run(reg, View(), p, faults, clock) == P.Run(reg, old(View()), start, faults, clock)
      ensures p == P.Finished(true) || (p.Running? && p.pc == P.MarkFailed)
    {
      ghost var goal := P.Run(reg, View(), start, faults, clock);
      if start.args.resetTraffic {
        var ok := ResetCanaryTraffic(faults(5));
        if !ok { return start.(pc := P.MarkFailed); }
      }
      p := start.(pc := P.MarkDeployed);
      assert goal == P.Run(reg, View(), p, faults, clock);
      p := RecordDeployment(reg, p, faults, clock);
    }

    /** The failure handler: the failed reload is recorded, then the request is marked failed. */
    method HandlePromoteFailure(reg: Registry, start: P.Local, faults: nat -> Outcome, clock: nat -> real)
      requires start.Running? && start.pc in {P.RecordFailure, P.MarkFailed}
      modifies this
      ensures (View(), false) == P.Run(reg, old(View()), start, faults, clock)
    {
      ghost var goal := P.Run(reg, View(), start, faults, clock);
      var p := start;
      if p.pc == P.RecordFailure {
        var ok := InsertReloadEvent(P.Event(p, false), faults(2));
        if !ok {
          assert goal == P.Run(reg, View(), P.Finished(false), faults, clock);
          return;
        }
        p := p.(pc := P.MarkFailed);
        assert goal == P.Run(reg, View(), p, faults, clock);
      }
      var _ := MarkRolloutStatus(p.request.id, Failed, faults(1), clock(1));
      assert goal == P.Run(reg, View(), P.Finished(false), faults, clock);
    }

    /** Before the guarded part: the checks and the pre-reads. */
    method PreparePromotion(reg: Registry, args: P.Args, id: RequestId, faults: nat -> Outcome, clock: nat -> real)
      returns (p: P.Local)
      ensures P.Run(reg, View(), p, faults, clock) == P.Run(reg, View(), P.Starting(args, id), faults, clock)
      ensures p == P.Finished(false) || (p.Running? && p.pc == P.MarkReloading)
    {
      ghost var goal := P.Run(reg, View(), P.Starting(args, id), faults, clock);
      if !faults(14).Works? || id !in requests || !P.Promotable(requests[id], args)
         || !P.SourceRegistered(reg, requests[id], args) {
        return P.Finished(false);
      }
      var request := requests[id];
      p := P.Running(args, request, reg.thresholdOf[request.sourceRunId], P.ReadMetadata, Unreadable, None, Unreadable);
      assert goal == P.Run(reg, View(), p, faults, clock);

      var metadata := if faults(13).Works? then Read(release) else Unreadable;
      p := p.(pc := P.ReadState, metadata := metadata, previous := metadata);
      assert goal == P.Run(reg, View(), p, faults, clock);

      if !faults(12).Works? {
        return P.Finished(false);
      }
      p := p.(pc := P.MarkReloading, state := StateOf(View(), args.modelName, args.slot));
    }

    /** `main` of promote_candidate_to_release.py. */
    method Promote(reg: Registry, args: P.Args, id: RequestId, faults: nat -> Outcome, clock: nat -> real)
      returns (succeeded: bool)
      modifies this
      ensures (View(), succeeded) == P.Run(reg, old(View()), P.Starting(args, id), faults, clock)
    {
      var p := PreparePromotion(reg, args, id, faults, clock);
      if p.Finished? {
        return false;
      }
      p := StartRelease(reg, p, faults, clock);
      if p.pc == P.MoveAlias {
        p := MoveAliases(reg, p, faults, clock);
      }
      if p.pc == P.ResetTraffic {
        p := FinishRelease(reg, p, faults, clock);
      }
      if p.Finished? {
        return true;
      }
      HandlePromoteFailure(reg, p, faults, clock);
      succeeded := false;
    }

    /** Before the rollback's reload: canary traffic and the pre-read of the release server. */
    method PrepareRollback(reg: Registry, start: R.Local, faults: nat -> Outcome, clock: nat -> real)
      returns (p: R.Local)
      requires R.Checked(start) && start.Running? && start.pc == R.ResetTraffic
      modifies this
      ensures R.Checked(p)
      ensures R.Run(reg, View(), p, faults, clock) == R.Run(reg, old(View()), start, faults, clock)
      ensures p == R.Finished(false) || (p.Running? && p.pc == R.Reload)
    {
      ghost var goal := R.Run(reg, View(), start, faults, clock);
      p := start;
      if p.args.resetTraffic {
        var reset := ResetCanaryTraffic(faults(10));
        if !reset { return R.Finished(false); }
      }
      p := p.(pc := R.ReadMetadata);
      assert goal == R.Run(reg, View(), p, faults, clock);

      if !faults(9).Works? || !R.ReleasePrecondition(Read(release), p.state) {
        return R.Finished(false);
      }
      p := p.(metadata := Read(release), previous := Read(release), pc := R.Reload);
    }

    /** The rollback's guarded part: reload, verify, record. */
    method RestoreRuntime(reg: Registry, start: R.Local, faults: nat -> Outcome, clock: nat -> real)
      returns (p: R.Local)
      requires R.Checked(start) && start.Running? && start.pc == R.Reload
      modifies this
      ensures R.Checked(p)
      ensures R.Run(reg, View(), p, faults, clock) == R.Run(reg, old(View()), start, faults, clock)
      ensures p.Running? && p.pc in {R.MoveAlias, R.RecordFailure}
    {
      ghost var goal := R.Run(reg, View(), start, faults, clock);
      p := start;
      var ok, replaced := ReloadRelease(reg, R.Payload(p), faults(8));
      if !ok { return p.(pc := R.RecordFailure); }
      p := p.(previous := Read(replaced), pc := R.Verify);
      assert goal == R.Run(reg, View(), p, faults, clock);

      if !faults(7).Works? ||
         !RuntimeIs(release, p.args.modelName, p.state.previousVersion.value, p.state.previousRunId.value,
                    p.state.previousThreshold.value, p.args.slot) {
        return p.(pc := R.RecordFailure);
      }
      p := p.(pc := R.RecordEvent);
      assert goal == R.Run(reg, View(), p, faults, clock);

      ok := InsertReloadEvent(R.Event(p, true), faults(6));
      p := p.(pc := if ok then R.MoveAlias else R.RecordFailure);
    }

    /** The end of a rollback: alias, note, status and recorded state. */
    method FinishRollback(reg: Registry, start: R.Local, faults: nat -> Outcome, clock: nat -> real)
      returns (succeeded: bool)
      requires R.Checked(start) && start.Running? && start.pc == R.MoveAlias
      modifies this
      ensures (View(), succeeded) == R.Run(reg, old(View()), start, faults, clock)
    {
      ghost var goal := R.Run(reg, View(), start, faults, clock);
      var p := start;
      label guarded: {
        var ok := MoveAlias(p.args.modelName, p.args.targetAlias, p.state.previousVersion.value, faults(5));
        if !ok { break guarded; }
        p := p.(pc := R.AppendNote);
        assert goal == R.Run(reg, View(), p, faults, clock);

        if p.args.notes && !faults(4).Works? { break guarded; }
        p := p.(pc := R.MarkRequest);
        assert goal == R.Run(reg, View(), p, faults, clock);

        ok := MarkRolloutStatus(p.request.value.id, RolledBack, faults(3), clock(3));
        if !ok { break guarded; }
        p := p.(pc := R.WriteState);
        assert goal == R.Run(reg, View(), p, faults, clock);

        ok := WriteState(R.RolledBackRow(p), faults(2));
        assert goal == R.Run(reg, View(), R.Finished(ok), faults, clock);
        return ok;
      }
      assert goal == R.Run(reg, View(), R.Finished(false), faults, clock);
      succeeded := false;
    }

    /** The checks of a rollback: the recorded state, its request and the alias are checked. */
    method CheckRollback(reg: Registry, args: R.Args, faults: nat -> Outcome, clock: nat -> real) returns (p: R.Local)
      ensures R.Checked(p)
      ensures R.Run(reg, View(), p, faults, clock) == R.Run(reg, View(), R.Starting(args), faults, clock)
      ensures p == R.Finished(false) || (p.Running? && p.pc == R.ResetTraffic)
    {
      ghost var goal := R.Run(reg, View(), R.Starting(args), faults, clock);
      var found := StateOf(View(), args.modelName, args.slot);
      if !faults(13).Works? || found.None? || !R.StateAllowsRollback(found.value, args) {
        return R.Finished(false);
      }
      var state := found.value;
      p := R.Running(args, state, None, R.ReadRequest, Unreadable, Unreadable);
      assert goal == R.Run(reg, View(), p, faults, clock);

      if !faults(12).Works? || state.activeRequestId.None? || state.activeRequestId.value !in requests
         || !R.RequestAllowsRollback(requests[state.activeRequestId.value], args, state)
         || !R.VersionsRegistered(reg, args, state) {
        return R.Finished(false);
      }
      p := p.(request := Some(requests[state.activeRequestId.value]), pc := R.CheckAlias);
      assert goal == R.Run(reg, View(), p, faults, clock);

      if !R.AliasPrecondition(View(), args, state, faults(11)) {
        return R.Finished(false);
      }
      p := p.(pc := R.ResetTraffic);
    }

    /** `main` of rollback_release_deployment.py. */
    method RollBack(reg: Registry, args: R.Args, faults: nat -> Outcome, clock: nat -> real)
      returns (succeeded: bool)
      modifies this
      ensures (View(), succeeded) == R.Run(reg, old(View()), R.Starting(args), faults, clock)
    {
      var p := CheckRollback(reg, args, faults, clock);
      if p.Finished? {
        return false;
      }
      p := PrepareRollback(reg, p, faults, clock);
      if p.Finished? {
        return false;
      }
      p := RestoreRuntime(reg, p, faults, clock);
      if p.pc == R.MoveAlias {
        succeeded := FinishRollback(reg, p, faults, clock);
        return;
      }
      RecordRollbackFailure(reg, p, faults, clock);
      succeeded := false;
    }

    /** The handler of a rollback: the failed reload is recorded. */
    method RecordRollbackFailure(reg: Registry, start: R.Local, faults: nat -> Outcome, clock: nat -> real)
      requires R.Checked(start) && start.Running? && start.pc == R.RecordFailure
      modifies this
      ensures (View(), false) == R.Run(reg, old(View()), start, faults, clock)
    {
      ghost var goal := R.Run(reg, View(), start, faults, clock);
      var _ := InsertReloadEvent(R.Event(start, false), faults(1));
      assert goal == R.Run(reg, View(), R.Finished(false), faults, clock);
    }
  }
}
