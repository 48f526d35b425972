/** What every step of the batcher does, told of single requests and callers: which event ends a
    request and how, what a caller gets, and that a request which is asked for can be answered. */
module BatcherAnswers {
  import opened Common
  import opened Sequences
  import opened BatcherBoard
  import opened BatcherProtocol
  import opened BatcherRefinement
  import opened BatcherInvariants

  /** What becomes of a request whose row the runtime answered. */
  function Judged(p: Prediction): Outcome {
    if p.modelRunId.Some? && p.modelRunId.value != "" && p.threshold.Some? && p.numeric then Answered(p) else Failed(InvalidPrediction)
  }

  predicate InRange(i: nat, first: nat, count: nat) {
    first <= i < first + count
  }

  /** How an event ends a request that is still waited for, if it does. */
  function Ending(s: State, e: Event, i: nat): Option<Outcome>
    requires i < |s.board.pendings|
  {
    match e
    case Receive(reply) =>
      if s.cancelRequested || !s.worker.Calling? || i !in s.worker.active then None
      else if reply.Answer? then Some(Judged(reply.model(s.board.pendings[i].features)))
      else Some(Failed(RuntimeError(reply.code)))
    case PutTimeout(c) =>
      if c < |s.callers| && s.callers[c].Putting? && InRange(i, s.callers[c].first, s.callers[c].count)
      then Some(Failed(QueueFull)) else None
    case ResponseTimeout(c) =>
      if c < |s.callers| && s.callers[c].Awaiting? && InRange(i, s.callers[c].first, s.callers[c].count)
      then Some(Cancelled) else None
    case WorkerCancelled =>
      if s.cancelRequested && (s.worker.Collecting? || s.worker.Calling?) && i in s.worker.batch
      then Some(Failed(BatcherStopped)) else None
    case CloseDrain =>
      if s.closing && (s.worker.NotStarted? || s.worker.Stopped?) && i in s.queue then Some(Failed(BatcherClosed)) else None
    case _ => None
  }

  lemma {:induction false} SettleAllOutcomes(b: Board, ids: seq<nat>, o: Outcome)
    requires o != Waiting
    ensures var b' := SettleAll(b, ids, o);
            && b'.pendings == b.pendings && |b'.outcomes| == |b.outcomes|
            && forall i | 0 <= i < |b.outcomes| ::
                 b'.outcomes[i] == if b.outcomes[i] == Waiting && i in ids then o else b.outcomes[i]
    decreases |ids|
  {
    if ids != [] {
      SettleAllOutcomes(Settle(b, ids[0], o), ids[1..], o);
      assert ids == [ids[0]] + ids[1..];
    }
  }

  lemma {:induction false} DeliverAllOutcomes(b: Board, ids: seq<nat>, model: Model)
    requires Known(b, ids)
    ensures var b' := DeliverAll(b, ids, Answers(model, Rows(b, ids)));
            && b'.pendings == b.pendings && |b'.outcomes| == |b.outcomes|
            && forall i | 0 <= i < |b.outcomes| ::
                 b'.outcomes[i] == if b.outcomes[i] == Waiting && i in ids then Judged(model(b.pendings[i].features)) else b.outcomes[i]
    decreases |ids|
  {
    if ids != [] {
      var p := model(b.pendings[ids[0]].features);
      var b1 := Deliver(b, ids[0], p);
      DeliverAllOutcomes(b1, ids[1..], model);
      assert Answers(model, Rows(b, ids))[0] == p;
      assert Answers(model, Rows(b, ids))[1..] == Answers(model, Rows(b1, ids[1..]));
      assert ids == [ids[0]] + ids[1..];
    }
  }

  lemma {:induction false} RegisterAllPendings(b: Board, inputs: seq<Input>, owner: nat)
    requires |b.pendings| == |b.outcomes|
    ensures var b' := RegisterAll(b, inputs, owner);
            && |b'.pendings| == |b'.outcomes| == |b.pendings| + |inputs|
            && (forall i | 0 <= i < |b.pendings| :: b'.pendings[i] == b.pendings[i] && b'.outcomes[i] == b.outcomes[i])
            && (forall k | 0 <= k < |inputs| ::
                  b'.pendings[|b.pendings| + k] == Pending(inputs[k].0, inputs[k].1, Some(owner)) && b'.outcomes[|b.pendings| + k] == Waiting)
    decreases |inputs|
  {
    if inputs != [] {
      var n := |b.pendings|;
      var b1 := Register(b, Pending(inputs[0].0, inputs[0].1, Some(owner)));
      RegisterAllPendings(b1, inputs[1..], owner);
      var b' := RegisterAll(b, inputs, owner);
      forall k | 0 <= k < |inputs|
        ensures b'.pendings[n + k] == Pending(inputs[k].0, inputs[k].1, Some(owner)) && b'.outcomes[n + k] == Waiting
      {
        if k > 0 { assert b'.pendings[n + 1 + (k - 1)] == Pending(inputs[1..][k - 1].0, inputs[1..][k - 1].1, Some(owner)); }
      }
    }
  }

  lemma ActiveOfEmpty(b: Board, ids: seq<nat>)
    requires ActiveOf(b, ids) == []
    ensures forall i | i in ids :: !Open(b, i)
  {
    ActiveOfIsOpenPart(b, ids);
    forall i | i in ids ensures !Open(b, i) { assert i !in ActiveOf(b, ids); }
  }

  lemma IdsAreRange(first: nat, count: nat)
    ensures forall i: nat :: i in Ids(first, count) <==> InRange(i, first, count)
  {
    forall i: nat | InRange(i, first, count) ensures i in Ids(first, count) { assert Ids(first, count)[i - first] == i; }
  }

  /** Request `i` is as `e` leaves it. */
  predicate Follows(s: State, e: Event, i: nat, t: State)
    requires i < |s.board.outcomes| && i < |s.board.pendings|
  {
    && i < |t.board.outcomes| && i < |t.board.pendings| && t.board.pendings[i] == s.board.pendings[i]
    && t.board.outcomes[i] == if s.board.outcomes[i] == Waiting then Ending(s, e, i).GetOr(Waiting) else s.board.outcomes[i]
  }

  lemma TimeoutFollows(s: State, e: Event, i: nat)
    requires |s.board.pendings| == |s.board.outcomes| && i < |s.board.outcomes| && (e.PutTimeout? || e.ResponseTimeout?)
    ensures Follows(s, e, i, Next(s, e))
  {
    var c := e.caller;
    if c < |s.callers| && s.callers[c].Putting? {
      RangeEnds(s, s.callers[c].first, s.callers[c].count, Failed(QueueFull));
    } else if c < |s.callers| && s.callers[c].Awaiting? {
      RangeEnds(s, s.callers[c].first, s.callers[c].count, Cancelled);
    }
  }

  lemma ReceiveFollows(s: State, reply: Reply, i: nat)
    requires Invariant(s) && i < |s.board.outcomes|
    ensures Follows(s, Receive(reply), i, Next(s, Receive(reply)))
  {
    if !s.cancelRequested && s.worker.Calling? { ReceiveEnds(s, reply); }
  }

  lemma ShutdownFollows(s: State, e: Event, i: nat)
    requires |s.board.pendings| == |s.board.outcomes| && i < |s.board.outcomes| && (e.WorkerCancelled? || e.CloseDrain?)
    ensures Follows(s, e, i, Next(s, e))
  {
    SettleAllOutcomes(s.board, Current(s.worker), Failed(BatcherStopped));
    SettleAllOutcomes(s.board, s.queue, Failed(BatcherClosed));
  }

  lemma NewcomersFollow(s: State, e: Event, i: nat)
    requires |s.board.pendings| == |s.board.outcomes| && i < |s.board.outcomes| && (e.SubmitNowait? || e.Invoke?)
    ensures Follows(s, e, i, Next(s, e))
  {
    if e.Invoke? { RegisterAllPendings(s.board, e.inputs, |s.callers|); }
  }

  lemma OthersFollow(s: State, e: Event, i: nat)
    requires |s.board.pendings| == |s.board.outcomes| && i < |s.board.outcomes|
    requires e.Start? || e.Put? || e.Resume? || e.TakeFirst? || e.TakeMore? || e.Dispatch? || e.CloseBegin?
    ensures Follows(s, e, i, Next(s, e)) && Next(s, e).board == s.board
  {
  }

  /** A step ends exactly the requests `Ending` names, and leaves all other requests there were
      as they are. */
  lemma FuturesFollow(s: State, e: Event, i: nat)
    requires Invariant(s) && i < |s.board.outcomes|
    ensures Follows(s, e, i, Next(s, e))
  {
    if e.Receive? {
      ReceiveFollows(s, e.reply, i);
    } else if e.PutTimeout? || e.ResponseTimeout? {
      TimeoutFollows(s, e, i);
    } else if e.WorkerCancelled? || e.CloseDrain? {
      ShutdownFollows(s, e, i);
    } else if e.SubmitNowait? || e.Invoke? {
      NewcomersFollow(s, e, i);
    } else {
      OthersFollow(s, e, i);
    }
  }

  lemma RangeEnds(s: State, first: nat, count: nat, o: Outcome)
    requires o != Waiting
    ensures var b' := SettleAll(s.board, Ids(first, count), o);
            && b'.pendings == s.board.pendings && |b'.outcomes| == |s.board.outcomes|
            && forall i | 0 <= i < |s.board.outcomes| ::
                 b'.outcomes[i] == if s.board.outcomes[i] == Waiting && InRange(i, first, count) then o else s.board.outcomes[i]
    ensures ActiveOf(s.board, Ids(first, count)) == [] ==>
              forall i | 0 <= i < |s.board.outcomes| && InRange(i, first, count) :: s.board.outcomes[i] != Waiting
  {
    SettleAllOutcomes(s.board, Ids(first, count), o);
    IdsAreRange(first, count);
    if ActiveOf(s.board, Ids(first, count)) == [] {
      ActiveOfEmpty(s.board, Ids(first, count));
      forall i | 0 <= i < |s.board.outcomes| && InRange(i, first, count) ensures s.board.outcomes[i] != Waiting {
        assert i in Ids(first, count);
      }
    }
  }

  lemma ReceiveEnds(s: State, reply: Reply)
    requires Invariant(s) && s.worker.Calling?
    ensures Known(s.board, s.worker.active)
    ensures var b' := Received(s, reply).board;
            && b'.pendings == s.board.pendings && |b'.outcomes| == |s.board.outcomes|
            && forall i | 0 <= i < |s.board.outcomes| ::
                 b'.outcomes[i] ==
                 if s.board.outcomes[i] == Waiting && i in s.worker.active then
                   (if reply.Answer? then Judged(reply.model(s.board.pendings[i].features)) else Failed(RuntimeError(reply.code)))
                 else s.board.outcomes[i]
  {
    ActiveAreKnown(s);
    match reply
    case Answer(model) => DeliverAllOutcomes(s.board, s.worker.active, model);
    case Fault(code) => SettleAllOutcomes(s.board, s.worker.active, Failed(RuntimeError(code)));
  }

  lemma RunHasInvariant(c: Config, events: seq<Event>)
    requires ValidConfig(c)
    ensures Invariant(Execute(c, events)) && Execute(c, events).config == c
  {
    AccountingAlwaysHolds(c, events);
    ItemsAreCompleted(c, events);
    EventsMatchAnswers(c, events);
  }

  lemma ExecuteAppend(c: Config, events: seq<Event>, e: Event)
    ensures Execute(c, events + [e]) == Next(Execute(c, events), e)
  {
    assert (events + [e])[..|events|] == events;
  }

  /** In every run, every step: which requests end, and how. */
  lemma EveryFutureFollows(c: Config, events: seq<Event>, e: Event, i: nat)
    requires ValidConfig(c) && i < |Execute(c, events).board.outcomes|
    ensures var s, t := Execute(c, events), Execute(c, events + [e]);
            && i < |s.board.pendings| && i < |t.board.outcomes| && i < |t.board.pendings| && t.board.pendings[i] == s.board.pendings[i]
            && t.board.outcomes[i] == if s.board.outcomes[i] == Waiting then Ending(s, e, i).GetOr(Waiting) else s.board.outcomes[i]
  {
    RunHasInvariant(c, events);
    ExecuteAppend(c, events, e);
    FuturesFollow(Execute(c, events), e, i);
  }

  /** The requests a step adds. */
  function Added(s: State, e: Event): seq<Pending> {
    match e
    case SubmitNowait(f, context) => if s.running then [Pending(f, context, None)] else []
    case Invoke(inputs) =>
      if s.running
      then seq(|inputs|, k requires 0 <= k < |inputs| => Pending(inputs[k].0, inputs[k].1, Some(|s.callers|)))
      else []
    case _ => []
  }

  predicate Grows(s: State, e: Event, t: State) {
    && t.board.pendings == s.board.pendings + Added(s, e) && |t.board.outcomes| == |t.board.pendings|
    && forall i | |s.board.pendings| <= i < |t.board.pendings| ::
         t.board.outcomes[i] == if e.SubmitNowait? && |s.queue| >= s.config.queueMax then Cancelled else Waiting
  }

  lemma NewcomersGrow(s: State, e: Event)
    requires |s.board.pendings| == |s.board.outcomes| && (e.SubmitNowait? || e.Invoke?)
    ensures Grows(s, e, Next(s, e))
  {
    if e.Invoke? && s.running {
      var n := |s.board.pendings|;
      RegisterAllPendings(s.board, e.inputs, |s.callers|);
      var b := RegisterAll(s.board, e.inputs, |s.callers|);
      forall i | n <= i < |b.pendings| ensures b.outcomes[i] == Waiting {
        assert b.pendings[n + (i - n)] == Pending(e.inputs[i - n].0, e.inputs[i - n].1, Some(|s.callers|));
      }
    }
  }

  lemma OthersAddNothing(s: State, e: Event)
    requires Invariant(s) && !e.Invoke? && !e.SubmitNowait?
    ensures Grows(s, e, Next(s, e))
  {
    if e.Receive? {
      ReceiveAddsNothing(s, e.reply);
    } else if e.PutTimeout? || e.ResponseTimeout? {
      TimeoutAddsNothing(s, e);
    } else if e.WorkerCancelled? || e.CloseDrain? {
      ShutdownAddsNothing(s, e);
    }
  }

  lemma ReceiveAddsNothing(s: State, reply: Reply)
    requires Invariant(s)
    ensures Grows(s, Receive(reply), Next(s, Receive(reply)))
  {
    if !s.cancelRequested && s.worker.Calling? { ReceiveEnds(s, reply); }
  }

  lemma ShutdownAddsNothing(s: State, e: Event)
    requires |s.board.pendings| == |s.board.outcomes| && (e.WorkerCancelled? || e.CloseDrain?)
    ensures Grows(s, e, Next(s, e))
  {
    SettleAllOutcomes(s.board, Current(s.worker), Failed(BatcherStopped));
    SettleAllOutcomes(s.board, s.queue, Failed(BatcherClosed));
  }

  lemma TimeoutAddsNothing(s: State, e: Event)
    requires |s.board.pendings| == |s.board.outcomes| && (e.PutTimeout? || e.ResponseTimeout?)
    ensures Grows(s, e, Next(s, e))
  {
    var c := e.caller;
    if c < |s.callers| && s.callers[c].Putting? {
      RangeEnds(s, s.callers[c].first, s.callers[c].count, Failed(QueueFull));
    } else if c < |s.callers| && s.callers[c].Awaiting? {
      RangeEnds(s, s.callers[c].first, s.callers[c].count, Cancelled);
    }
  }

  /** In every run: the requests there are were asked for while the batcher was running, one by
      one; they wait, but for a copy that found the queue full. */
  lemma EveryRequestIsAskedFor(c: Config, events: seq<Event>, e: Event)
    requires ValidConfig(c)
    ensures var s, t := Execute(c, events), Execute(c, events + [e]);
            && s.config == c && t.board.pendings == s.board.pendings + Added(s, e) && |t.board.outcomes| == |t.board.pendings|
            && forall i | |s.board.pendings| <= i < |t.board.pendings| ::
                 t.board.outcomes[i] == if e.SubmitNowait? && |s.queue| >= c.queueMax then Cancelled else Waiting
  {
    var s := Execute(c, events);
    RunHasInvariant(c, events);
    ExecuteAppend(c, events, e);
    if e.Invoke? || e.SubmitNowait? { NewcomersGrow(s, e); } else { OthersAddNothing(s, e); }
  }

  /** The converse of `AnswersAreOwn`: an answer that is handed to a request becomes its result
      when it can be normalised, and fails it otherwise. */
  lemma HandedIsAnswered(c: Config, events: seq<Event>, e: Event, i: nat)
    requires ValidConfig(c) && Hands(Execute(c, events), e, i)
    ensures var s, t := Execute(c, events), Execute(c, events + [e]);
            && i < |s.board.pendings| && i < |t.board.outcomes|
            && var p := e.reply.model(s.board.pendings[i].features);
            t.board.outcomes[i] == if p.modelRunId.Some? && p.modelRunId.value != "" && p.threshold.Some? && p.numeric
                                   then Answered(p) else Failed(InvalidPrediction)
  {
    EveryFutureFollows(c, events, e, i);
  }

  // ----------------------------------------------------------------- callers

  /** Where a caller of `count` requests stands once `entered` of them were put. */
  function Standing(first: nat, count: nat, entered: nat): Caller {
    if entered == count then Awaiting(first, count) else Putting(first, count, entered)
  }

  /** What a step makes of a caller that is there. */
  function Onward(s: State, e: Event, c: nat): Caller
    requires c < |s.callers|
  {
    match (e, s.callers[c])
    case (Put(d), Putting(first, count, entered)) =>
      if d == c && |s.queue| < s.config.queueMax then Standing(first, count, entered + 1) else s.callers[c]
    case (PutTimeout(d), Putting(_, _, _)) => if d == c then Raised(QueueFull) else s.callers[c]
    case (ResponseTimeout(d), Awaiting(first, count)) =>
      if d == c && exists i :: 0 <= i < |s.board.outcomes| && InRange(i, first, count) && s.board.outcomes[i] == Waiting
      then Raised(ResponseTimedOut) else s.callers[c]
    case (Resume(d, k), Awaiting(first, count)) =>
      if d != c then s.callers[c]
      else if first + count <= |s.board.outcomes| && forall i | first <= i < first + count :: s.board.outcomes[i].Answered? then
        Returned(seq(count, j requires 0 <= j < count => s.board.outcomes[first + j].prediction))
      else if k < count && first + k < |s.board.outcomes| && s.board.outcomes[first + k].Failed? then
        Raised(s.board.outcomes[first + k].error)
      else s.callers[c]
    case _ => s.callers[c]
  }

  lemma CallersFollow(s: State, e: Event, c: nat)
    requires Invariant(s) && c < |s.callers|
    ensures c < |Next(s, e).callers| && Next(s, e).callers[c] == Onward(s, e, c)
  {
    assert CallerOwns(s, c);
    if e.ResponseTimeout? {
      OverdueFollows(s, e.caller, c);
    } else if e.Resume? {
      if e.caller == c && s.callers[c].Awaiting? { ResumeFollows(s, c, e.failed); }
    } else {
      OthersKeepCaller(s, e, c);
    }
  }

  lemma OverdueFollows(s: State, d: nat, c: nat)
    requires c < |s.callers|
    ensures c < |ResponseOverdue(s, d).callers| && ResponseOverdue(s, d).callers[c] == Onward(s, ResponseTimeout(d), c)
  {
    if d == c && s.callers[c].Awaiting? { OverdueExactlyWhenOpen(s, s.callers[c].first, s.callers[c].count); }
  }

  lemma OthersKeepCaller(s: State, e: Event, c: nat)
    requires c < |s.callers| && !e.ResponseTimeout? && !e.Resume?
    requires s.callers[c].Putting? ==> s.callers[c].entered < s.callers[c].count
    ensures c < |Next(s, e).callers| && Next(s, e).callers[c] == Onward(s, e, c)
  {
  }

  lemma OverdueExactlyWhenOpen(s: State, first: nat, count: nat)
    ensures ActiveOf(s.board, Ids(first, count)) != []
            <==> exists i :: 0 <= i < |s.board.outcomes| && InRange(i, first, count) && s.board.outcomes[i] == Waiting
  {
    var active := ActiveOf(s.board, Ids(first, count));
    ActiveOfIsOpenPart(s.board, Ids(first, count));
    IdsAreRange(first, count);
    if active != [] {
      assert active[0] in active;
      assert InRange(active[0], first, count);
    }
    if i :| 0 <= i < |s.board.outcomes| && InRange(i, first, count) && s.board.outcomes[i] == Waiting {
      assert i in Ids(first, count) && Open(s.board, i);
      assert i in active;
    }
  }

  lemma ResumeFollows(s: State, c: nat, k: nat)
    requires c < |s.callers| && s.callers[c].Awaiting? && s.callers[c].first + s.callers[c].count <= |s.board.outcomes|
    ensures c < |Resumed(s, c, k).callers| && Resumed(s, c, k).callers[c] == Onward(s, Resume(c, k), c)
  {
    var first, count := s.callers[c].first, s.callers[c].count;
    var ids := Ids(first, count);
    AllAnsweredMeans(s.board, first, count);
    if AllAnswered(s.board, ids) {
      assert Results(s.board, ids) == seq(count, j requires 0 <= j < count => s.board.outcomes[first + j].prediction);
    }
  }

  lemma AllAnsweredMeans(b: Board, first: nat, count: nat)
    ensures AllAnswered(b, Ids(first, count))
            <==> (count > 0 ==> first + count <= |b.outcomes|) && forall i | first <= i < first + count :: i < |b.outcomes| && b.outcomes[i].Answered?
  {
    var ids := Ids(first, count);
    if AllAnswered(b, ids) {
      forall i | first <= i < first + count ensures i < |b.outcomes| && b.outcomes[i].Answered? { assert ids[i - first] == i; }
      if count > 0 { assert ids[count - 1] == first + count - 1; }
    }
  }

  /** In every run, every step: what a caller gets, and when. */
  lemma EveryCallerFollows(c: Config, events: seq<Event>, e: Event, k: nat)
    requires ValidConfig(c) && k < |Execute(c, events).callers|
    ensures var s, t := Execute(c, events), Execute(c, events + [e]);
            k < |t.callers| && t.callers[k] == Onward(s, e, k)
  {
    RunHasInvariant(c, events);
    ExecuteAppend(c, events, e);
    CallersFollow(Execute(c, events), e, k);
  }

  type Run = seq<Event> -> State

  function RunOf(c: Config): Run {
    events => Execute(c, events)
  }

  /** Request `i` was handed an answer that is `p` for its features and can be normalised. */
  ghost predicate HandedOver(run: Run, events: seq<Event>, i: nat, features: Features, p: Prediction) {
    exists n :: 0 <= n < |events| && Hands(run(events[..n]), events[n], i)
                && p == events[n].reply.model(features) && Judged(p) == Answered(p)
  }

  lemma HandedNow(c: Config, events: seq<Event>, e: Event, i: nat, features: Features, p: Prediction)
    requires ValidConfig(c) && Hands(Execute(c, events), e, i) && p == e.reply.model(features) && Judged(p) == Answered(p)
    requires i < |Execute(c, events).board.pendings| && Execute(c, events).board.pendings[i].features == features
    ensures var t := Execute(c, events + [e]); i < |t.board.outcomes| && t.board.outcomes[i] == Answered(p)
  {
    HandedIsAnswered(c, events, e, i);
  }

  /** What was handed over is there in the end. */
  ghost predicate Sticks(run: Run, events: seq<Event>, s: State) {
    forall i: nat, features, p | HandedOver(run, events, i, features, p) && i < |s.board.pendings| && s.board.pendings[i].features == features ::
      i < |s.board.outcomes| && s.board.outcomes[i] == Answered(p)
  }

  lemma HandedAt(run: Run, events: seq<Event>, i: nat, features: Features, p: Prediction) returns (n: nat)
    requires HandedOver(run, events, i, features, p)
    ensures n < |events| && Hands(run(events[..n]), events[n], i) && p == events[n].reply.model(features) && Judged(p) == Answered(p)
  {
    n :| 0 <= n < |events| && Hands(run(events[..n]), events[n], i)
         && p == events[n].reply.model(features) && Judged(p) == Answered(p);
  }

  lemma HandedSticks(c: Config, events: seq<Event>)
    requires ValidConfig(c)
    ensures Sticks(RunOf(c), events, Execute(c, events))
  {
    var run, s := RunOf(c), Execute(c, events);
    forall i: nat, features, p | HandedOver(run, events, i, features, p) && i < |s.board.pendings| && s.board.pendings[i].features == features
      ensures i < |s.board.outcomes| && s.board.outcomes[i] == Answered(p)
    {
      var n := HandedAt(run, events, i, features, p);
      HandedAtStays(c, events, n, i, features, p);
    }
  }

  lemma HandedAtStays(c: Config, events: seq<Event>, n: nat, i: nat, features: Features, p: Prediction)
    requires ValidConfig(c) && n < |events| && Hands(Execute(c, events[..n]), events[n], i)
    requires p == events[n].reply.model(features) && Judged(p) == Answered(p)
    requires i < |Execute(c, events).board.pendings| && Execute(c, events).board.pendings[i].features == features
    ensures i < |Execute(c, events).board.outcomes| && Execute(c, events).board.outcomes[i] == Answered(p)
  {
    HandedAreThere(c, events[..n], events[n], i);
    FeaturesStay(c, events, n, i);
    HandedNow(c, events[..n], events[n], i, features, p);
    NextPrefix(events, n);
    AnsweredStays(c, events, n + 1, i, p);
  }

  lemma NextPrefix(events: seq<Event>, n: nat)
    requires n < |events|
    ensures events[..n] + [events[n]] == events[..n + 1]
  {
  }

  lemma HandedAreThere(c: Config, events: seq<Event>, e: Event, i: nat)
    requires ValidConfig(c) && Hands(Execute(c, events), e, i)
    ensures i < |Execute(c, events).board.pendings|
  {
    RunHasInvariant(c, events);
  }

  lemma AnsweredStays(c: Config, events: seq<Event>, n: nat, i: nat, p: Prediction)
    requires n <= |events| && i < |Execute(c, events[..n]).board.outcomes| && Execute(c, events[..n]).board.outcomes[i] == Answered(p)
    ensures i < |Execute(c, events).board.outcomes| && Execute(c, events).board.outcomes[i] == Answered(p)
  {
    CompletedOnce(c, events, n, i);
  }

  lemma {:induction false} FeaturesStay(c: Config, events: seq<Event>, n: nat, i: nat)
    requires ValidConfig(c) && n <= |events| && i < |Execute(c, events[..n]).board.pendings|
    ensures i < |Execute(c, events).board.pendings| && Execute(c, events).board.pendings[i] == Execute(c, events[..n]).board.pendings[i]
    decreases |events|
  {
    if n == |events| {
      assert events[..n] == events;
    } else {
      var most := events[..|events| - 1];
      assert most[..n] == events[..n] && most + [events[|events| - 1]] == events;
      FeaturesStay(c, most, n, i);
      RunHasInvariant(c, most);
      EveryFutureFollows(c, most, events[|events| - 1], i);
    }
  }

  lemma ResumeReturns(s: State, caller: nat, predictions: seq<Prediction>, k: nat)
    requires Invariant(s) && caller < |s.callers| && s.callers[caller].Awaiting? && s.callers[caller].count == |predictions|
    requires var first := s.callers[caller].first;
             forall j | 0 <= j < |predictions| :: first + j < |s.board.outcomes| && s.board.outcomes[first + j] == Answered(predictions[j])
    ensures var t := Next(s, Resume(caller, k)); caller < |t.callers| && t.callers[caller] == Returned(predictions)
  {
    var first := s.callers[caller].first;
    CallersFollow(s, Resume(caller, k), caller);
    assert CallerOwns(s, caller);
    forall i | first <= i < first + |predictions| ensures s.board.outcomes[i].Answered? {
      assert s.board.outcomes[first + (i - first)] == Answered(predictions[i - first]);
    }
    assert seq(|predictions|, j requires 0 <= j < |predictions| => s.board.outcomes[first + j].prediction) == predictions;
  }

  lemma AwaitedAreOwn(s: State, caller: nat)
    requires Invariant(s) && caller < |s.callers| && s.callers[caller].Awaiting?
    ensures caller < |s.calls| && s.callers[caller].count == |s.calls[caller]|
    ensures s.callers[caller].first + |s.calls[caller]| <= |s.board.pendings|
    ensures forall j | 0 <= j < |s.calls[caller]| :: s.board.pendings[s.callers[caller].first + j].features == s.calls[caller][j].0
  {
    assert CallerOwns(s, caller);
  }

  ghost predicate AllHanded(run: Run, events: seq<Event>, first: nat, inputs: seq<Input>, predictions: seq<Prediction>) {
    |predictions| == |inputs| && forall j | 0 <= j < |inputs| :: HandedOver(run, events, first + j, inputs[j].0, predictions[j])
  }

  lemma AllHandedReturn(run: Run, events: seq<Event>, s: State, caller: nat, predictions: seq<Prediction>, k: nat)
    requires Sticks(run, events, s) && Invariant(s) && caller < |s.callers| == |s.calls| && s.callers[caller].Awaiting?
    requires AllHanded(run, events, s.callers[caller].first, s.calls[caller], predictions)
    ensures var t := Next(s, Resume(caller, k)); caller < |t.callers| && t.callers[caller] == Returned(predictions)
  {
    AwaitedAreOwn(s, caller);
    ResumeReturns(s, caller, predictions, k);
  }

  /** A call whose requests were all handed an answer that can be normalised returns on the next
      resume, with these answers in the order of its inputs. */
  lemma HandedCallReturns(c: Config, events: seq<Event>, caller: nat, predictions: seq<Prediction>, k: nat)
    requires ValidConfig(c)
    requires var s := Execute(c, events);
             && caller < |s.callers| == |s.calls| && s.callers[caller].Awaiting?
             && AllHanded(RunOf(c), events, s.callers[caller].first, s.calls[caller], predictions)
    ensures var t := Execute(c, events + [Resume(caller, k)]); caller < |t.callers| && t.callers[caller] == Returned(predictions)
  {
    RunHasInvariant(c, events);
    HandedSticks(c, events);
    AllHandedReturn(RunOf(c), events, Execute(c, events), caller, predictions, k);
    ExecuteAppend(c, events, Resume(caller, k));
  }

  // ------------------------------------------------------------ queue and flags

  /** What a step puts in the queue. */
  function Queued(s: State, e: Event): seq<nat> {
    if |s.queue| >= s.config.queueMax then []
    else
      match e
      case SubmitNowait(_, _) => if s.running then [|s.board.pendings|] else []
      case Put(c) => if c < |s.callers| && s.callers[c].Putting? then [s.callers[c].first + s.callers[c].entered] else []
      case _ => []
  }

  /** A batcher that was not started holds nothing and serves nobody. */
  lemma FreshIsOff(c: Config)
    ensures var s := Execute(c, []);
            && !s.running && !s.closing && !s.cancelRequested && s.worker.NotStarted? && s.config == c
            && s.queue == [] && s.unfinished == 0 && s.callers == [] && s.board == Board([], [], [])
  {
  }

  predicate IsWorking(w: Worker) {
    !w.NotStarted? && !w.Stopped?
  }

  /** In every run, every step: what enters the queue; a start and a close turn the batcher on and
      off, and a close tells a worker to stop, which then does. */
  lemma EveryStepFollows(c: Config, events: seq<Event>, e: Event)
    ensures var s, t := Execute(c, events), Execute(c, events + [e]);
            && t.entered == s.entered + Queued(s, e)
            && t.running == (if e.Start? && s.worker.NotStarted? then true else !e.CloseBegin? && s.running)
            && t.closing == (s.closing || e.CloseBegin?)
            && t.cancelRequested == (s.cancelRequested || (e.CloseBegin? && IsWorking(s.worker)))
            && (t.worker.NotStarted? <==> s.worker.NotStarted? && !e.Start?)
            && (t.worker.Stopped? <==> s.worker.Stopped? || (e.WorkerCancelled? && s.cancelRequested && IsWorking(s.worker)))
  {
    ExecuteAppend(c, events, e);
    StepFollows(Execute(c, events), e);
  }

  lemma StepFollows(s: State, e: Event)
    ensures var t := Next(s, e);
            && t.entered == s.entered + Queued(s, e)
            && t.running == (if e.Start? && s.worker.NotStarted? then true else !e.CloseBegin? && s.running)
            && t.closing == (s.closing || e.CloseBegin?)
            && t.cancelRequested == (s.cancelRequested || (e.CloseBegin? && IsWorking(s.worker)))
            && (t.worker.NotStarted? <==> s.worker.NotStarted? && !e.Start?)
            && (t.worker.Stopped? <==> s.worker.Stopped? || (e.WorkerCancelled? && s.cancelRequested && IsWorking(s.worker)))
  {
    EntriesFollow(s, e);
    FlagsFollow(s, e);
    WorkersFollow(s, e);
  }

  lemma EntriesFollow(s: State, e: Event)
    ensures Next(s, e).entered == s.entered + Queued(s, e)
  {
  }

  lemma FlagsFollow(s: State, e: Event)
    ensures var t := Next(s, e);
            && t.running == (if e.Start? && s.worker.NotStarted? then true else !e.CloseBegin? && s.running)
            && t.closing == (s.closing || e.CloseBegin?)
            && t.cancelRequested == (s.cancelRequested || (e.CloseBegin? && IsWorking(s.worker)))
  {
  }

  lemma WorkersFollow(s: State, e: Event)
    ensures var t := Next(s, e);
            && (t.worker.NotStarted? <==> s.worker.NotStarted? && !e.Start?)
            && (t.worker.Stopped? <==> s.worker.Stopped? || (e.WorkerCancelled? && s.cancelRequested && IsWorking(s.worker)))
  {
  }

  // ---------------------------------------------------------------- progress

  function Answering(c: Config, events: seq<Event>, model: Model): seq<Event> {
    events + [TakeFirst] + [Dispatch] + [Receive(Answer(model))]
  }

  lemma ServesFirst(s: State, model: Model)
    requires Invariant(s) && s.worker.Idle? && !s.cancelRequested && s.queue != [] && Open(s.board, s.queue[0])
    ensures var t := Next(Next(s, TakeFirst), Dispatch);
            && Hands(t, Receive(Answer(model)), s.queue[0]) && t.board == s.board && t.queue == s.queue[1..]
            && t.sent == s.sent + [s.queue[0]] && t.callers == s.callers
    ensures var u := Next(Next(Next(s, TakeFirst), Dispatch), Receive(Answer(model)));
            u.worker.Idle? && u.queue == s.queue[1..] && u.unfinished == s.unfinished - 1 && !u.cancelRequested && u.callers == s.callers
  {
    var i := s.queue[0];
    var s1 := Next(s, TakeFirst);
    assert s1.worker == Collecting([i]);
    assert ActiveOf(s.board, [i]) == [i];
    var s2 := Next(s1, Dispatch);
    assert s2.worker == Calling([i], [i]);
    StepKeepsInvariant(s, TakeFirst);
    StepKeepsInvariant(s1, Dispatch);
    ActiveAreKnown(s2);
  }

  /** In every run: whenever the worker waits and is not told to stop, the oldest request of the
      queue can be served at once, by whatever the runtime says of its features. */
  lemma OldestCanBeServed(c: Config, events: seq<Event>, model: Model)
    requires ValidConfig(c)
    requires var s := Execute(c, events);
             s.worker.Idle? && !s.cancelRequested && s.queue != [] && Open(s.board, s.queue[0])
    ensures var s, t := Execute(c, events), Execute(c, Answering(c, events, model));
            && s.queue[0] < |s.board.pendings| && s.queue[0] < |t.board.outcomes|
            && t.board.outcomes[s.queue[0]] == Judged(model(s.board.pendings[s.queue[0]].features))
            && t.worker.Idle? && t.queue == s.queue[1..] && t.unfinished == s.unfinished - 1
  {
    var s := Execute(c, events);
    RunHasInvariant(c, events);
    ServesFirst(s, model);
    ExecuteAppend(c, events, TakeFirst);
    ExecuteAppend(c, events + [TakeFirst], Dispatch);
    ExecuteAppend(c, events + [TakeFirst] + [Dispatch], Receive(Answer(model)));
    HandedIsAnswered(c, events + [TakeFirst] + [Dispatch], Receive(Answer(model)), s.queue[0]);
  }

  /** A batch takes the next item as long as it is not full and something is queued; what it
      sends are its items that are still waited for, in order. */
  lemma WorkerFollows(c: Config, events: seq<Event>)
    requires ValidConfig(c) && !Execute(c, events).cancelRequested && Execute(c, events).worker.Collecting?
    ensures var s, t := Execute(c, events), Execute(c, events + [TakeMore]);
            |s.worker.batch| < c.maxBatch && s.queue != [] ==>
              t.worker == Collecting(s.worker.batch + [s.queue[0]]) && t.queue == s.queue[1..]
    ensures var s, t := Execute(c, events), Execute(c, events + [Dispatch]);
            && (t.worker.Calling? <==> exists i :: i in s.worker.batch && Open(s.board, i))
            && (t.worker.Calling? ==> t.worker.batch == s.worker.batch && t.sent == s.sent + t.worker.active
                                      && forall i :: i in t.worker.active <==> i in s.worker.batch && Open(s.board, i))
            && (!t.worker.Calling? ==> t.worker.Idle? && t.sent == s.sent && t.unfinished == s.unfinished - |s.worker.batch|)
  {
    RunHasInvariant(c, events);
    ExecuteAppend(c, events, TakeMore);
    ExecuteAppend(c, events, Dispatch);
    DispatchSends(Execute(c, events));
  }

  lemma DispatchSends(s: State)
    requires Invariant(s) && s.worker.Collecting? && !s.cancelRequested
    ensures var t := Next(s, Dispatch);
            && (t.worker.Calling? <==> exists i :: i in s.worker.batch && Open(s.board, i))
            && (t.worker.Calling? ==> t.worker.batch == s.worker.batch && t.sent == s.sent + t.worker.active
                                      && forall i :: i in t.worker.active <==> i in s.worker.batch && Open(s.board, i))
            && (!t.worker.Calling? ==> t.worker.Idle? && t.sent == s.sent && t.unfinished == s.unfinished - |s.worker.batch|)
  {
    var active := ActiveOf(s.board, s.worker.batch);
    ActiveOfIsOpenPart(s.board, s.worker.batch);
    if i :| i in s.worker.batch && Open(s.board, i) { assert i in active; }
    if active != [] { assert active[0] in active; }
  }

  function OneCall(model: Model, input: Input): seq<Event> {
    [Start] + [Invoke([input])] + [Put(0)] + [TakeFirst] + [Dispatch] + [Receive(Answer(model))] + [Resume(0, 0)]
  }

  /** A fresh batcher with one request that waits in the queue. */
  function OneQueued(c: Config, input: Input): State {
    State(c, true, false, false, [0], 1, Idle, [Awaiting(0, 1)], [[input]],
          Board([Pending(input.0, input.1, Some(0))], [Waiting], []), [0], [], [])
  }

  lemma OneRequestQueued(c: Config, input: Input)
    requires ValidConfig(c)
    ensures Next(Next(Next(Created(c), Start), Invoke([input])), Put(0)) == OneQueued(c, input)
  {
    var s1 := Created(c).(worker := Idle, running := true);
    var s2 := s1.(board := OneQueued(c, input).board, callers := [Putting(0, 1, 0)], calls := [[input]]);
    assert Next(Created(c), Start) == s1;
    assert [input][1..] == [];
    assert RegisterAll(s1.board, [input], 0) == RegisterAll(Register(s1.board, Pending(input.0, input.1, Some(0))), [], 0);
    assert Next(s1, Invoke([input])) == s2;
  }

  lemma WaitingHasInvariant(c: Config, input: Input)
    requires ValidConfig(c)
    ensures Invariant(OneQueued(c, input))
  {
    OneRequestQueued(c, input);
    CreatedHasInvariant(c);
    StepKeepsInvariant(Created(c), Start);
    StepKeepsInvariant(Next(Created(c), Start), Invoke([input]));
    StepKeepsInvariant(Next(Next(Created(c), Start), Invoke([input])), Put(0));
  }

  lemma OneCallStates(s: State, model: Model, features: Features)
    requires Invariant(s) && s.queue == [0] && s.callers == [Awaiting(0, 1)] && s.worker.Idle? && !s.cancelRequested
    requires |s.board.pendings| == 1 && s.board.pendings[0].features == features && s.board.outcomes == [Waiting]
    ensures var t := Next(Next(Next(Next(s, TakeFirst), Dispatch), Receive(Answer(model))), Resume(0, 0));
            && |t.callers| == 1
            && t.callers[0] == match Judged(model(features)) { case Answered(p) => Returned([p]) case _ => Raised(InvalidPrediction) }
  {
    var t := Next(Next(s, TakeFirst), Dispatch);
    var u := Next(t, Receive(Answer(model)));
    ServesFirst(s, model);
    StepKeepsInvariant(s, TakeFirst);
    StepKeepsInvariant(Next(s, TakeFirst), Dispatch);
    StepKeepsInvariant(t, Receive(Answer(model)));
    FuturesFollow(t, Receive(Answer(model)), 0);
    ResumeOne(u, Judged(model(features)));
  }

  lemma ResumeOne(u: State, o: Outcome)
    requires Invariant(u) && u.callers == [Awaiting(0, 1)] && |u.board.outcomes| >= 1 && u.board.outcomes[0] == o
    requires o.Answered? || o == Failed(InvalidPrediction)
    ensures var t := Next(u, Resume(0, 0));
            |t.callers| == 1 && t.callers[0] == match o { case Answered(p) => Returned([p]) case _ => Raised(InvalidPrediction) }
  {
    CallersFollow(u, Resume(0, 0), 0);
    if o.Answered? {
      ResumeReturns(u, 0, [o.prediction], 0);
    }
  }

  /** One call to a fresh batcher, undisturbed, logged or not: it returns what the runtime says
      of its features, or raises when that cannot be normalised. */
  lemma OneCallIsAnswered(c: Config, model: Model, input: Input)
    requires ValidConfig(c)
    ensures var t := Execute(c, OneCall(model, input));
            && |t.callers| == 1
            && t.callers[0] == match Judged(model(input.0)) { case Answered(p) => Returned([p]) case _ => Raised(InvalidPrediction) }
  {
    OneCallRun(c, model, input);
    OneRequestQueued(c, input);
    WaitingHasInvariant(c, input);
    OneCallStates(OneQueued(c, input), model, input.0);
  }

  lemma OneCallRun(c: Config, model: Model, input: Input)
    ensures Execute(c, OneCall(model, input))
         == Next(Next(Next(Next(Next(Next(Next(Created(c), Start), Invoke([input])), Put(0)), TakeFirst), Dispatch), Receive(Answer(model))), Resume(0, 0))
  {
    var e1 := [Start];
    var e3 := e1 + [Invoke([input])] + [Put(0)];
    var e5 := e3 + [TakeFirst] + [Dispatch];
    assert [] + [Start] == e1;
    ExecuteAppend(c, [], Start);
    ExecuteAppend(c, e1, Invoke([input]));
    ExecuteAppend(c, e1 + [Invoke([input])], Put(0));
    ExecuteAppend(c, e3, TakeFirst);
    ExecuteAppend(c, e3 + [TakeFirst], Dispatch);
    ExecuteAppend(c, e5, Receive(Answer(model)));
    ExecuteAppend(c, e5 + [Receive(Answer(model))], Resume(0, 0));
  }
}
