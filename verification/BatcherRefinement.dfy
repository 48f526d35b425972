/** Batching is invisible: every run of the batcher is a run of the machine that makes one
    runtime call per request. */
module BatcherRefinement {
  import opened Common
  import opened Sequences
  import opened BatcherBoard
  import opened BatcherProtocol

  /** The single completions a loop over `ids` makes. */
  function EndAll(b: Board, ids: seq<nat>, o: Outcome): seq<Single>
    decreases |ids|
  {
    if ids == [] then []
    else if Open(b, ids[0]) then [End(ids[0], o)] + EndAll(Settle(b, ids[0], o), ids[1..], o)
    else EndAll(b, ids[1..], o)
  }

  function ServeAll(b: Board, ids: seq<nat>, model: Model): seq<Single>
    requires Known(b, ids)
    decreases |ids|
  {
    if ids == [] then []
    else if Open(b, ids[0]) then
      [Serve(ids[0], model)] + ServeAll(Deliver(b, ids[0], model(b.pendings[ids[0]].features)), ids[1..], model)
    else ServeAll(b, ids[1..], model)
  }

  function SubmitAll(inputs: seq<Input>, owner: nat): seq<Single> {
    if inputs == [] then []
    else [Submit(Pending(inputs[0].0, inputs[0].1, Some(owner)))] + SubmitAll(inputs[1..], owner)
  }

  /** What one step of the batcher is for the requests taken one by one. */
  function Trace(s: State, e: Event): seq<Single> {
    match e
    case SubmitNowait(f, context) =>
      if !s.running then []
      else [Submit(Pending(f, context, None))]
           + (if Full(s) then EndAll(Register(s.board, Pending(f, context, None)), [|s.board.pendings|], Cancelled) else [])
    case Invoke(inputs) => if s.running then SubmitAll(inputs, |s.callers|) else []
    case PutTimeout(c) =>
      if c < |s.callers| && s.callers[c].Putting?
      then EndAll(s.board, Ids(s.callers[c].first, s.callers[c].count), Failed(QueueFull)) else []
    case ResponseTimeout(c) =>
      if c < |s.callers| && s.callers[c].Awaiting?
         && ActiveOf(s.board, Ids(s.callers[c].first, s.callers[c].count)) != []
      then EndAll(s.board, Ids(s.callers[c].first, s.callers[c].count), Cancelled) else []
    case Receive(r) =>
      if s.cancelRequested || !s.worker.Calling? || !Known(s.board, s.worker.active) then []
      else if r.Answer? then ServeAll(s.board, s.worker.active, r.model)
      else EndAll(s.board, s.worker.active, Failed(RuntimeError(r.code)))
    case WorkerCancelled =>
      if s.cancelRequested && Working(s.worker) then EndAll(s.board, Current(s.worker), Failed(BatcherStopped)) else []
    case CloseDrain =>
      if s.closing && !Working(s.worker) then EndAll(s.board, s.queue, Failed(BatcherClosed)) else []
    case _ => []
  }

  lemma {:induction false} EndAllRuns(b: Board, ids: seq<nat>, o: Outcome)
    requires o.Failed? || o.Cancelled?
    ensures SingleRun(b, EndAll(b, ids, o)) == Some(SettleAll(b, ids, o))
    decreases |ids|
  {
    if ids != [] {
      EndAllRuns(Settle(b, ids[0], o), ids[1..], o);
    }
  }

  lemma {:induction false} ServeAllRuns(b: Board, ids: seq<nat>, model: Model)
    requires Known(b, ids)
    ensures SingleRun(b, ServeAll(b, ids, model)) == Some(DeliverAll(b, ids, Answers(model, Rows(b, ids))))
    decreases |ids|
  {
    if ids != [] {
      var p := model(b.pendings[ids[0]].features);
      var b1 := Deliver(b, ids[0], p);
      ServeAllRuns(b1, ids[1..], model);
      assert Answers(model, Rows(b, ids))[0] == p;
      assert Answers(model, Rows(b, ids))[1..] == Answers(model, Rows(b1, ids[1..]));
    }
  }

  lemma {:induction false} SubmitAllRuns(b: Board, inputs: seq<Input>, owner: nat)
    ensures SingleRun(b, SubmitAll(inputs, owner)) == Some(RegisterAll(b, inputs, owner))
    decreases |inputs|
  {
    if inputs != [] {
      SubmitAllRuns(Register(b, Pending(inputs[0].0, inputs[0].1, Some(owner))), inputs[1..], owner);
    }
  }

  /** One step of the batcher is a run of the one-call-per-request machine. */
  lemma StepRefines(s: State, e: Event)
    ensures SingleRun(s.board, Trace(s, e)) == Some(Next(s, e).board)
  {
    match e
    case SubmitNowait(f, context) =>
      if s.running {
        var b1 := Register(s.board, Pending(f, context, None));
        if Full(s) {
          EndAllRuns(b1, [|s.board.pendings|], Cancelled);
          assert SettleAll(b1, [|s.board.pendings|], Cancelled) == Settle(b1, |s.board.pendings|, Cancelled);
        }
      }
    case Invoke(inputs) => SubmitAllRuns(s.board, inputs, |s.callers|);
    case PutTimeout(c) =>
      if c < |s.callers| && s.callers[c].Putting? {
        EndAllRuns(s.board, Ids(s.callers[c].first, s.callers[c].count), Failed(QueueFull));
      }
    case ResponseTimeout(c) =>
      if c < |s.callers| && s.callers[c].Awaiting? {
        EndAllRuns(s.board, Ids(s.callers[c].first, s.callers[c].count), Cancelled);
      }
    case Receive(r) =>
      if s.worker.Calling? && Known(s.board, s.worker.active) {
        match r
        case Answer(model) => ServeAllRuns(s.board, s.worker.active, model);
        case Fault(code) => EndAllRuns(s.board, s.worker.active, Failed(RuntimeError(code)));
      }
    case WorkerCancelled => EndAllRuns(s.board, Current(s.worker), Failed(BatcherStopped));
    case CloseDrain => EndAllRuns(s.board, s.queue, Failed(BatcherClosed));
    case _ =>
  }

  function RunTrace(c: Config, events: seq<Event>): seq<Single>
    decreases |events|
  {
    if events == [] then []
    else RunTrace(c, events[..|events| - 1]) + Trace(Execute(c, events[..|events| - 1]), events[|events| - 1])
  }

  const EMPTY := Board([], [], [])

  /** Every run of the batcher completes the requests and publishes the events exactly as
      some run of the machine without batches does. */
  lemma {:induction false} BatchingIsInvisible(c: Config, events: seq<Event>)
    ensures SingleRun(EMPTY, RunTrace(c, events)) == Some(Execute(c, events).board)
    decreases |events|
  {
    if events != [] {
      var before := events[..|events| - 1];
      BatchingIsInvisible(c, before);
      StepRefines(Execute(c, before), events[|events| - 1]);
      SingleRunAppend(EMPTY, RunTrace(c, before), Trace(Execute(c, before), events[|events| - 1]));
    }
  }

  /** In every run: events are published exactly for the logged requests that were answered. */
  lemma EventsMatchAnswers(c: Config, events: seq<Event>)
    ensures Published(Execute(c, events).board)
  {
    BatchingIsInvisible(c, events);
    SingleRunKeeps(EMPTY, RunTrace(c, events));
  }

  /** A step completes only futures that are open, and never changes a request. */
  lemma StepExtends(s: State, e: Event)
    requires Published(s.board)
    ensures Published(Next(s, e).board) && Extends(s.board, Next(s, e).board)
  {
    StepRefines(s, e);
    SingleRunKeeps(s.board, Trace(s, e));
  }

  /** A future that is complete after the first `n` steps keeps its outcome for the rest of the run. */
  lemma {:induction false} CompletedOnce(c: Config, events: seq<Event>, n: nat, i: nat)
    requires n <= |events|
    requires Done(Execute(c, events[..n]).board, i)
    ensures Done(Execute(c, events).board, i)
    ensures Execute(c, events).board.outcomes[i] == Execute(c, events[..n]).board.outcomes[i]
    decreases |events|
  {
    if n == |events| {
      assert events[..n] == events;
    } else {
      var most := events[..|events| - 1];
      assert most[..n] == events[..n];
      CompletedOnce(c, most, n, i);
      var s := Execute(c, most);
      EventsMatchAnswers(c, most);
      StepExtends(s, events[|events| - 1]);
      assert Execute(c, events) == Next(s, events[|events| - 1]);
    }
  }

  lemma {:induction false} NoServeInEndAll(b: Board, ids: seq<nat>, o: Outcome)
    ensures forall k | 0 <= k < |EndAll(b, ids, o)| :: EndAll(b, ids, o)[k].End?
    decreases |ids|
  {
    if ids != [] { NoServeInEndAll(if Open(b, ids[0]) then Settle(b, ids[0], o) else b, ids[1..], o); }
  }

  lemma {:induction false} ServeAllUsesModel(b: Board, ids: seq<nat>, model: Model)
    requires Known(b, ids)
    ensures forall k | 0 <= k < |ServeAll(b, ids, model)| ::
              && ServeAll(b, ids, model)[k].Serve? && ServeAll(b, ids, model)[k].model == model
              && ServeAll(b, ids, model)[k].request in ids
    decreases |ids|
  {
    if ids != [] {
      if Open(b, ids[0]) {
        ServeAllUsesModel(Deliver(b, ids[0], model(b.pendings[ids[0]].features)), ids[1..], model);
      } else {
        ServeAllUsesModel(b, ids[1..], model);
      }
    }
  }

  lemma {:induction false} NoServeInSubmitAll(inputs: seq<Input>, owner: nat)
    ensures forall k | 0 <= k < |SubmitAll(inputs, owner)| :: SubmitAll(inputs, owner)[k].Submit?
    decreases |inputs|
  {
    if inputs != [] { NoServeInSubmitAll(inputs[1..], owner); }
  }

  /** The step hands an answer to the worker's batch, in which request `i` is still waited for. */
  predicate Hands(s: State, e: Event, i: nat) {
    && e.Receive? && e.reply.Answer? && !s.cancelRequested
    && s.worker.Calling? && i in s.worker.active && Open(s.board, i)
  }

  /** Single calls stem from runtime answers to the requests that were sent. */
  lemma ServeComesFromAnswer(s: State, e: Event, k: nat)
    requires k < |Trace(s, e)| && Trace(s, e)[k].Serve?
    ensures e == Receive(Answer(Trace(s, e)[k].model)) && !s.cancelRequested
    ensures s.worker.Calling? && Trace(s, e)[k].request in s.worker.active && Known(s.board, s.worker.active)
  {
    match e
    case SubmitNowait(f, context) =>
      if s.running && Full(s) {
        NoServeInEndAll(Register(s.board, Pending(f, context, None)), [|s.board.pendings|], Cancelled);
      }
    case Invoke(inputs) => NoServeInSubmitAll(inputs, |s.callers|);
    case PutTimeout(c) => NoServeInEndAll(s.board, Ids(s.callers[c].first, s.callers[c].count), Failed(QueueFull));
    case ResponseTimeout(c) => NoServeInEndAll(s.board, Ids(s.callers[c].first, s.callers[c].count), Cancelled);
    case Receive(r) =>
      match r {
        case Answer(model) => ServeAllUsesModel(s.board, s.worker.active, model);
        case Fault(code) => NoServeInEndAll(s.board, s.worker.active, Failed(RuntimeError(code)));
      }
    case WorkerCancelled => NoServeInEndAll(s.board, Current(s.worker), Failed(BatcherStopped));
    case CloseDrain => NoServeInEndAll(s.board, s.queue, Failed(BatcherClosed));
    case _ =>
  }

  /** In every run: a request that is answered holds what the runtime said about that request's
      own features, in the answer that the worker received while the request was in its batch
      and still waited for; and that answer could be normalised. */
  lemma {:induction false} AnswersAreOwn(c: Config, events: seq<Event>, i: nat)
    requires var b := Execute(c, events).board;
             i < |b.outcomes| && i < |b.pendings| && b.outcomes[i].Answered?
    ensures var b := Execute(c, events).board;
            exists k :: 0 <= k < |events| && Hands(Execute(c, events[..k]), events[k], i)
                        && b.outcomes[i] == Answered(events[k].reply.model(b.pendings[i].features))
                        && Normalizable(b.outcomes[i].prediction)
    decreases |events|
  {
    var before, last := events[..|events| - 1], events[|events| - 1];
    var s := Execute(c, before);
    var b := Execute(c, events).board;
    EventsMatchAnswers(c, before);
    StepExtends(s, last);
    StepRefines(s, last);
    if i < |s.board.outcomes| && s.board.outcomes[i].Answered? {
      AnswersAreOwn(c, before, i);
      var k :| 0 <= k < |before| && Hands(Execute(c, before[..k]), before[k], i)
               && s.board.outcomes[i] == Answered(before[k].reply.model(s.board.pendings[i].features))
               && Normalizable(s.board.outcomes[i].prediction);
      assert b.pendings[i] == b.pendings[..|s.board.pendings|][i] == s.board.pendings[i];
      assert events[k] == before[k] && events[..k] == before[..k];
    } else {
      AnswerIsOwn(s.board, Trace(s, last), i);
      var k :| 0 <= k < |Trace(s, last)| && Trace(s, last)[k].Serve? && Trace(s, last)[k].request == i
               && b.outcomes[i] == Answered(Trace(s, last)[k].model(b.pendings[i].features));
      ServeComesFromAnswer(s, last, k);
      assert Hands(s, last, i);
      assert events[..|events| - 1] == before;
    }
  }
}
