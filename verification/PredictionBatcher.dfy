/** `PredictionBatcher` as the object it is: a queue, a worker's batch and one-shot futures
    that its methods update. Each method is one step of `BatcherProtocol`. */
module PredictionBatcherObject {
  import opened Common
  import opened Sequences
  import opened BatcherBoard
  import opened BatcherProtocol
  import opened BatcherRefinement
  import opened BatcherInvariants

  class PredictionBatcher {
    const config: Config
    var running: bool
    var cancelRequested: bool
    var closing: bool
    var queue: seq<nat>
    var unfinished: nat
    var worker: Worker
    var callers: seq<Caller>
    var pendings: seq<Pending>
    var outcomes: seq<Outcome>
    var published: seq<(nat, Prediction)>
    ghost var calls: seq<seq<Input>>
    ghost var entered: seq<nat>
    ghost var taken: seq<Group>
    ghost var sent: seq<nat>

    ghost function Futures(): Board
      reads this
    {
      Board(pendings, outcomes, published)
    }

    ghost function View(): State
      reads this
    {
      State(config, running, cancelRequested, closing, queue, unfinished, worker, callers, calls, Futures(), entered, taken, sent)
    }

    ghost predicate Valid()
      reads this
    {
      Invariant(View())
    }

    constructor (c: Config)
      requires ValidConfig(c)
      ensures Valid() && View() == Created(c)
    {
      CreatedHasInvariant(c);
      config := c;
      running, cancelRequested, closing, queue, unfinished, worker := false, false, false, [], 0, NotStarted;
      callers, pendings, outcomes, published := [], [], [], [];
      calls, entered, taken, sent := [], [], [], [];
    }

    /** `asyncio.Queue.task_done`, which raises when it is called too often. */
    method TaskDone()
      requires unfinished > 0
      modifies this`unfinished
      ensures unfinished == old(unfinished) - 1
    {
      unfinished := unfinished - 1;
    }

    /** `if not future.done(): future.set_exception(..)` for one future. */
    method Complete(i: nat, o: Outcome)
      modifies this`outcomes
      ensures Futures() == Settle(old(Futures()), i, o)
    {
      if i < |outcomes| && outcomes[i] == Waiting {
        outcomes := outcomes[i := o];
      }
    }

    method CompleteAll(ids: seq<nat>, o: Outcome)
      modifies this`outcomes
      ensures Futures() == SettleAll(old(Futures()), ids, o)
    {
      var n := 0;
      while n < |ids|
        invariant 0 <= n <= |ids|
        invariant SettleAll(Futures(), ids[n..], o) == SettleAll(old(Futures()), ids, o)
        invariant pendings == old(pendings) && published == old(published)
      {
        assert ids[n..][0] == ids[n] && ids[n..][1..] == ids[n + 1..];
        Complete(ids[n], o);
        n := n + 1;
      }
    }

    method SubmitNowait(f: Features, context: Option<string>) returns (accepted: bool)
      requires Valid()
      modifies this
      ensures Valid() && View() == Submitted(old(View()), f, context).0
      ensures accepted == (old(running) && |old(queue)| < config.queueMax)
    {
      SubmitKeepsInvariant(View(), f, context);
      accepted := Offer(f, context);
    }

    /** A new future, and `put_nowait`. */
    method Offer(f: Features, context: Option<string>) returns (accepted: bool)
      requires |pendings| == |outcomes|
      modifies this`pendings, this`outcomes, this`queue, this`unfinished, this`entered
      ensures View() == Submitted(old(View()), f, context).0
      ensures accepted == Submitted(old(View()), f, context).1
    {
      accepted := false;
      if running {
        var i := |pendings|;
        pendings, outcomes := pendings + [Pending(f, context, None)], outcomes + [Waiting];
        if |queue| >= config.queueMax {
          Complete(i, Cancelled);
        } else {
          queue, unfinished, entered := queue + [i], unfinished + 1, entered + [i];
          accepted := true;
        }
      }
    }

    /** The list of pendings of `invoke_many`. */
    method NewPendings(inputs: seq<Input>, owner: nat)
      modifies this`pendings, this`outcomes
      ensures Futures() == RegisterAll(old(Futures()), inputs, owner)
    {
      var n := 0;
      while n < |inputs|
        invariant 0 <= n <= |inputs|
        invariant RegisterAll(Futures(), inputs[n..], owner) == RegisterAll(old(Futures()), inputs, owner)
      {
        assert inputs[n..][0] == inputs[n] && inputs[n..][1..] == inputs[n + 1..];
        pendings, outcomes := pendings + [Pending(inputs[n].0, inputs[n].1, Some(owner))], outcomes + [Waiting];
        n := n + 1;
      }
    }

    /** `invoke` and `invoke_many` up to the first put; they raise when the batcher is not running. */
    method Invoke(inputs: seq<Input>)
      requires Valid()
      modifies this`pendings, this`outcomes, this`callers, this`calls
      ensures Valid() && View() == Invoked(old(View()), inputs)
    {
      StepKeepsInvariant(View(), Event.Invoke(inputs));
      if running {
        var first := |pendings|;
        NewPendings(inputs, |callers|);
        callers, calls := callers + [Entering(first, |inputs|, 0)], calls + [inputs];
      }
    }

    /** One `queue.put` that finds room. */
    method Put(c: nat)
      requires Valid() && c < |callers| && callers[c].Putting? && |queue| < config.queueMax
      modifies this`queue, this`unfinished, this`entered, this`callers
      ensures Valid() && View() == PutOne(old(View()), c)
    {
      PutKeepsInvariant(View(), c);
      Enter(c);
    }

    method Enter(c: nat)
      requires c < |callers| && callers[c].Putting? && |queue| < config.queueMax
      modifies this`queue, this`unfinished, this`entered, this`callers
      ensures View() == PutOne(old(View()), c)
    {
      var p := callers[c];
      var i := p.first + p.entered;
      queue, unfinished, entered := queue + [i], unfinished + 1, entered + [i];
      callers := callers[c := Entering(p.first, p.count, p.entered + 1)];
    }

    /** The response timeout: what is still open of the call is cancelled. */
    method TimeOutResponse(c: nat)
      requires Valid() && c < |callers| && callers[c].Awaiting?
      requires ActiveOf(Futures(), Ids(callers[c].first, callers[c].count)) != []
      modifies this`outcomes, this`callers
      ensures Valid() && View() == ResponseOverdue(old(View()), c)
    {
      StepKeepsInvariant(View(), ResponseTimeout(c));
      CompleteAll(Ids(callers[c].first, callers[c].count), Cancelled);
      callers := callers[c := Raised(ResponseTimedOut)];
    }

    /** `close` up to its await. */
    method BeginClose()
      requires Valid()
      modifies this`running, this`closing, this`cancelRequested
      ensures Valid() && View() == Next(old(View()), CloseBegin)
    {
      StepKeepsInvariant(View(), CloseBegin);
      running, closing := false, true;
      cancelRequested := cancelRequested || Working(worker);
    }

    /** The timeout of `queue.put`: every request of the call fails. */
    method TimeOutPut(c: nat)
      requires Valid() && c < |callers| && callers[c].Putting?
      modifies this
      ensures Valid() && View() == PutTimedOut(old(View()), c)
    {
      StepKeepsInvariant(View(), PutTimeout(c));
      CompleteAll(Ids(callers[c].first, callers[c].count), Failed(QueueFull));
      callers := callers[c := Raised(QueueFull)];
    }

    /** The worker's first `get`; the item stays unfinished. */
    method TakeFirst()
      requires Valid() && queue != [] && !cancelRequested && worker.Idle?
      modifies this`worker, this`queue
      ensures Valid() && View() == TookFirst(old(View()))
    {
      StepKeepsInvariant(View(), Event.TakeFirst);
      worker, queue := Collecting([queue[0]]), queue[1..];
    }

    /** A further `get` before the batch is full. */
    method TakeMore()
      requires Valid() && queue != [] && !cancelRequested && worker.Collecting? && |worker.batch| < config.maxBatch
      modifies this`worker, this`queue
      ensures Valid() && View() == TookMore(old(View()))
    {
      StepKeepsInvariant(View(), Event.TakeMore);
      worker, queue := Collecting(worker.batch + [queue[0]]), queue[1..];
    }

    /** The `finally` of the worker loop. */
    method LeaveBatch(batch: seq<nat>, next: Worker)
      requires batch == Current(worker) && unfinished >= |batch|
      modifies this`unfinished, this`worker, this`taken
      ensures View() == FinishBatch(old(View()), next)
    {
      var n := 0;
      while n < |batch|
        invariant 0 <= n <= |batch|
        invariant unfinished == old(unfinished) - n && worker == old(worker) && taken == old(taken)
      {
        TaskDone();
        n := n + 1;
      }
      worker, taken := next, if batch == [] then taken else taken + [Batch(batch)];
    }

    /** The requests of a batch that are still waited for. */
    method SelectActive(batch: seq<nat>) returns (active: seq<nat>)
      ensures active == ActiveOf(Futures(), batch)
    {
      active := [];
      var n := 0;
      while n < |batch|
        invariant 0 <= n <= |batch|
        invariant active + ActiveOf(Futures(), batch[n..]) == ActiveOf(Futures(), batch)
      {
        assert batch[n..][0] == batch[n] && batch[n..][1..] == batch[n + 1..];
        if batch[n] < |outcomes| && outcomes[batch[n]] == Waiting {
          active := active + [batch[n]];
        }
        n := n + 1;
      }
    }

    /** `_flush` up to the runtime call: the requests that are still waited for are sent. */
    method Dispatch()
      requires Valid() && worker.Collecting? && !cancelRequested
      modifies this`unfinished, this`worker, this`taken, this`sent
      ensures Valid() && View() == Dispatched(old(View()))
    {
      DispatchKeepsInvariant(View());
      Send();
    }

    method Send()
      requires worker.Collecting? && unfinished >= |worker.batch|
      modifies this`unfinished, this`worker, this`taken, this`sent
      ensures View() == Dispatched(old(View()))
    {
      var batch := worker.batch;
      var active := SelectActive(batch);
      if active == [] {
        LeaveBatch(batch, Idle);
      } else {
        worker, sent := Calling(batch, active), sent + active;
      }
    }

    /** One row of the answer. */
    method Hand(i: nat, p: Prediction)
      requires |pendings| == |outcomes| && i < |outcomes|
      modifies this`outcomes, this`published
      ensures Futures() == Deliver(old(Futures()), i, p)
    {
      if outcomes[i] != Waiting {
        return;
      }
      if !Normalizable(p) {
        outcomes := outcomes[i := Failed(InvalidPrediction)];
        return;
      }
      if pendings[i].context.Some? {
        published := published + [(i, p)];
      }
      outcomes := outcomes[i := Answered(p)];
    }

    /** An answer, row by row. */
    method HandAll(active: seq<nat>, model: Model)
      requires Known(Futures(), active)
      modifies this`outcomes, this`published
      ensures Futures() == DeliverAll(old(Futures()), active, Answers(model, Rows(old(Futures()), active)))
    {
      ghost var predictions := Answers(model, Rows(Futures(), active));
      var n := 0;
      while n < |active|
        invariant 0 <= n <= |active|
        invariant pendings == old(pendings) && |outcomes| == |pendings|
        invariant DeliverAll(Futures(), active[n..], predictions[n..]) == DeliverAll(old(Futures()), active, predictions)
      {
        assert active[n..][0] == active[n] && active[n..][1..] == active[n + 1..];
        assert predictions[n..][0] == predictions[n] && predictions[n..][1..] == predictions[n + 1..];
        Hand(active[n], model(pendings[active[n]].features));
        n := n + 1;
      }
    }

    /** The rest of `_flush`: the runtime's answer is handed out, or its error. */
    method Receive(r: Reply)
      requires Valid() && worker.Calling? && !cancelRequested
      modifies this`outcomes, this`published, this`unfinished, this`worker, this`taken
      ensures Valid() && View() == Received(old(View()), r)
    {
      ActiveAreKnown(View());
      ReceiveKeepsInvariant(View(), r);
      HandOut(r);
    }

    method HandOut(r: Reply)
      requires worker.Calling? && Known(Futures(), worker.active) && unfinished >= |worker.batch|
      modifies this`outcomes, this`published, this`unfinished, this`worker, this`taken
      ensures View() == Received(old(View()), r)
    {
      match r {
        case Fault(code) => CompleteAll(worker.active, Failed(RuntimeError(code)));
        case Answer(model) => HandAll(worker.active, model);
      }
      LeaveBatch(worker.batch, Idle);
    }

    /** The worker's `CancelledError` handler. */
    method StopWorker()
      requires Valid() && cancelRequested && Working(worker)
      modifies this
      ensures Valid() && View() == Cancel(old(View()))
    {
      CancelKeepsInvariant(View());
      FailBatch();
    }

    method FailBatch()
      requires unfinished >= |Current(worker)|
      modifies this`outcomes, this`unfinished, this`worker, this`taken
      ensures View() == Cancel(old(View()))
    {
      var batch := Current(worker);
      CompleteAll(batch, Failed(BatcherStopped));
      LeaveBatch(batch, Stopped);
    }

    /** `get_nowait` until the queue is empty. */
    method CompleteQueued()
      requires unfinished == |queue|
      modifies this`queue, this`unfinished, this`outcomes
      ensures queue == [] && unfinished == 0
      ensures Futures() == SettleAll(old(Futures()), old(queue), Failed(BatcherClosed))
    {
      while queue != []
        invariant SettleAll(Futures(), queue, Failed(BatcherClosed)) == SettleAll(old(Futures()), old(queue), Failed(BatcherClosed))
        invariant unfinished == |queue|
        decreases |queue|
      {
        var i := queue[0];
        queue := queue[1..];
        Complete(i, Failed(BatcherClosed));
        TaskDone();
      }
    }

    /** The loop of `close` over what is left in the queue. */
    method DrainQueue()
      requires Valid() && closing && !Working(worker)
      modifies this
      ensures Valid() && View() == Drain(old(View()))
      ensures queue == [] && unfinished == 0
    {
      ghost var after := Drain(View());
      DrainKeepsInvariant(View());
      CompleteQueued();
      taken := taken + [Drained(old(queue))];
      assert View() == after;
    }
  }
}
