/** What every run of the batcher keeps: the accounting of the queue, one owner and one
    dispatch per item, and a shutdown that leaves no item that had entered unanswered. */
module BatcherInvariants {
  import opened Common
  import opened Sequences
  import opened BatcherBoard
  import opened BatcherProtocol
  import opened BatcherRefinement

  function Items(groups: seq<Group>): seq<nat> {
    if groups == [] then [] else Items(groups[..|groups| - 1]) + groups[|groups| - 1].items
  }

  lemma ItemsAppend(groups: seq<Group>, g: Group)
    ensures Items(groups + [g]) == Items(groups) + g.items
  {
    assert (groups + [g])[..|groups|] == groups;
  }

  // ------------------------------------------------------------ accounting

  /** The queue's counter is what is queued plus what the worker holds; what entered left in
      consecutive runs, the worker's of size 1 to the maximum. */
  ghost predicate Account(c: Config, entered: seq<nat>, taken: seq<Group>, held: seq<nat>, queue: seq<nat>, unfinished: nat) {
    && ValidConfig(c)
    && entered == Items(taken) + (held + queue)
    && unfinished == |held| + |queue|
    && |queue| <= c.queueMax
    && |held| <= c.maxBatch
    && (forall k | 0 <= k < |taken| && taken[k].Batch? :: 1 <= |taken[k].items| <= c.maxBatch)
  }

  ghost predicate Accounting(s: State) {
    && Account(s.config, s.entered, s.taken, Current(s.worker), s.queue, s.unfinished)
    && (s.worker.Collecting? || s.worker.Calling? ==> Current(s.worker) != [])
  }

  lemma AccountOfPut(c: Config, entered: seq<nat>, taken: seq<Group>, held: seq<nat>, queue: seq<nat>, unfinished: nat, i: nat)
    requires Account(c, entered, taken, held, queue, unfinished) && |queue| < c.queueMax
    ensures Account(c, entered + [i], taken, held, queue + [i], unfinished + 1)
  {
    assert Items(taken) + (held + (queue + [i])) == Items(taken) + (held + queue) + [i];
  }

  lemma AccountOfTake(c: Config, entered: seq<nat>, taken: seq<Group>, held: seq<nat>, queue: seq<nat>, unfinished: nat)
    requires Account(c, entered, taken, held, queue, unfinished) && queue != [] && |held| < c.maxBatch
    ensures Account(c, entered, taken, held + [queue[0]], queue[1..], unfinished)
  {
    assert held + [queue[0]] + queue[1..] == held + queue;
  }

  lemma AccountOfGroup(c: Config, entered: seq<nat>, taken: seq<Group>, held: seq<nat>, queue: seq<nat>, unfinished: nat)
    requires Account(c, entered, taken, held, queue, unfinished) && held != []
    ensures Account(c, entered, taken + [Batch(held)], [], queue, unfinished - |held|)
  {
    ItemsAppend(taken, Batch(held));
    assert Items(taken) + (held + queue) == Items(taken) + held + ([] + queue);
  }

  lemma AccountOfDrain(c: Config, entered: seq<nat>, taken: seq<Group>, queue: seq<nat>, unfinished: nat)
    requires Account(c, entered, taken, [], queue, unfinished)
    ensures Account(c, entered, taken + [Drained(queue)], [], [], 0)
    ensures Items(taken + [Drained(queue)]) == entered && unfinished == |queue|
  {
    ItemsAppend(taken, Drained(queue));
    assert [] + queue == queue;
  }

  lemma EnqueueKeepsAccounting(s: State, i: nat)
    requires Accounting(s) && !Full(s)
    ensures Accounting(Enqueue(s, i))
  {
    AccountOfPut(s.config, s.entered, s.taken, Current(s.worker), s.queue, s.unfinished, i);
  }

  lemma FinishKeepsAccounting(s: State, next: Worker)
    requires Accounting(s) && !next.Collecting? && !next.Calling?
    ensures Accounting(FinishBatch(s, next))
  {
    if Current(s.worker) != [] {
      AccountOfGroup(s.config, s.entered, s.taken, Current(s.worker), s.queue, s.unfinished);
    }
  }

  lemma SubmitKeepsAccounting(s: State, f: Features, context: Option<string>)
    requires Accounting(s)
    ensures Accounting(Submitted(s, f, context).0)
  {
    if s.running && !Full(s) {
      var s1 := s.(board := Register(s.board, Pending(f, context, None)));
      assert Accounting(s1);
      EnqueueKeepsAccounting(s1, |s.board.pendings|);
    }
  }

  lemma PutKeepsAccounting(s: State, c: nat)
    requires Accounting(s)
    ensures Accounting(PutOne(s, c))
  {
    if c < |s.callers| && s.callers[c].Putting? && !Full(s) {
      EnqueueKeepsAccounting(s, s.callers[c].first + s.callers[c].entered);
    }
  }

  lemma TakeKeepsAccounting(s: State)
    requires Accounting(s)
    ensures Accounting(TookFirst(s)) && Accounting(TookMore(s))
  {
    if s.queue != [] && |Current(s.worker)| < s.config.maxBatch {
      AccountOfTake(s.config, s.entered, s.taken, Current(s.worker), s.queue, s.unfinished);
      assert [] + [s.queue[0]] == [s.queue[0]];
    }
  }

  lemma DispatchKeepsAccounting(s: State)
    requires Accounting(s)
    ensures Accounting(Dispatched(s))
  {
    if s.worker.Collecting? { FinishKeepsAccounting(s, Idle); }
  }

  lemma ReceiveKeepsAccounting(s: State, r: Reply)
    requires Accounting(s)
    ensures Accounting(Received(s, r))
  {
    if s.worker.Calling? && Known(s.board, s.worker.active) {
      var t := s.(board := Received(s, r).board);
      assert Accounting(t);
      FinishKeepsAccounting(t, Idle);
    }
  }

  lemma CancelKeepsAccounting(s: State)
    requires Accounting(s)
    ensures Accounting(Cancel(s))
  {
    var t := s.(board := Cancel(s).board);
    assert Accounting(t);
    FinishKeepsAccounting(t, Stopped);
  }

  lemma DrainKeepsAccounting(s: State)
    requires Accounting(s) && !Working(s.worker)
    ensures Accounting(Drain(s))
    ensures Items(Drain(s).taken) == s.entered && Drain(s).unfinished == 0
  {
    AccountOfDrain(s.config, s.entered, s.taken, s.queue, s.unfinished);
  }

  predicate SameQueue(s: State, t: State) {
    s.config == t.config && s.entered == t.entered && s.taken == t.taken && s.worker == t.worker
    && s.queue == t.queue && s.unfinished == t.unfinished
  }

  lemma CallersLeaveQueue(s: State, e: Event)
    requires e.Invoke? || e.PutTimeout? || e.ResponseTimeout? || e.Resume? || e.CloseBegin?
    ensures SameQueue(s, Next(s, e))
  {
  }

  lemma ReaderStepKeepsAccounting(s: State, e: Event)
    requires Accounting(s)
    requires e.Dispatch? || e.Receive? || e.WorkerCancelled? || e.CloseDrain?
    ensures Accounting(Next(s, e))
  {
    match e
    case Dispatch => DispatchKeepsAccounting(s);
    case Receive(r) => ReceiveKeepsAccounting(s, r);
    case WorkerCancelled => CancelKeepsAccounting(s);
    case CloseDrain => if !Working(s.worker) { DrainKeepsAccounting(s); }
  }

  lemma StepKeepsAccounting(s: State, e: Event)
    requires Accounting(s)
    ensures Accounting(Next(s, e)) && Next(s, e).config == s.config
  {
    match e
    case SubmitNowait(f, context) => SubmitKeepsAccounting(s, f, context);
    case Put(c) => PutKeepsAccounting(s, c);
    case TakeFirst => TakeKeepsAccounting(s);
    case TakeMore => TakeKeepsAccounting(s);
    case Start =>
    case Dispatch => ReaderStepKeepsAccounting(s, e);
    case Receive(_) => ReaderStepKeepsAccounting(s, e);
    case WorkerCancelled => ReaderStepKeepsAccounting(s, e);
    case CloseDrain => ReaderStepKeepsAccounting(s, e);
    case _ => CallersLeaveQueue(s, e);
  }

  /** In every run. */
  lemma {:induction false} AccountingAlwaysHolds(c: Config, events: seq<Event>)
    requires ValidConfig(c)
    ensures Accounting(Execute(c, events)) && Execute(c, events).config == c
    decreases |events|
  {
    if events != [] {
      AccountingAlwaysHolds(c, events[..|events| - 1]);
      StepKeepsAccounting(Execute(c, events[..|events| - 1]), events[|events| - 1]);
    }
  }

  // ------------------------------------------------------------- ownership

  /** A caller's requests are its own, in the order it asked for them; those it has put have
      entered the queue, and no others; one that waits has put them all. */
  ghost predicate CallerOwns(s: State, c: nat)
    requires c < |s.callers| == |s.calls|
  {
    var k := s.callers[c];
    match k
    case Putting(first, count, entered) =>
      && entered < count && OwnRange(s.board, first, s.calls[c], c) && count == |s.calls[c]|
      && (forall i: nat | first <= i < first + count :: i in s.entered <==> i < first + entered)
    case Awaiting(first, count) =>
      && OwnRange(s.board, first, s.calls[c], c) && count == |s.calls[c]|
      && (forall i: nat | first <= i < first + count :: i in s.entered)
    case _ => true
  }

  ghost predicate OwnRange(b: Board, first: nat, inputs: seq<Input>, c: nat) {
    && first + |inputs| <= |b.pendings|
    && forall k | 0 <= k < |inputs| :: b.pendings[first + k] == Pending(inputs[k].0, inputs[k].1, Some(c))
  }

  /** No item enters the queue twice, and callers have requests of their own. */
  ghost predicate Ownership(s: State) {
    && |s.board.pendings| == |s.board.outcomes| && |s.callers| == |s.calls|
    && NoDuplicates(s.entered)
    && (forall i | i in s.entered :: i < |s.board.pendings|)
    && (forall c | 0 <= c < |s.callers| :: CallerOwns(s, c))
  }

  lemma {:induction false} RegisterAllAppends(b: Board, inputs: seq<Input>, c: nat)
    requires |b.pendings| == |b.outcomes|
    ensures var b' := RegisterAll(b, inputs, c);
            && |b'.pendings| == |b'.outcomes| == |b.pendings| + |inputs|
            && b'.pendings[..|b.pendings|] == b.pendings && b'.outcomes[..|b.pendings|] == b.outcomes
            && OwnRange(b', |b.pendings|, inputs, c)
    decreases |inputs|
  {
    if inputs != [] {
      var b1 := Register(b, Pending(inputs[0].0, inputs[0].1, Some(c)));
      RegisterAllAppends(b1, inputs[1..], c);
      var b' := RegisterAll(b, inputs, c);
      assert b'.pendings[..|b.pendings|] == b'.pendings[..|b1.pendings|][..|b.pendings|];
      assert b'.outcomes[..|b.pendings|] == b'.outcomes[..|b1.pendings|][..|b.pendings|];
      assert b'.pendings[|b.pendings|] == b'.pendings[..|b1.pendings|][|b.pendings|];
      forall k | 0 <= k < |inputs| ensures b'.pendings[|b.pendings| + k] == Pending(inputs[k].0, inputs[k].1, Some(c)) {
        if k > 0 { assert inputs[k] == inputs[1..][k - 1]; }
      }
    }
  }

  /** Every caller that is still there stays as it is or is done. */
  predicate CallersOnlyFinish(s: State, t: State) {
    && t.entered == s.entered && t.calls == s.calls && |t.callers| == |s.callers|
    && forall c | 0 <= c < |s.callers| :: t.callers[c] == s.callers[c] || t.callers[c].Returned? || t.callers[c].Raised?
  }

  lemma OthersOnlyFinish(s: State, e: Event)
    requires !e.SubmitNowait? && !e.Invoke? && !e.Put?
    ensures CallersOnlyFinish(s, Next(s, e))
  {
  }

  lemma FinishKeepsOwnership(s: State, t: State)
    requires Ownership(s) && Extends(s.board, t.board) && CallersOnlyFinish(s, t)
    ensures Ownership(t)
  {
    forall c | 0 <= c < |t.callers| ensures CallerOwns(t, c) {
      assert CallerOwns(s, c);
      OwnRangeKept(s, t, c);
    }
  }

  lemma OwnRangeKept(s: State, t: State, c: nat)
    requires Extends(s.board, t.board)
    ensures forall first: nat, inputs | OwnRange(s.board, first, inputs, c) :: OwnRange(t.board, first, inputs, c)
  {
    forall first: nat, inputs: seq<Input> | OwnRange(s.board, first, inputs, c) ensures OwnRange(t.board, first, inputs, c) {
      forall k | 0 <= k < |inputs| ensures t.board.pendings[first + k] == Pending(inputs[k].0, inputs[k].1, Some(c)) {
        assert t.board.pendings[..|s.board.pendings|][first + k] == s.board.pendings[first + k];
      }
    }
  }

  lemma OwnerOf(b: Board, first: nat, inputs: seq<Input>, c: nat, i: nat)
    requires OwnRange(b, first, inputs, c) && first <= i < first + |inputs|
    ensures b.pendings[i].owner == Some(c)
  {
    var k := i - first;
    assert b.pendings[first + k] == Pending(inputs[k].0, inputs[k].1, Some(c));
  }

  lemma SubmitKeepsOwnership(s: State, f: Features, context: Option<string>)
    requires Ownership(s)
    ensures Ownership(Submitted(s, f, context).0)
  {
    var t := Submitted(s, f, context).0;
    if s.running && !Full(s) { NoDuplicatesAppend(s.entered, |s.board.pendings|); }
    forall c | 0 <= c < |t.callers| ensures CallerOwns(t, c) {
      assert CallerOwns(s, c);
    }
  }

  lemma InvokeKeepsOwnership(s: State, inputs: seq<Input>)
    requires Ownership(s)
    ensures Ownership(Invoked(s, inputs))
  {
    if s.running {
      RegisterAllAppends(s.board, inputs, |s.callers|);
      var t := Invoked(s, inputs);
      assert Extends(s.board, t.board) by {
        forall i | 0 <= i < |s.board.outcomes| ensures t.board.outcomes[i] == s.board.outcomes[i] {
          assert t.board.outcomes[..|s.board.pendings|][i] == s.board.outcomes[i];
        }
      }
      forall c | 0 <= c < |t.callers| ensures CallerOwns(t, c) {
        if c < |s.callers| {
          assert CallerOwns(s, c);
          OwnRangeKept(s, t, c);
        }
      }
    }
  }

  lemma PutKeepsOwnership(s: State, c: nat)
    requires Ownership(s)
    ensures Ownership(Next(s, Put(c)))
  {
    if c < |s.callers| && s.callers[c].Putting? && !Full(s) {
      var p := s.callers[c];
      var t := Next(s, Put(c));
      assert CallerOwns(s, c);
      NoDuplicatesAppend(s.entered, p.first + p.entered);
      forall d | 0 <= d < |t.callers| ensures CallerOwns(t, d) {
        assert CallerOwns(s, d);
        if d != c && s.callers[d].Putting? && s.callers[d].first <= p.first + p.entered < s.callers[d].first + s.callers[d].count {
          var q := s.callers[d];
          OwnerOf(s.board, q.first, s.calls[d], d, p.first + p.entered);
          OwnerOf(s.board, p.first, s.calls[c], c, p.first + p.entered);
          assert false;
        }
      }
    }
  }

  lemma StepKeepsOwnership(s: State, e: Event)
    requires Ownership(s) && Published(s.board)
    ensures Ownership(Next(s, e))
  {
    match e
    case SubmitNowait(f, context) => SubmitKeepsOwnership(s, f, context);
    case Invoke(inputs) => InvokeKeepsOwnership(s, inputs);
    case Put(c) => PutKeepsOwnership(s, c);
    case _ =>
      StepExtends(s, e);
      OthersOnlyFinish(s, e);
      FinishKeepsOwnership(s, Next(s, e));
  }

  // ------------------------------------------------ completion and dispatch

  ghost predicate AllDone(b: Board, ids: seq<nat>) {
    forall i | i in ids :: Done(b, i)
  }

  /** What has left the worker or was drained is complete; a row was sent at most once, and
      the worker knows every row that is on the wire. */
  ghost predicate Completion(s: State) {
    && AllDone(s.board, Items(s.taken))
    && NoDuplicates(s.sent)
    && (forall i | i in s.sent :: i in Items(s.taken) || (s.worker.Calling? && i in s.worker.active))
    && (s.worker.Calling? ==> forall i | i in s.worker.active :: i in s.worker.batch)
    && (s.worker.Calling? ==> forall i | i in s.worker.batch :: i in s.worker.active || Done(s.board, i))
  }

  lemma {:induction false} SettleAllCompletes(b: Board, ids: seq<nat>, o: Outcome)
    requires Known(b, ids) && o != Waiting
    ensures AllDone(SettleAll(b, ids, o), ids)
    ensures |SettleAll(b, ids, o).outcomes| == |b.outcomes|
    ensures forall i | Done(b, i) :: Done(SettleAll(b, ids, o), i)
    decreases |ids|
  {
    if ids != [] {
      SettleAllCompletes(Settle(b, ids[0], o), ids[1..], o);
      assert Done(Settle(b, ids[0], o), ids[0]);
      assert ids == [ids[0]] + ids[1..];
    }
  }

  lemma {:induction false} DeliverAllCompletes(b: Board, ids: seq<nat>, ps: seq<Prediction>)
    requires Known(b, ids) && |ps| == |ids|
    ensures AllDone(DeliverAll(b, ids, ps), ids)
    ensures forall i | Done(b, i) :: Done(DeliverAll(b, ids, ps), i)
    decreases |ids|
  {
    if ids != [] {
      var b1 := Deliver(b, ids[0], ps[0]);
      assert Known(b1, ids[1..]);
      DeliverAllCompletes(b1, ids[1..], ps[1..]);
      assert Done(b1, ids[0]);
      assert ids == [ids[0]] + ids[1..];
    }
  }

  lemma {:induction false} ActiveOfIsOpenPart(b: Board, ids: seq<nat>)
    ensures forall i :: i in ActiveOf(b, ids) <==> i in ids && Open(b, i)
    ensures NoDuplicates(ids) ==> NoDuplicates(ActiveOf(b, ids))
    decreases |ids|
  {
    if ids != [] {
      ActiveOfIsOpenPart(b, ids[1..]);
      assert ids == [ids[0]] + ids[1..];
      NoDuplicatesTail(ids);
    }
  }

  lemma NoDuplicatesTail(ids: seq<nat>)
    requires ids != []
    ensures NoDuplicates(ids) ==> NoDuplicates(ids[1..]) && ids[0] !in ids[1..]
  {
    if NoDuplicates(ids) {
      assert ids == [ids[0]] + ids[1..];
      NoDuplicatesParts([ids[0]], ids[1..]);
      assert ids[0] in [ids[0]];
    }
  }

  /** The parts of `entered` have no item in common. */
  lemma EnteredParts(s: State)
    requires Accounting(s) && Ownership(s)
    ensures NoDuplicates(Current(s.worker))
    ensures forall i | i in Items(s.taken) :: i !in Current(s.worker)
    ensures Known(s.board, Current(s.worker)) && Known(s.board, s.queue)
  {
    var held := Current(s.worker);
    NoDuplicatesParts(Items(s.taken), held + s.queue);
    NoDuplicatesParts(held, s.queue);
    forall i | i in held || i in s.queue ensures i in s.entered {
      assert i in held + s.queue;
      assert i in Items(s.taken) + (held + s.queue);
    }
    forall k | 0 <= k < |held| ensures held[k] < |s.board.pendings| { assert held[k] in held; }
    forall k | 0 <= k < |s.queue| ensures s.queue[k] < |s.board.pendings| { assert s.queue[k] in s.queue; }
  }

  /** The worker lets go of its batch once all of it is complete. */
  lemma FinishKeepsCompletion(s: State, t: State, next: Worker)
    requires Completion(s) && Extends(s.board, t.board) && !next.Calling?
    requires t.worker == s.worker && t.taken == s.taken && t.sent == s.sent && AllDone(t.board, Current(s.worker))
    ensures Completion(FinishBatch(t, next))
  {
    ItemsAppend(t.taken, Batch(Current(t.worker)));
    DoneStays(s.board, t.board);
    var u := FinishBatch(t, next);
    assert Items(u.taken) == if Current(s.worker) == [] then Items(s.taken) else Items(s.taken) + Current(s.worker);
  }

  lemma DoneStays(b: Board, b': Board)
    requires Extends(b, b')
    ensures forall i | Done(b, i) :: Done(b', i)
  {
  }

  lemma DispatchKeepsCompletion(s: State)
    requires Accounting(s) && Ownership(s) && Completion(s)
    ensures Completion(Dispatched(s))
  {
    if s.worker.Collecting? {
      var batch := s.worker.batch;
      EnteredParts(s);
      ActiveOfIsOpenPart(s.board, batch);
      var active := ActiveOf(s.board, batch);
      if active == [] {
        assert AllDone(s.board, batch) by {
          forall i | i in batch ensures Done(s.board, i) { assert i !in active; }
        }
        FinishKeepsCompletion(s, s, Idle);
      } else {
        forall i, j | 0 <= i < |s.sent| && 0 <= j < |active| ensures s.sent[i] != active[j] {
          assert s.sent[i] in s.sent && active[j] in active;
        }
      }
    }
  }

  lemma ReceiveKeepsCompletion(s: State, r: Reply)
    requires Ownership(s) && Completion(s) && Published(s.board) && !s.cancelRequested
    ensures Completion(Received(s, r))
  {
    if s.worker.Calling? && Known(s.board, s.worker.active) {
      var t := s.(board := Received(s, r).board);
      StepExtends(s, Receive(r));
      DoneStays(s.board, t.board);
      match r {
        case Answer(model) => DeliverAllCompletes(s.board, s.worker.active, Answers(model, Rows(s.board, s.worker.active)));
        case Fault(code) => SettleAllCompletes(s.board, s.worker.active, Failed(RuntimeError(code)));
      }
      assert AllDone(t.board, s.worker.batch);
      FinishKeepsCompletion(s, t, Idle);
    }
  }

  lemma CancelKeepsCompletion(s: State)
    requires Accounting(s) && Ownership(s) && Completion(s) && Published(s.board)
    ensures Completion(Next(s, WorkerCancelled))
  {
    if s.cancelRequested && Working(s.worker) {
      var t := s.(board := Cancel(s).board);
      StepExtends(s, WorkerCancelled);
      EnteredParts(s);
      SettleAllCompletes(s.board, Current(s.worker), Failed(BatcherStopped));
      FinishKeepsCompletion(s, t, Stopped);
    }
  }

  lemma DrainKeepsCompletion(s: State)
    requires Accounting(s) && Ownership(s) && Completion(s) && Published(s.board)
    ensures Completion(Next(s, CloseDrain))
  {
    if s.closing && !Working(s.worker) {
      var t := Next(s, CloseDrain);
      StepExtends(s, CloseDrain);
      DoneStays(s.board, t.board);
      EnteredParts(s);
      SettleAllCompletes(s.board, s.queue, Failed(BatcherClosed));
      ItemsAppend(s.taken, Drained(s.queue));
    }
  }

  lemma OthersLeaveWorker(s: State, e: Event)
    requires !e.Dispatch? && !e.Receive? && !e.WorkerCancelled? && !e.CloseDrain?
    ensures var t := Next(s, e);
            && t.taken == s.taken && t.sent == s.sent
            && (t.worker.Calling? || s.worker.Calling? ==> t.worker == s.worker)
  {
  }

  lemma StepKeepsCompletion(s: State, e: Event)
    requires Accounting(s) && Ownership(s) && Completion(s) && Published(s.board)
    ensures Completion(Next(s, e))
  {
    match e
    case Dispatch => DispatchKeepsCompletion(s);
    case Receive(r) => if !s.cancelRequested { ReceiveKeepsCompletion(s, r); }
    case WorkerCancelled => CancelKeepsCompletion(s);
    case CloseDrain => DrainKeepsCompletion(s);
    case _ =>
      OthersLeaveWorker(s, e);
      StepExtends(s, e);
      DoneStays(s.board, Next(s, e).board);
  }

  /** In every run. */
  lemma {:induction false} ItemsAreCompleted(c: Config, events: seq<Event>)
    requires ValidConfig(c)
    ensures Ownership(Execute(c, events)) && Completion(Execute(c, events))
    decreases |events|
  {
    if events != [] {
      var before := events[..|events| - 1];
      ItemsAreCompleted(c, before);
      AccountingAlwaysHolds(c, before);
      EventsMatchAnswers(c, before);
      StepKeepsOwnership(Execute(c, before), events[|events| - 1]);
      StepKeepsCompletion(Execute(c, before), events[|events| - 1]);
    }
  }

  /** All that every step keeps. */
  ghost predicate Invariant(s: State) {
    Accounting(s) && Ownership(s) && Completion(s) && Published(s.board)
  }

  lemma CreatedHasInvariant(c: Config)
    requires ValidConfig(c)
    ensures Invariant(Created(c))
  {
  }

  lemma StepKeepsInvariant(s: State, e: Event)
    requires Invariant(s)
    ensures Invariant(Next(s, e))
  {
    StepKeepsAccounting(s, e);
    StepKeepsOwnership(s, e);
    StepKeepsCompletion(s, e);
    StepExtends(s, e);
  }

  lemma SubmitKeepsInvariant(s: State, f: Features, context: Option<string>)
    requires Invariant(s)
    ensures Invariant(Submitted(s, f, context).0)
  {
    StepKeepsInvariant(s, SubmitNowait(f, context));
  }

  lemma PutKeepsInvariant(s: State, c: nat)
    requires Invariant(s)
    ensures Invariant(PutOne(s, c))
  {
    StepKeepsInvariant(s, Put(c));
  }

  lemma ReceiveKeepsInvariant(s: State, r: Reply)
    requires Invariant(s) && !s.cancelRequested
    ensures Invariant(Received(s, r))
  {
    StepKeepsInvariant(s, Receive(r));
  }

  lemma CancelKeepsInvariant(s: State)
    requires Invariant(s) && s.cancelRequested && Working(s.worker)
    ensures Invariant(Cancel(s)) && s.unfinished >= |Current(s.worker)|
  {
    StepKeepsInvariant(s, WorkerCancelled);
  }

  lemma DispatchKeepsInvariant(s: State)
    requires Invariant(s) && s.worker.Collecting? && !s.cancelRequested
    ensures Invariant(Dispatched(s)) && s.unfinished >= |s.worker.batch|
  {
    HeldIsUnfinished(s);
    StepKeepsInvariant(s, Dispatch);
  }

  lemma HeldIsUnfinished(s: State)
    requires Accounting(s)
    ensures s.unfinished >= |Current(s.worker)|
  {
  }

  lemma DrainKeepsInvariant(s: State)
    requires Invariant(s) && s.closing && !Working(s.worker)
    ensures Invariant(Drain(s)) && s.unfinished == |s.queue|
  {
    StepKeepsInvariant(s, CloseDrain);
  }

  /** The runtime is only asked about requests there are, all counted as unfinished. */
  lemma ActiveAreKnown(s: State)
    requires Invariant(s) && s.worker.Calling?
    ensures Known(s.board, s.worker.active) && s.unfinished >= |s.worker.batch|
  {
    EnteredParts(s);
    forall k | 0 <= k < |s.worker.active| ensures s.worker.active[k] < |s.board.pendings| {
      assert s.worker.active[k] in s.worker.active;
      var j :| 0 <= j < |s.worker.batch| && s.worker.batch[j] == s.worker.active[k];
    }
  }

  /** Once a close has drained the queue, everything that had entered by then is complete and
      nothing is left unfinished, whatever happened before. */
  lemma CloseCompletesEverything(c: Config, events: seq<Event>)
    requires ValidConfig(c)
    requires Execute(c, events).closing && !Working(Execute(c, events).worker)
    ensures var s, t := Execute(c, events), Execute(c, events + [CloseDrain]);
            && t.entered == s.entered && t.queue == [] && t.unfinished == 0
            && AllDone(t.board, s.entered)
  {
    var s := Execute(c, events);
    assert (events + [CloseDrain])[..|events|] == events;
    AccountingAlwaysHolds(c, events);
    ItemsAreCompleted(c, events);
    EventsMatchAnswers(c, events);
    DrainKeepsAccounting(s);
    DrainKeepsCompletion(s);
  }

  // --------------------------------------------------------- what callers see

  /** The result is what the runtime said about the input, in the answer that the worker
      received while request `i` was in its batch and still waited for. */
  ghost predicate AnswersCall(c: Config, events: seq<Event>, i: nat, input: Input, result: Prediction) {
    exists k :: 0 <= k < |events| && Hands(Execute(c, events[..k]), events[k], i)
                && result == events[k].reply.model(input.0) && Normalizable(result)
  }

  ghost predicate AllAnswer(c: Config, events: seq<Event>, first: nat, inputs: seq<Input>, results: seq<Prediction>) {
    |results| == |inputs| && forall k | 0 <= k < |inputs| :: AnswersCall(c, events, first + k, inputs[k], results[k])
  }

  /** The results answer, in order, the requests that were registered for the caller's inputs. */
  ghost predicate Fulfilled(c: Config, events: seq<Event>, b: Board, caller: nat, inputs: seq<Input>, results: seq<Prediction>) {
    exists first: nat :: OwnRange(b, first, inputs, caller) && AllAnswer(c, events, first, inputs, results)
  }

  lemma AnswersCallLater(c: Config, events: seq<Event>, e: Event, i: nat, input: Input, result: Prediction)
    requires AnswersCall(c, events, i, input, result)
    ensures AnswersCall(c, events + [e], i, input, result)
  {
    var k :| 0 <= k < |events| && Hands(Execute(c, events[..k]), events[k], i)
             && result == events[k].reply.model(input.0) && Normalizable(result);
    assert (events + [e])[k] == events[k] && (events + [e])[..k] == events[..k];
  }

  lemma FulfilledLater(c: Config, events: seq<Event>, e: Event, s: State, t: State, caller: nat, inputs: seq<Input>, results: seq<Prediction>)
    requires Fulfilled(c, events, s.board, caller, inputs, results) && Extends(s.board, t.board)
    ensures Fulfilled(c, events + [e], t.board, caller, inputs, results)
  {
    var first: nat :| OwnRange(s.board, first, inputs, caller) && AllAnswer(c, events, first, inputs, results);
    OwnRangeKept(s, t, caller);
    forall k | 0 <= k < |inputs| ensures AnswersCall(c, events + [e], first + k, inputs[k], results[k]) {
      AnswersCallLater(c, events, e, first + k, inputs[k], results[k]);
    }
  }

  lemma OwnAnswer(c: Config, events: seq<Event>, caller: nat, first: nat, k: nat)
    requires var s := Execute(c, events);
             && caller < |s.calls| && k < |s.calls[caller]|
             && OwnRange(s.board, first, s.calls[caller], caller)
             && first + k < |s.board.outcomes| && s.board.outcomes[first + k].Answered?
    ensures var s := Execute(c, events);
            AnswersCall(c, events, first + k, s.calls[caller][k], s.board.outcomes[first + k].prediction)
  {
    var s := Execute(c, events);
    AnswersAreOwn(c, events, first + k);
    assert s.board.pendings[first + k] == Pending(s.calls[caller][k].0, s.calls[caller][k].1, Some(caller));
  }

  lemma AnsweredRangeAnswers(c: Config, events: seq<Event>, caller: nat, first: nat, count: nat)
    requires var s := Execute(c, events);
             && caller < |s.calls| && count == |s.calls[caller]| && OwnRange(s.board, first, s.calls[caller], caller)
             && AllAnswered(s.board, Ids(first, count))
    ensures var s := Execute(c, events); AllAnswer(c, events, first, s.calls[caller], Results(s.board, Ids(first, count)))
  {
    var s := Execute(c, events);
    var inputs, ids := s.calls[caller], Ids(first, count);
    var results := Results(s.board, ids);
    forall k | 0 <= k < |inputs| ensures AnswersCall(c, events, first + k, inputs[k], results[k]) {
      assert ids[k] == first + k && results[k] == s.board.outcomes[first + k].prediction;
      OwnAnswer(c, events, caller, first, k);
    }
  }

  lemma CollectedIsFulfilled(c: Config, events: seq<Event>, caller: nat)
    requires var s := Execute(c, events); |s.callers| == |s.calls| && CanCollect(s, caller) && CallerOwns(s, caller)
    ensures var s := Execute(c, events); Fulfilled(c, events, s.board, caller, s.calls[caller], Collected(s, caller))
  {
    var k := Execute(c, events).callers[caller];
    AnsweredRangeAnswers(c, events, caller, k.first, k.count);
  }

  /** A caller returns only by collecting the answers of its own requests. */
  ghost predicate OnlyCollects(s: State, t: State) {
    && |s.callers| == |s.calls| && |t.callers| == |t.calls|
    && forall c | 0 <= c < |t.callers| && t.callers[c].Returned? ::
         && c < |s.callers| && t.calls[c] == s.calls[c]
         && (t.callers[c] == s.callers[c] || (CanCollect(s, c) && t.callers[c].results == Collected(s, c)))
  }

  predicate CanCollect(s: State, c: nat) {
    c < |s.callers| && s.callers[c].Awaiting? && AllAnswered(s.board, Ids(s.callers[c].first, s.callers[c].count))
  }

  function Collected(s: State, c: nat): seq<Prediction>
    requires CanCollect(s, c)
  {
    Results(s.board, Ids(s.callers[c].first, s.callers[c].count))
  }

  lemma ResumeOnlyCollects(s: State, c: nat, k: nat)
    requires |s.callers| == |s.calls|
    ensures OnlyCollects(s, Resumed(s, c, k))
  {
  }

  lemma OthersReturnNothing(s: State, e: Event)
    requires |s.callers| == |s.calls| && !e.Resume?
    ensures var t := Next(s, e);
            && |t.callers| == |t.calls|
            && forall c | 0 <= c < |t.callers| && t.callers[c].Returned? ::
                 c < |s.callers| && t.calls[c] == s.calls[c] && t.callers[c] == s.callers[c]
  {
  }

  lemma StepOnlyCollects(s: State, e: Event)
    requires |s.callers| == |s.calls|
    ensures OnlyCollects(s, Next(s, e))
  {
    match e
    case Resume(c, k) => ResumeOnlyCollects(s, c, k);
    case _ => OthersReturnNothing(s, e);
  }

  ghost predicate CallsFulfilled(c: Config, events: seq<Event>, s: State) {
    && |s.callers| == |s.calls|
    && forall k | 0 <= k < |s.callers| && s.callers[k].Returned? ::
         Fulfilled(c, events, s.board, k, s.calls[k], s.callers[k].results)
  }

  lemma CollectKeepsFulfilled(c: Config, events: seq<Event>, e: Event, s: State, t: State)
    requires CallsFulfilled(c, events, s) && OnlyCollects(s, t) && Extends(s.board, t.board)
    requires forall k | 0 <= k < |s.callers| && CanCollect(s, k) :: Fulfilled(c, events, s.board, k, s.calls[k], Collected(s, k))
    ensures CallsFulfilled(c, events + [e], t)
  {
    forall k | 0 <= k < |t.callers| && t.callers[k].Returned?
      ensures Fulfilled(c, events + [e], t.board, k, t.calls[k], t.callers[k].results)
    {
      FulfilledLater(c, events, e, s, t, k, t.calls[k], t.callers[k].results);
    }
  }

  lemma CollectedAreFulfilled(c: Config, events: seq<Event>)
    requires ValidConfig(c)
    ensures var s := Execute(c, events);
            |s.callers| == |s.calls|
            && forall k | 0 <= k < |s.callers| && CanCollect(s, k) :: Fulfilled(c, events, s.board, k, s.calls[k], Collected(s, k))
  {
    var s := Execute(c, events);
    ItemsAreCompleted(c, events);
    forall k | 0 <= k < |s.callers| && CanCollect(s, k) ensures Fulfilled(c, events, s.board, k, s.calls[k], Collected(s, k)) {
      assert CallerOwns(s, k);
      CollectedIsFulfilled(c, events, k);
    }
  }

  lemma NextKeepsFulfilled(c: Config, events: seq<Event>, e: Event)
    requires ValidConfig(c) && CallsFulfilled(c, events, Execute(c, events))
    ensures CallsFulfilled(c, events + [e], Next(Execute(c, events), e))
  {
    CollectedAreFulfilled(c, events);
    EventsMatchAnswers(c, events);
    StepExtends(Execute(c, events), e);
    StepOnlyCollects(Execute(c, events), e);
    CollectKeepsFulfilled(c, events, e, Execute(c, events), Next(Execute(c, events), e));
  }

  lemma LastStep(c: Config, events: seq<Event>)
    requires events != []
    ensures events == events[..|events| - 1] + [events[|events| - 1]]
    ensures Execute(c, events) == Next(Execute(c, events[..|events| - 1]), events[|events| - 1])
  {
  }

  /** In every run: a call that returned has one answer per input, in the order of the
      inputs, each from the answer that the worker received while it held that request. */
  lemma {:induction false} CallersGetTheirOwnAnswers(c: Config, events: seq<Event>)
    requires ValidConfig(c)
    ensures CallsFulfilled(c, events, Execute(c, events))
    decreases |events|
  {
    if events != [] {
      LastStep(c, events);
      CallersGetTheirOwnAnswers(c, events[..|events| - 1]);
      NextKeepsFulfilled(c, events[..|events| - 1], events[|events| - 1]);
    }
  }
}
