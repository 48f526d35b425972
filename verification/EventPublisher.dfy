/** `BufferedPredictionEventPublisher`: a bounded queue, one worker task that hands batches to
    a sink, and a close that drains. Each step is a stretch of code between two awaits. */
module EventPublisher {
  import opened Sequences

  datatype Config = Config(queueMax: nat, batchMax: nat)

  /** The checks of the constructor. */
  predicate ValidConfig(c: Config) {
    c.batchMax >= 1 && c.queueMax >= 1
  }

  /** The worker task: absent, waiting for a first event, or for a further one. */
  datatype Worker<T> = Absent | Idle | Collecting(batch: seq<T>)

  /** Where a close waits: on `join`, or on the worker it has cancelled. */
  datatype Close = NotClosing | Joining | Cancelling

  /** Besides the fields of the object: every accepted event, and the batches handed to the
      sink with what the sink did (false when it raised). */
  datatype State<T> = State(
    accepting: bool, queue: seq<T>, unfinished: nat, worker: Worker<T>, close: Close,
    accepted: seq<T>, batches: seq<seq<T>>, delivered: seq<T>)

  datatype Event<T> =
    | Start | Submit(item: T) | TakeFirst | TakeMore | Publish(works: bool) | CloseBegin | Joined | WorkerEnds

  function Created<T>(): State<T> {
    State(false, [], 0, Absent, NotClosing, [], [], [])
  }

  function Held<T>(w: Worker<T>): seq<T> {
    if w.Collecting? then w.batch else []
  }

  predicate Accepts<T>(c: Config, s: State<T>) {
    s.accepting && |s.queue| < c.queueMax
  }

  /** One atomic step; a step that is not possible changes nothing. */
  function Next<T>(c: Config, s: State<T>, e: Event<T>): State<T> {
    match e
    case Start =>
      if s.worker.Absent? then s.(accepting := true, worker := Idle) else s
    case Submit(x) =>
      if Accepts(c, s) then s.(queue := s.queue + [x], unfinished := s.unfinished + 1, accepted := s.accepted + [x]) else s
    case TakeFirst =>
      if s.worker.Idle? && s.close != Cancelling && s.queue != []
      then s.(worker := Collecting([s.queue[0]]), queue := s.queue[1..]) else s
    case TakeMore =>
      if s.worker.Collecting? && s.close != Cancelling && |s.worker.batch| < c.batchMax && s.queue != []
      then s.(worker := Collecting(s.worker.batch + [s.queue[0]]), queue := s.queue[1..]) else s
    case Publish(works) =>
      if s.worker.Collecting? && s.close != Cancelling then
        s.(worker := Idle, batches := s.batches + [s.worker.batch],
           unfinished := if s.unfinished >= |s.worker.batch| then s.unfinished - |s.worker.batch| else 0,
           delivered := if works then s.delivered + s.worker.batch else s.delivered)
      else s
    case CloseBegin =>
      if s.close != NotClosing then s
      else s.(accepting := false, close := if s.worker.Absent? then NotClosing else Joining)
    case Joined =>
      if s.close == Joining && s.unfinished == 0 then s.(close := Cancelling) else s
    case WorkerEnds =>
      if s.close == Cancelling then s.(worker := Absent, close := NotClosing) else s
  }

  function Execute<T>(c: Config, events: seq<Event<T>>): State<T>
    decreases |events|
  {
    if events == [] then Created() else Next(c, Execute(c, events[..|events| - 1]), events[|events| - 1])
  }

  /** What was accepted was handed over, is in the worker's batch or is queued, in the order
      of submission; batches have size 1 to the maximum; a cancelled worker holds nothing. */
  ghost predicate Conserved<T>(c: Config, s: State<T>) {
    && s.accepted == Flatten(s.batches) + (Held(s.worker) + s.queue)
    && s.unfinished == |Held(s.worker)| + |s.queue|
    && |s.queue| <= c.queueMax && |Held(s.worker)| <= c.batchMax
    && (forall k | 0 <= k < |s.batches| :: 1 <= |s.batches[k]| <= c.batchMax)
    && (s.worker.Collecting? ==> s.worker.batch != [])
    && (s.worker.Absent? ==> !s.accepting && s.queue == [] && s.close == NotClosing)
    && (s.close != NotClosing ==> !s.accepting)
    && (s.close == Cancelling ==> s.unfinished == 0)
  }

  lemma PublishConserves<T>(c: Config, s: State<T>, works: bool)
    requires Conserved(c, s)
    ensures Conserved(c, Next(c, s, Publish(works)))
  {
    if s.worker.Collecting? {
      FlattenAppend(s.batches, s.worker.batch);
      assert Flatten(s.batches) + (s.worker.batch + s.queue) == Flatten(s.batches) + s.worker.batch + ([] + s.queue);
    }
  }

  lemma TakeConserves<T>(c: Config, s: State<T>)
    requires ValidConfig(c) && Conserved(c, s)
    ensures Conserved(c, Next(c, s, TakeFirst)) && Conserved(c, Next(c, s, TakeMore))
  {
    if s.queue != [] {
      assert Held(s.worker) + [s.queue[0]] + s.queue[1..] == Held(s.worker) + s.queue;
      assert [] + [s.queue[0]] == [s.queue[0]];
    }
  }

  lemma SubmitConserves<T>(c: Config, s: State<T>, x: T)
    requires Conserved(c, s)
    ensures Conserved(c, Next(c, s, Submit(x)))
  {
    assert Flatten(s.batches) + (Held(s.worker) + s.queue) + [x] == Flatten(s.batches) + (Held(s.worker) + (s.queue + [x]));
  }

  lemma StepConserves<T>(c: Config, s: State<T>, e: Event<T>)
    requires ValidConfig(c) && Conserved(c, s)
    ensures Conserved(c, Next(c, s, e))
  {
    match e
    case Submit(x) => SubmitConserves(c, s, x);
    case TakeFirst => TakeConserves(c, s);
    case TakeMore => TakeConserves(c, s);
    case Publish(works) => PublishConserves(c, s, works);
    case _ =>
  }

  /** In every run, with any number of starts and closes. */
  lemma {:induction false} AlwaysConserved<T>(c: Config, events: seq<Event<T>>)
    requires ValidConfig(c)
    ensures Conserved(c, Execute(c, events))
    decreases |events|
  {
    if events != [] {
      AlwaysConserved(c, events[..|events| - 1]);
      StepConserves(c, Execute(c, events[..|events| - 1]), events[|events| - 1]);
    }
  }

  /** When a close ends, every event accepted so far has been handed to the sink, once and in
      order: the cancellation that follows the join loses nothing. */
  lemma CloseHandsOverEverything<T>(c: Config, events: seq<Event<T>>)
    requires ValidConfig(c) && Execute(c, events).close == Cancelling
    ensures var t := Execute(c, events + [WorkerEnds]);
            && t.accepted == Execute(c, events).accepted == Flatten(t.batches)
            && t.queue == [] && t.unfinished == 0 && t.worker.Absent?
  {
    AlwaysConserved(c, events);
    assert (events + [WorkerEnds])[..|events|] == events;
    assert Flatten(Execute(c, events).batches) + ([] + []) == Flatten(Execute(c, events).batches);
  }

  /** While a close is under way nothing new is accepted. */
  lemma CloseAcceptsNothing<T>(c: Config, events: seq<Event<T>>, e: Event<T>)
    requires ValidConfig(c) && Execute(c, events).close != NotClosing
    ensures Execute(c, events + [e]).accepted == Execute(c, events).accepted
  {
    AlwaysConserved(c, events);
    assert (events + [e])[..|events|] == events;
  }

  /** The sink gets every batch; what it did not fail on is delivered. */
  lemma {:induction false} NothingIsLostUnlessTheSinkFails<T>(c: Config, events: seq<Event<T>>)
    requires ValidConfig(c) && Publish(false) !in events
    ensures Execute(c, events).delivered == Flatten(Execute(c, events).batches)
    decreases |events|
  {
    if events != [] {
      var before, last := events[..|events| - 1], events[|events| - 1];
      NothingIsLostUnlessTheSinkFails(c, before);
      var s := Execute(c, before);
      if last == Publish(true) && s.worker.Collecting? {
        FlattenAppend(s.batches, s.worker.batch);
      }
    }
  }

  lemma ExecuteAppend<T>(c: Config, events: seq<Event<T>>, e: Event<T>)
    ensures Execute(c, events + [e]) == Next(c, Execute(c, events), e)
  {
    assert (events + [e])[..|events|] == events;
  }

  /** An event is accepted exactly when it is submitted while the publisher accepts and its queue
      has room; the publisher accepts from a start until a close. */
  lemma AcceptsExactlyWhen<T>(c: Config, events: seq<Event<T>>, e: Event<T>)
    requires ValidConfig(c)
    ensures var s, t := Execute(c, events), Execute(c, events + [e]);
            && t.accepted == s.accepted + (if e.Submit? && s.accepting && |s.queue| < c.queueMax then [e.item] else [])
            && t.accepting == (if e.Start? && s.worker.Absent? then true else !e.CloseBegin? && s.accepting)
  {
    AlwaysConserved(c, events);
    ExecuteAppend(c, events, e);
  }

  /** The sink has what was handed to it while it worked. */
  lemma DeliversExactlyWhen<T>(c: Config, events: seq<Event<T>>, e: Event<T>)
    ensures var s, t := Execute(c, events), Execute(c, events + [e]);
            && t.delivered == s.delivered + (if e == Publish(true) && s.worker.Collecting? && s.close != Cancelling then s.worker.batch else [])
            && t.batches == s.batches + (if e.Publish? && s.worker.Collecting? && s.close != Cancelling then [s.worker.batch] else [])
  {
    ExecuteAppend(c, events, e);
  }

  /** A close waits for the queue when there is a worker, then stops it, and is over when it ends. */
  lemma CloseFollows<T>(c: Config, events: seq<Event<T>>, e: Event<T>)
    ensures var s, t := Execute(c, events), Execute(c, events + [e]);
            t.close == if e.CloseBegin? && s.close == NotClosing && !s.worker.Absent? then Joining
                       else if e.Joined? && s.close == Joining && s.unfinished == 0 then Cancelling
                       else if e.WorkerEnds? && s.close == Cancelling then NotClosing
                       else s.close
  {
    ExecuteAppend(c, events, e);
  }

  /** A batch is filled up to the maximum while events are queued. */
  lemma BatchGrows<T>(c: Config, events: seq<Event<T>>)
    requires var s := Execute(c, events);
             s.worker.Collecting? && s.close != Cancelling && |s.worker.batch| < c.batchMax && s.queue != []
    ensures var s, t := Execute(c, events), Execute(c, events + [TakeMore]);
            t.worker == Collecting(s.worker.batch + [s.queue[0]]) && t.queue == s.queue[1..]
  {
    ExecuteAppend(c, events, TakeMore);
  }

  /** The run that ends a close with a sink that works. */
  function Finish<T>(worker: Worker<T>, queue: seq<T>): seq<Event<T>>
    decreases |queue|, worker.Collecting?
  {
    if worker.Collecting? then [Publish(true)] + Finish(Idle, queue)
    else if queue != [] then [TakeFirst, Publish(true)] + Finish(Idle, queue[1..])
    else [Joined, WorkerEnds]
  }

  function Follow<T>(c: Config, s: State<T>, events: seq<Event<T>>): State<T>
    decreases |events|
  {
    if events == [] then s else Follow(c, Next(c, s, events[0]), events[1..])
  }

  lemma FollowTwo<T>(c: Config, s: State<T>, a: Event<T>, b: Event<T>, rest: seq<Event<T>>)
    ensures Follow(c, s, [a] + rest) == Follow(c, Next(c, s, a), rest)
    ensures Follow(c, s, [a, b] + rest) == Follow(c, Next(c, Next(c, s, a), b), rest)
  {
    assert ([a] + rest)[1..] == rest && ([a, b] + rest)[1..] == [b] + rest && ([b] + rest)[1..] == rest;
  }

  lemma HandsOver<T>(c: Config, s: State<T>)
    requires ValidConfig(c) && Conserved(c, s) && s.close == Joining
    ensures s.worker.Collecting? ==>
              var u := Next(c, s, Publish(true));
              && Conserved(c, u) && u.worker.Idle? && u.close == Joining && u.queue == s.queue && u.accepted == s.accepted
              && u.delivered == s.delivered + s.worker.batch
    ensures s.worker.Idle? && s.queue != [] ==>
              var u := Next(c, Next(c, s, TakeFirst), Publish(true));
              && Conserved(c, u) && u.worker.Idle? && u.close == Joining && u.queue == s.queue[1..] && u.accepted == s.accepted
              && u.delivered == s.delivered + [s.queue[0]]
  {
    if s.worker.Collecting? {
      PublishConserves(c, s, true);
    } else if s.worker.Idle? && s.queue != [] {
      TakeConserves(c, s);
      PublishConserves(c, Next(c, s, TakeFirst), true);
    }
  }

  lemma {:induction false} FinishEnds<T>(c: Config, s: State<T>)
    requires ValidConfig(c) && Conserved(c, s) && s.close == Joining && s.worker.Idle?
    ensures var t := Follow(c, s, Finish(s.worker, s.queue));
            && t.close == NotClosing && t.worker.Absent? && t.queue == [] && t.unfinished == 0 && t.accepted == s.accepted
            && t.delivered == s.delivered + s.queue
    decreases |s.queue|
  {
    HandsOver(c, s);
    if s.queue != [] {
      var u := Next(c, Next(c, s, TakeFirst), Publish(true));
      FollowTwo(c, s, TakeFirst, Publish(true), Finish(Idle, s.queue[1..]));
      FinishEnds(c, u);
      assert u.delivered + s.queue[1..] == s.delivered + s.queue;
    } else {
      var ends: seq<Event<T>> := [Joined, WorkerEnds];
      FollowTwo(c, s, Joined, WorkerEnds, []);
      assert ends + [] == ends;
    }
  }

  lemma BatchFinishes<T>(c: Config, s: State<T>)
    requires ValidConfig(c) && Conserved(c, s) && s.close == Joining && s.worker.Collecting?
    ensures var t := Follow(c, s, Finish(s.worker, s.queue));
            && t.close == NotClosing && t.worker.Absent? && t.queue == [] && t.unfinished == 0 && t.accepted == s.accepted
            && t.delivered == s.delivered + s.worker.batch + s.queue
  {
    HandsOver(c, s);
    FollowTwo(c, s, Publish(true), Publish(true), Finish(Idle, s.queue));
    FinishEnds(c, Next(c, s, Publish(true)));
  }

  lemma CloseFinishes<T>(c: Config, s: State<T>)
    requires ValidConfig(c) && Conserved(c, s) && s.close == Joining
    ensures var t := Follow(c, s, Finish(s.worker, s.queue));
            && t.close == NotClosing && t.worker.Absent? && t.queue == [] && t.unfinished == 0 && t.accepted == s.accepted
            && t.delivered == s.delivered + (Held(s.worker) + s.queue)
  {
    assert s.delivered + Held(s.worker) + s.queue == s.delivered + (Held(s.worker) + s.queue);
    assert s.delivered + [] == s.delivered;
    if s.worker.Collecting? { BatchFinishes(c, s); } else { FinishEnds(c, s); }
  }

  lemma SplitFirst<T>(events: seq<Event<T>>, rest: seq<Event<T>>)
    requires rest != []
    ensures events + [rest[0]] + rest[1..] == events + rest
  {
  }

  lemma {:induction false} ExecuteFollows<T>(c: Config, events: seq<Event<T>>, s: State<T>, rest: seq<Event<T>>)
    requires s == Execute(c, events)
    ensures Execute(c, events + rest) == Follow(c, s, rest)
    decreases |rest|
  {
    if rest == [] {
      assert events + rest == events;
    } else {
      SplitFirst(events, rest);
      ExecuteAppend(c, events, rest[0]);
      ExecuteFollows(c, events + [rest[0]], Next(c, s, rest[0]), rest[1..]);
    }
  }

  /** A close can always be finished: whatever happened, the worker can hand over all that is left,
      in order, and then the join and the worker end. */
  lemma CloseCanFinish<T>(c: Config, events: seq<Event<T>>)
    requires ValidConfig(c) && Execute(c, events).close == Joining
    ensures var s := Execute(c, events);
            var t := Execute(c, events + Finish(s.worker, s.queue));
            && t.close == NotClosing && t.worker.Absent? && t.queue == [] && t.unfinished == 0 && t.accepted == s.accepted
            && t.delivered == s.delivered + (Held(s.worker) + s.queue)
  {
    var s := Execute(c, events);
    AlwaysConserved(c, events);
    CloseFinishes(c, s);
    ExecuteFollows(c, events, s, Finish(s.worker, s.queue));
  }

  /** The object itself. */
  class BufferedPredictionEventPublisher<T(==)> {
    const config: Config
    var accepting: bool
    var queue: seq<T>
    var unfinished: nat
    var worker: Worker<T>
    var close: Close
    ghost var accepted: seq<T>
    ghost var batches: seq<seq<T>>
    ghost var delivered: seq<T>

    ghost function View(): State<T>
      reads this
    {
      State(accepting, queue, unfinished, worker, close, accepted, batches, delivered)
    }

    ghost predicate Valid()
      reads this
    {
      ValidConfig(config) && Conserved(config, View())
    }

    constructor (c: Config)
      requires ValidConfig(c)
      ensures Valid() && config == c && View() == Created()
    {
      config := c;
      accepting, queue, unfinished, worker, close := false, [], 0, Absent, NotClosing;
      accepted, batches, delivered := [], [], [];
    }

    method Start()
      requires Valid() && worker.Absent?
      modifies this
      ensures Valid() && View() == Next(config, old(View()), Event.Start)
    {
      accepting, worker := true, Idle;
    }

    method SubmitNowait(x: T) returns (ok: bool)
      requires Valid()
      modifies this
      ensures Valid() && View() == Next(config, old(View()), Submit(x))
      ensures ok == (accepted == old(accepted) + [x]) == (old(accepting) && |old(queue)| < config.queueMax)
    {
      SubmitConserves(config, View(), x);
      if !accepting || |queue| >= config.queueMax {
        return false;
      }
      queue, unfinished, accepted := queue + [x], unfinished + 1, accepted + [x];
      return true;
    }

    method TakeFirst()
      requires Valid() && worker.Idle? && close != Cancelling && queue != []
      modifies this`worker, this`queue
      ensures Valid() && View() == Next(config, old(View()), Event.TakeFirst)
    {
      TakeConserves(config, View());
      worker, queue := Collecting([queue[0]]), queue[1..];
    }

    method TakeMore()
      requires Valid() && worker.Collecting? && |worker.batch| < config.batchMax && close != Cancelling && queue != []
      modifies this`worker, this`queue
      ensures Valid() && View() == Next(config, old(View()), Event.TakeMore)
    {
      TakeConserves(config, View());
      worker, queue := Collecting(worker.batch + [queue[0]]), queue[1..];
      assert View() == Next(config, old(View()), Event.TakeMore);
    }

    /** The sink call and the `finally` of the worker loop, with one `task_done` an event. */
    method Publish(works: bool)
      requires Valid() && worker.Collecting? && close != Cancelling
      modifies this`worker, this`unfinished, this`batches, this`delivered
      ensures Valid() && View() == Next(config, old(View()), Event.Publish(works))
    {
      PublishConserves(config, View(), works);
      var batch := worker.batch;
      var n := 0;
      while n < |batch|
        invariant 0 <= n <= |batch| && unfinished == old(unfinished) - n
        invariant View() == old(View()).(unfinished := unfinished)
      {
        unfinished := unfinished - 1;
        n := n + 1;
      }
      worker, batches := Idle, batches + [batch];
      delivered := if works then delivered + batch else delivered;
    }

    /** The parts of `close` around its two awaits. */
    method BeginClose()
      requires Valid() && close == NotClosing
      modifies this`accepting, this`close
      ensures Valid() && View() == Next(config, old(View()), CloseBegin)
    {
      accepting := false;
      if !worker.Absent? {
        close := Joining;
      }
    }

    method EndClose()
      requires Valid() && close == Joining && unfinished == 0
      modifies this`worker, this`close
      ensures Valid() && View() == Next(config, Next(config, old(View()), Joined), WorkerEnds)
      ensures accepted == old(accepted) == Flatten(batches)
    {
      assert Flatten(batches) + ([] + []) == Flatten(batches);
      worker, close := Absent, NotClosing;
    }
  }
}
