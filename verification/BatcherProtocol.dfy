/** `PredictionBatcher` as a protocol: callers, one worker task, a bounded queue and a close,
    interleaved step by step. Each step is a stretch of code between two awaits; time is
    left out, so every timeout may fire at any moment its wait is pending. */
module BatcherProtocol {
  import opened Common
  import opened Sequences
  import opened BatcherBoard

  datatype Config = Config(maxBatch: nat, queueMax: nat)

  /** The checks of the constructor. */
  predicate ValidConfig(c: Config) {
    c.maxBatch >= 1 && c.queueMax >= 1
  }

  /** A row to predict, with the event context of logged traffic. */
  type Input = (Features, Option<string>)

  /** Where the worker task waits: on the first item, on a further item, or on the runtime. */
  datatype Worker =
    | NotStarted | Idle | Stopped
    | Collecting(batch: seq<nat>)
    | Calling(batch: seq<nat>, active: seq<nat>)

  /** A caller in `_enqueue_and_wait`, with requests `first .. first + count`. */
  datatype Caller =
    | Putting(first: nat, count: nat, entered: nat)
    | Awaiting(first: nat, count: nat)
    | Returned(results: seq<Prediction>)
    | Raised(error: Error)

  /** Items the worker or a close has taken out of the queue, in one go. */
  datatype Group = Batch(items: seq<nat>) | Drained(items: seq<nat>)

  /** Besides the fields of the object: what its callers asked for (`calls`), the items in the
      order they entered the queue, the groups they left it in, and the rows sent out. */
  datatype State = State(
    config: Config,
    running: bool,
    cancelRequested: bool,
    closing: bool,
    queue: seq<nat>,
    unfinished: nat,
    worker: Worker,
    callers: seq<Caller>,
    calls: seq<seq<Input>>,
    board: Board,
    entered: seq<nat>,
    taken: seq<Group>,
    sent: seq<nat>)

  datatype Reply = Answer(model: Model) | Fault(code: int)

  datatype Event =
    | Start
    | SubmitNowait(features: Features, context: Option<string>)
    | Invoke(inputs: seq<Input>)
    | Put(caller: nat)
    | PutTimeout(caller: nat)
    | ResponseTimeout(caller: nat)
    | Resume(caller: nat, failed: nat)
    | TakeFirst
    | TakeMore
    | Dispatch
    | Receive(reply: Reply)
    | CloseBegin
    | WorkerCancelled
    | CloseDrain

  function Created(c: Config): State {
    State(c, false, false, false, [], 0, NotStarted, [], [], Board([], [], []), [], [], [])
  }

  function Current(w: Worker): seq<nat> {
    match w
    case Collecting(batch) => batch
    case Calling(batch, _) => batch
    case _ => []
  }

  function Ids(first: nat, count: nat): (r: seq<nat>)
    ensures |r| == count && forall k | 0 <= k < count :: r[k] == first + k
  {
    seq(count, k requires 0 <= k < count => first + k)
  }

  function Full(s: State): bool {
    |s.queue| >= s.config.queueMax
  }

  /** Queue put: the item enters and counts as unfinished. */
  function Enqueue(s: State, i: nat): State {
    s.(queue := s.queue + [i], unfinished := s.unfinished + 1, entered := s.entered + [i])
  }

  function RegisterAll(b: Board, inputs: seq<Input>, owner: nat): Board
    decreases |inputs|
  {
    if inputs == [] then b
    else RegisterAll(Register(b, Pending(inputs[0].0, inputs[0].1, Some(owner))), inputs[1..], owner)
  }

  /** `submit_nowait`; the answer is whether the item was accepted. */
  function Submitted(s: State, f: Features, context: Option<string>): (State, bool) {
    if !s.running then (s, false)
    else
      var i := |s.board.pendings|;
      var s1 := s.(board := Register(s.board, Pending(f, context, None)));
      if Full(s) then (s1.(board := Settle(s1.board, i, Cancelled)), false) else (Enqueue(s1, i), true)
  }

  /** `invoke` and `invoke_many` up to the first put. */
  function Invoked(s: State, inputs: seq<Input>): State {
    if !s.running then s
    else
      s.(board := RegisterAll(s.board, inputs, |s.callers|),
         callers := s.callers + [Entering(|s.board.pendings|, |inputs|, 0)],
         calls := s.calls + [inputs])
  }

  /** The caller waits on its futures once everything has been put. */
  function Entering(first: nat, count: nat, entered: nat): Caller {
    if entered >= count then Awaiting(first, count) else Putting(first, count, entered)
  }

  function Raise(s: State, c: nat, ids: seq<nat>, o: Outcome, e: Error): State
    requires c < |s.callers|
  {
    s.(board := SettleAll(s.board, ids, o), callers := s.callers[c := Raised(e)])
  }

  function AllAnswered(b: Board, ids: seq<nat>): bool {
    forall k | 0 <= k < |ids| :: ids[k] < |b.outcomes| && b.outcomes[ids[k]].Answered?
  }

  function Results(b: Board, ids: seq<nat>): seq<Prediction>
    requires AllAnswered(b, ids)
  {
    seq(|ids|, k requires 0 <= k < |ids| => b.outcomes[ids[k]].prediction)
  }

  /** The requests of a batch that are still waiting when it is flushed. */
  function ActiveOf(b: Board, ids: seq<nat>): seq<nat> {
    if ids == [] then []
    else if Open(b, ids[0]) then [ids[0]] + ActiveOf(b, ids[1..])
    else ActiveOf(b, ids[1..])
  }

  /** The `finally` of the worker loop: `task_done` for every item of the batch. */
  function FinishBatch(s: State, next: Worker): State {
    var batch := Current(s.worker);
    s.(worker := next, taken := if batch == [] then s.taken else s.taken + [Batch(batch)],
       unfinished := if s.unfinished >= |batch| then s.unfinished - |batch| else 0)
  }

  function Dispatched(s: State): State {
    if !s.worker.Collecting? then s
    else
      var batch := s.worker.batch;
      var active := ActiveOf(s.board, batch);
      if active == [] then FinishBatch(s, Idle)
      else s.(worker := Calling(batch, active), sent := s.sent + active)
  }

  function Received(s: State, r: Reply): State {
    if !s.worker.Calling? || !Known(s.board, s.worker.active) then s
    else
      var active := s.worker.active;
      var board :=
        match r
        case Answer(model) => DeliverAll(s.board, active, Answers(model, Rows(s.board, active)))
        case Fault(code) => SettleAll(s.board, active, Failed(RuntimeError(code)));
      FinishBatch(s.(board := board), Idle)
  }

  predicate Working(w: Worker) {
    w.Idle? || w.Collecting? || w.Calling?
  }

  function Cancel(s: State): State {
    var batch := Current(s.worker);
    FinishBatch(s.(board := SettleAll(s.board, batch, Failed(BatcherStopped))), Stopped)
  }

  function Drain(s: State): State {
    s.(board := SettleAll(s.board, s.queue, Failed(BatcherClosed)),
       taken := s.taken + [Drained(s.queue)], queue := [],
       unfinished := if s.unfinished >= |s.queue| then s.unfinished - |s.queue| else 0)
  }

  function PutOne(s: State, c: nat): State {
    if c < |s.callers| && s.callers[c].Putting? && !Full(s) then
      var p := s.callers[c];
      Enqueue(s, p.first + p.entered).(callers := s.callers[c := Entering(p.first, p.count, p.entered + 1)])
    else s
  }

  function PutTimedOut(s: State, c: nat): State {
    if c < |s.callers| && s.callers[c].Putting?
    then Raise(s, c, Ids(s.callers[c].first, s.callers[c].count), Failed(QueueFull), QueueFull) else s
  }

  function ResponseOverdue(s: State, c: nat): State {
    if c < |s.callers| && s.callers[c].Awaiting?
       && ActiveOf(s.board, Ids(s.callers[c].first, s.callers[c].count)) != []
    then Raise(s, c, Ids(s.callers[c].first, s.callers[c].count), Cancelled, ResponseTimedOut) else s
  }

  /** `gather` returns when all futures are answered, or raises the error of one that failed. */
  function Resumed(s: State, c: nat, k: nat): State {
    if c < |s.callers| && s.callers[c].Awaiting? then
      var ids := Ids(s.callers[c].first, s.callers[c].count);
      if AllAnswered(s.board, ids) then s.(callers := s.callers[c := Returned(Results(s.board, ids))])
      else if k < |ids| && ids[k] < |s.board.outcomes| && s.board.outcomes[ids[k]].Failed?
      then s.(callers := s.callers[c := Raised(s.board.outcomes[ids[k]].error)])
      else s
    else s
  }

  function TookFirst(s: State): State {
    if s.worker.Idle? && !s.cancelRequested && s.queue != []
    then s.(worker := Collecting([s.queue[0]]), queue := s.queue[1..]) else s
  }

  function TookMore(s: State): State {
    if s.worker.Collecting? && !s.cancelRequested && |s.worker.batch| < s.config.maxBatch && s.queue != []
    then s.(worker := Collecting(s.worker.batch + [s.queue[0]]), queue := s.queue[1..]) else s
  }

  /** One atomic step; a step that is not possible changes nothing. */
  function Next(s: State, e: Event): State {
    match e
    case Start => if s.worker.NotStarted? then s.(worker := Idle, running := true) else s
    case SubmitNowait(f, context) => Submitted(s, f, context).0
    case Invoke(inputs) => Invoked(s, inputs)
    case Put(c) => PutOne(s, c)
    case PutTimeout(c) => PutTimedOut(s, c)
    case ResponseTimeout(c) => ResponseOverdue(s, c)
    case Resume(c, k) => Resumed(s, c, k)
    case TakeFirst => TookFirst(s)
    case TakeMore => TookMore(s)
    case Dispatch => if s.cancelRequested then s else Dispatched(s)
    case Receive(r) => if s.cancelRequested then s else Received(s, r)
    case CloseBegin => s.(running := false, closing := true, cancelRequested := s.cancelRequested || Working(s.worker))
    case WorkerCancelled => if s.cancelRequested && Working(s.worker) then Cancel(s) else s
    case CloseDrain => if s.closing && !Working(s.worker) then Drain(s) else s
  }

  /** The state after a run, from the constructor on. */
  function Execute(c: Config, events: seq<Event>): State
    decreases |events|
  {
    if events == [] then Created(c) else Next(Execute(c, events[..|events| - 1]), events[|events| - 1])
  }
}
