/** The requests of a prediction batcher and what became of each, and the machine the
    batcher stands for: one runtime call per request. */
module BatcherBoard {
  import opened Common
  import opened Sequences

  type Features = seq<Option<real>>

  /** A row of a runtime answer. `numeric` says that its numbers can be converted. */
  datatype Prediction = Prediction(modelRunId: Option<string>, threshold: Option<real>, numeric: bool, failProbability: real)

  /** `normalize_prediction` does not raise. */
  predicate Normalizable(p: Prediction) {
    p.modelRunId.Some? && p.modelRunId.value != "" && p.threshold.Some? && p.numeric
  }

  /** A runtime that answers row by row. */
  type Model = Features -> Prediction

  datatype Error = QueueFull | BatcherClosed | BatcherStopped | InvalidPrediction | RuntimeError(code: int) | ResponseTimedOut

  /** A one-shot future. */
  datatype Outcome = Waiting | Answered(prediction: Prediction) | Failed(error: Error) | Cancelled

  /** A request; `context` is present for traffic that is logged, `owner` names the caller
      that waits for it, if any. */
  datatype Pending = Pending(features: Features, context: Option<string>, owner: Option<nat>)

  datatype Board = Board(pendings: seq<Pending>, outcomes: seq<Outcome>, events: seq<(nat, Prediction)>)

  predicate Open(b: Board, i: nat) {
    i < |b.outcomes| && b.outcomes[i] == Waiting
  }

  predicate Done(b: Board, i: nat) {
    i < |b.outcomes| && b.outcomes[i] != Waiting
  }

  function Register(b: Board, p: Pending): Board {
    b.(pendings := b.pendings + [p], outcomes := b.outcomes + [Waiting])
  }

  /** Completing a future that is still open; the code asks `done()` first. */
  function Settle(b: Board, i: nat, o: Outcome): Board {
    if Open(b, i) then b.(outcomes := b.outcomes[i := o]) else b
  }

  function SettleAll(b: Board, ids: seq<nat>, o: Outcome): Board
    decreases |ids|
  {
    if ids == [] then b else SettleAll(Settle(b, ids[0], o), ids[1..], o)
  }

  /** One row of an answer: checked, published when it is logged traffic, then handed over. */
  function Deliver(b: Board, i: nat, p: Prediction): Board {
    if !Open(b, i) then b
    else if !Normalizable(p) then Settle(b, i, Failed(InvalidPrediction))
    else
      var published := if i < |b.pendings| && b.pendings[i].context.Some? then b.events + [(i, p)] else b.events;
      Settle(b, i, Answered(p)).(events := published)
  }

  /** A whole answer, row by row. */
  function DeliverAll(b: Board, ids: seq<nat>, predictions: seq<Prediction>): Board
    requires |predictions| == |ids|
    decreases |ids|
  {
    if ids == [] then b else DeliverAll(Deliver(b, ids[0], predictions[0]), ids[1..], predictions[1..])
  }

  predicate Known(b: Board, ids: seq<nat>) {
    |b.pendings| == |b.outcomes| && forall k | 0 <= k < |ids| :: ids[k] < |b.pendings|
  }

  function Rows(b: Board, ids: seq<nat>): seq<Features>
    requires Known(b, ids)
  {
    seq(|ids|, k requires 0 <= k < |ids| => b.pendings[ids[k]].features)
  }

  function Answers(model: Model, rows: seq<Features>): (ps: seq<Prediction>)
    ensures |ps| == |rows|
  {
    seq(|rows|, k requires 0 <= k < |rows| => model(rows[k]))
  }

  // ------------------------------------------ one runtime call per request

  /** The steps of the machine without batches: every completion is of an open request. */
  datatype Single =
    | Submit(pending: Pending)
    | Serve(request: nat, model: Model)
    | End(request: nat, outcome: Outcome)

  predicate Enabled(b: Board, x: Single) {
    match x
    case Submit(_) => true
    case Serve(i, _) => Open(b, i) && i < |b.pendings|
    case End(i, o) => Open(b, i) && (o.Failed? || o.Cancelled?)
  }

  function SingleStep(b: Board, x: Single): Board
    requires Enabled(b, x)
  {
    match x
    case Submit(p) => Register(b, p)
    case Serve(i, model) => Deliver(b, i, model(b.pendings[i].features))
    case End(i, o) => Settle(b, i, o)
  }

  /** Runs `xs`; None when a step is not enabled. */
  function SingleRun(b: Board, xs: seq<Single>): Option<Board>
    decreases |xs|
  {
    if xs == [] then Some(b)
    else if !Enabled(b, xs[0]) then None
    else SingleRun(SingleStep(b, xs[0]), xs[1..])
  }

  lemma {:induction false} SingleRunAppend(b: Board, xs: seq<Single>, ys: seq<Single>)
    requires SingleRun(b, xs).Some?
    ensures SingleRun(b, xs + ys) == SingleRun(SingleRun(b, xs).value, ys)
    decreases |xs|
  {
    if xs == [] {
      assert xs + ys == ys;
    } else {
      assert (xs + ys)[0] == xs[0] && (xs + ys)[1..] == xs[1..] + ys;
      SingleRunAppend(SingleStep(b, xs[0]), xs[1..], ys);
    }
  }

  /** Requests that are complete are left alone by every later step; rows never change. */
  predicate Extends(b: Board, b': Board) {
    && |b.pendings| == |b.outcomes| && |b'.pendings| == |b'.outcomes|
    && |b.pendings| <= |b'.pendings| && b'.pendings[..|b.pendings|] == b.pendings
    && forall i | 0 <= i < |b.outcomes| && b.outcomes[i] != Waiting :: b'.outcomes[i] == b.outcomes[i]
  }

  /** The logged requests that were answered are exactly the published events, once each. */
  ghost predicate Published(b: Board) {
    && |b.pendings| == |b.outcomes|
    && (forall k | 0 <= k < |b.events| ::
          && b.events[k].0 < |b.pendings| && b.pendings[b.events[k].0].context.Some?
          && b.outcomes[b.events[k].0] == Answered(b.events[k].1))
    && (forall k, l | 0 <= k < l < |b.events| :: b.events[k].0 != b.events[l].0)
    && (forall i | 0 <= i < |b.pendings| && b.pendings[i].context.Some? && b.outcomes[i].Answered? ::
          (i, b.outcomes[i].prediction) in b.events)
  }

  lemma SingleStepKeeps(b: Board, x: Single)
    requires Published(b) && Enabled(b, x)
    ensures Published(SingleStep(b, x)) && Extends(b, SingleStep(b, x))
  {
    var b' := SingleStep(b, x);
    if x.Serve? && Normalizable(x.model(b.pendings[x.request].features)) {
      ServeKeepsPublished(b, x.request, x.model(b.pendings[x.request].features));
    }
  }

  lemma ServeKeepsPublished(b: Board, i: nat, p: Prediction)
    requires Published(b) && Open(b, i) && Normalizable(p)
    ensures Published(Deliver(b, i, p))
  {
    var b' := Deliver(b, i, p);
    forall j | 0 <= j < |b'.pendings| && b'.pendings[j].context.Some? && b'.outcomes[j].Answered?
      ensures (j, b'.outcomes[j].prediction) in b'.events
    {
      if j == i {
        assert b'.events[|b.events|] == (i, p);
      } else {
        assert (j, b.outcomes[j].prediction) in b.events;
      }
    }
  }

  lemma {:induction false} SingleRunKeeps(b: Board, xs: seq<Single>)
    requires Published(b) && SingleRun(b, xs).Some?
    ensures Published(SingleRun(b, xs).value) && Extends(b, SingleRun(b, xs).value)
    decreases |xs|
  {
    if xs != [] {
      var b1 := SingleStep(b, xs[0]);
      SingleStepKeeps(b, xs[0]);
      SingleRunKeeps(b1, xs[1..]);
      var b2 := SingleRun(b, xs).value;
      assert b2.pendings[..|b.pendings|] == b2.pendings[..|b1.pendings|][..|b.pendings|] == b.pendings;
    }
  }

  /** An answer comes from a call made for that request alone, on its own features. */
  lemma {:induction false} AnswerIsOwn(b: Board, xs: seq<Single>, i: nat)
    requires Published(b) && SingleRun(b, xs).Some?
    requires var b' := SingleRun(b, xs).value; i < |b'.outcomes| && b'.outcomes[i].Answered? && i < |b'.pendings|
    requires i < |b.outcomes| ==> !b.outcomes[i].Answered?
    ensures var b' := SingleRun(b, xs).value;
            exists k :: 0 <= k < |xs| && xs[k].Serve? && xs[k].request == i
                        && b'.outcomes[i] == Answered(xs[k].model(b'.pendings[i].features))
                        && Normalizable(b'.outcomes[i].prediction)
    decreases |xs|
  {
    var b1 := SingleStep(b, xs[0]);
    SingleStepKeeps(b, xs[0]);
    SingleRunKeeps(b1, xs[1..]);
    var b' := SingleRun(b, xs).value;
    if i < |b1.outcomes| && b1.outcomes[i].Answered? {
      assert xs[0].Serve? && xs[0].request == i;
      assert b'.pendings[i] == b'.pendings[..|b1.pendings|][i] == b.pendings[i];
    } else {
      AnswerIsOwn(b1, xs[1..], i);
      var k :| 0 <= k < |xs[1..]| && xs[1..][k].Serve? && xs[1..][k].request == i
               && b'.outcomes[i] == Answered(xs[1..][k].model(b'.pendings[i].features));
      assert xs[k + 1] == xs[1..][k];
    }
  }
}
