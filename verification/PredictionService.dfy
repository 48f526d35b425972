/** `PredictionService`: a primary batcher whose answer is the caller's, and an optional shadow
    batcher that gets a copy of every request. */
module PredictionService {
  import opened Common
  import opened BatcherBoard
  import opened BatcherProtocol
  import opened BatcherInvariants
  import opened PredictionBatcherObject

  class Service {
    const primary: PredictionBatcher
    const shadow: PredictionBatcher?

    ghost predicate Valid()
      reads this, primary, shadow
    {
      primary.Valid() && (shadow != null ==> shadow != primary && shadow.Valid())
    }

    constructor (p: PredictionBatcher, s: PredictionBatcher?)
      requires p.Valid() && (s != null ==> s != p && s.Valid())
      ensures Valid() && primary == p && shadow == s
    {
      primary, shadow := p, s;
    }

    /** `predict` up to the wait for the answer. The copy goes first and may be refused; the
        primary sees the request as if there were no shadow. */
    method Predict(features: Features, prediction: string, copy: string) returns (called: bool)
      requires Valid()
      modifies primary, shadow
      ensures Valid()
      ensures primary.View() == Invoked(old(primary.View()), [(features, Some(prediction))])
      ensures called == old(primary.running)
      ensures shadow != null ==> shadow.View() == Submitted(old(shadow.View()), features, Some(copy)).0
    {
      if shadow != null {
        var _ := shadow.SubmitNowait(features, Some(copy));
      }
      called := primary.running;
      primary.Invoke([(features, Some(prediction))]);
    }

    /** `predict_debug_many`: unlogged rows, to the primary only. */
    method PredictDebugMany(inputs: seq<Features>) returns (called: bool)
      requires Valid()
      modifies primary
      ensures Valid()
      ensures primary.View() == Invoked(old(primary.View()), Unlogged(inputs))
      ensures called == old(primary.running)
    {
      called := primary.running;
      primary.Invoke(Unlogged(inputs));
    }
  }

  function Unlogged(inputs: seq<Features>): seq<Input> {
    seq(|inputs|, k requires 0 <= k < |inputs| => (inputs[k], None))
  }
}
