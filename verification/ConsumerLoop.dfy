/** The poll loop of a consumer that handles one record after the other, and what it reaches
    when handling a record passes it exactly when the log is good so far. */
module ConsumerLoop {

  /** At most `count` records, as long as the consumer is ready for one. */
  function Loop<S>(handle: S -> S, ready: S -> bool, s: S, count: nat): S
    decreases count
  {
    if count == 0 || !ready(s) then s else Loop(handle, ready, handle(s), count - 1)
  }

  lemma LoopStep<S>(handle: S -> S, ready: S -> bool, s: S, t: S, count: nat)
    requires count > 0 && ready(s) && handle(s) == t
    ensures Loop(handle, ready, s, count) == Loop(handle, ready, t, count - 1)
  {
  }

  lemma LoopEnds<S>(handle: S -> S, ready: S -> bool, s: S, count: nat)
    requires count == 0 || !ready(s)
    ensures Loop(handle, ready, s, count) == s
  {
  }

  /** The consumer is ready for a record as long as there is one. */
  predicate Waits<S>(ready: S -> bool, committed: S -> nat, end: nat, s: S) {
    ready(s) <==> committed(s) < end
  }

  /** Handling a record passes it when the prefix up to it is good, and ends the consumer
      otherwise. */
  ghost predicate Handles<S(!new)>(
      handle: S -> S, ready: S -> bool, committed: S -> nat, end: nat, inv: S -> bool, good: nat -> bool)
  {
    && (forall k | 0 < k && good(k) :: good(k - 1))
    && (forall s {:trigger handle(s)} | inv(s) && ready(s) ::
          if good(committed(s) + 1)
          then inv(handle(s)) && committed(handle(s)) == committed(s) + 1 && Waits(ready, committed, end, handle(s))
          else !ready(handle(s)) && committed(handle(s)) == committed(s))
  }

  lemma {:induction false} GoodIsPrefixClosed(good: nat -> bool, j: nat, k: nat)
    requires (forall i | 0 < i && good(i) :: good(i - 1)) && j <= k && good(k)
    ensures good(j)
    decreases k - j
  {
    if j < k { GoodIsPrefixClosed(good, j, k - 1); }
  }

  /** The loop gets past the first `n` records exactly when they are good. */
  lemma {:induction false} LoopReachesGoodPrefix<S(!new)>(
      handle: S -> S, ready: S -> bool, committed: S -> nat, end: nat, inv: S -> bool, good: nat -> bool, s: S, n: nat)
    requires Handles(handle, ready, committed, end, inv, good)
    requires inv(s) && Waits(ready, committed, end, s) && committed(s) <= n <= end && good(committed(s))
    ensures committed(Loop(handle, ready, s, n - committed(s))) >= n <==> good(n)
    decreases n - committed(s)
  {
    if committed(s) < n {
      var t := handle(s);
      if good(committed(s) + 1) {
        LoopReachesGoodPrefix(handle, ready, committed, end, inv, good, t, n);
      } else {
        assert Loop(handle, ready, t, n - committed(s) - 1) == t;
        if good(n) { GoodIsPrefixClosed(good, committed(s) + 1, n); }
      }
    }
  }
}
