/** Retrying an operation within one deadline (operator/src/agent_operator/retry.py). Seconds are
    real numbers and the clock is a parameter. */
module Retry {
  import opened Wrappers

  /** How one call of the operation ends; `Raised` is any exception that is no TaskExecutionError. */
  datatype Outcome = Output(result: string) | Error(reason: string, retryable: bool) | Raised

  datatype Ending =
    | Returned(result: string, attempts: nat)
    | Exhausted(reason: string, retryable: bool, attempts: nat)
    | MaxAttemptsInvalid
    | TimeoutInvalid
    | NegativeSleep
    | Propagated
    | LoopExited

  /** A call of the operation: when it starts and the seconds it is given. */
  datatype Call = Call(at: real, budget: real)

  datatype Trace = Trace(ending: Ending, calls: seq<Call>, sleeps: seq<real>)

  /** The world of one execution: the first reading of the clock, the time that passes up to each
      further reading on top of what was slept, and the outcome of each call. */
  datatype World = World(start: real, passes: nat -> real, outcome: nat -> Outcome)

  ghost predicate Monotone(w: World) {
    forall k: nat :: w.passes(k) >= 0.0
  }

  const RATE_LIMIT_BACKOFF := 5.0

  const DEFAULT_MAX_ATTEMPTS := 3
  const DEFAULT_INITIAL_BACKOFF := 1.0

  function Max(a: real, b: real): real {
    if a >= b then a else b
  }

  function Pow2(n: nat): (r: nat)
    ensures r >= 1
  {
    if n == 0 then 1 else 2 * Pow2(n - 1)
  }

  /** A delay that doubled n times; `DoubledIsPower` says that this is `base * 2 ** n`. */
  function Doubled(base: real, n: nat): (r: real)
    ensures (r < 0.0 <==> base < 0.0) && (r > 0.0 <==> base > 0.0)
  {
    if n == 0 then base else 2.0 * Doubled(base, n - 1)
  }

  lemma {:induction false} DoubledIsPower(base: real, n: nat)
    ensures Doubled(base, n) == base * Pow2(n) as real
  {
    if n > 0 {
      DoubledIsPower(base, n - 1);
      assert Pow2(n) as real == 2.0 * Pow2(n - 1) as real;
    }
  }

  function Base(reason: string, initial: real): real {
    if reason == "RateLimited" then Max(initial, RATE_LIMIT_BACKOFF) else initial
  }

  /** The delay after a failed attempt; attempts count from 1. */
  function Backoff(reason: string, attempt: nat, initial: real): (r: real)
    requires attempt >= 1
    ensures r < 0.0 ==> initial < 0.0
  {
    Doubled(Base(reason, initial), attempt - 1)
  }

  function Sum(xs: seq<real>): real {
    if xs == [] then 0.0 else Sum(xs[..|xs| - 1]) + xs[|xs| - 1]
  }

  lemma SumAppend(xs: seq<real>, x: real)
    ensures Sum(xs + [x]) == Sum(xs) + x
  {
    assert (xs + [x])[..|xs|] == xs;
  }

  // ---------- What an execution guarantees ----------

  predicate Retryable(o: Outcome) {
    o.Error? && o.retryable
  }

  /** The reading of the clock before the call with index i, which waits for the delay after the
      call before it. */
  function StartOf(w: World, calls: seq<Call>, sleeps: seq<real>, i: nat): real
    requires i <= |calls| && i <= |sleeps|
  {
    if i == 0 then w.start + w.passes(0)
    else calls[i - 1].at + w.passes(2 * i - 1) + sleeps[i - 1] + w.passes(2 * i)
  }

  /** The call starts before the deadline and gets all the time that is left. */
  predicate Timely(w: World, timeout: real, calls: seq<Call>, sleeps: seq<real>, i: nat)
    requires |calls| <= |sleeps| + 1
  {
    i < |calls| ==>
      && calls[i].at == StartOf(w, calls, sleeps, i) < w.start + timeout
      && calls[i].budget == w.start + timeout - calls[i].at
  }

  /** The time left when the call with index i, started at the given time, has failed. */
  function Remaining(w: World, timeout: real, i: nat, at: real): real {
    w.start + timeout - (at + w.passes(2 * i + 1))
  }

  /** The delay is that of the failed call with index i, and fits in before the deadline. */
  predicate IsDelay(w: World, timeout: real, initial: real, i: nat, at: real, delay: real) {
    && Retryable(w.outcome(i)) && delay == Backoff(w.outcome(i).reason, i + 1, initial)
    && 0.0 <= delay < Remaining(w, timeout, i, at)
  }

  predicate Delayed(w: World, timeout: real, initial: real, calls: seq<Call>, sleeps: seq<real>, i: nat)
    requires |sleeps| <= |calls|
  {
    i < |sleeps| ==> IsDelay(w, timeout, initial, i, calls[i].at, sleeps[i])
  }

  /** What is done up to some point of the loop. */
  ghost predicate Steps(w: World, timeout: real, initial: real, calls: seq<Call>, sleeps: seq<real>) {
    && |sleeps| <= |calls| <= |sleeps| + 1
    && (forall i: nat {:trigger Timely(w, timeout, calls, sleeps, i)} :: Timely(w, timeout, calls, sleeps, i))
    && (forall i: nat {:trigger Delayed(w, timeout, initial, calls, sleeps, i)} ::
          Delayed(w, timeout, initial, calls, sleeps, i))
  }

  /** The last call failed in a way that does not end the loop by itself. */
  predicate MayRetry(w: World, max: int, t: Trace) {
    var n := |t.calls|;
    1 <= n < max && |t.sleeps| == n - 1 && Retryable(w.outcome(n - 1))
  }

  function NextDelay(w: World, initial: real, t: Trace): real
    requires |t.calls| >= 1 && w.outcome(|t.calls| - 1).Error?
  {
    Backoff(w.outcome(|t.calls| - 1).reason, |t.calls|, initial)
  }

  function LastRemaining(w: World, timeout: real, t: Trace): real
    requires |t.calls| >= 1
  {
    Remaining(w, timeout, |t.calls| - 1, t.calls[|t.calls| - 1].at)
  }

  /** The deadline has passed before the next call, or leaves no room for the next delay. */
  predicate OutOfTime(w: World, timeout: real, max: int, initial: real, t: Trace)
    requires |t.sleeps| <= |t.calls|
  {
    if |t.sleeps| == |t.calls|
    then |t.calls| < max && StartOf(w, t.calls, t.sleeps, |t.calls|) >= w.start + timeout
    else MayRetry(w, max, t) && LastRemaining(w, timeout, t) <= NextDelay(w, initial, t)
  }

  /** The last call decides the ending. */
  predicate EndsWithCall(w: World, max: int, t: Trace) {
    var n := |t.calls|;
    && n >= 1 && |t.sleeps| == n - 1
    && match w.outcome(n - 1)
       case Output(result) => t.ending == Returned(result, n)
       case Raised => t.ending == Propagated
       case Error(reason, retryable) => t.ending == Exhausted(reason, retryable, n) && (!retryable || n == max)
  }

  /** How the execution ends. */
  predicate EndingFits(w: World, timeout: real, max: int, initial: real, t: Trace)
    requires |t.sleeps| <= |t.calls|
  {
    if max < 1 then t == Trace(MaxAttemptsInvalid, [], [])
    else if timeout <= 0.0 then t == Trace(TimeoutInvalid, [], [])
    else
      || EndsWithCall(w, max, t)
      || (OutOfTime(w, timeout, max, initial, t) && t.ending == Exhausted("ExecutionTimeout", false, |t.calls|))
      || (MayRetry(w, max, t) && NextDelay(w, initial, t) < 0.0
          && NextDelay(w, initial, t) < LastRemaining(w, timeout, t)
          && t.ending == NegativeSleep)
  }

  /** The trace of execute_with_retry: what it does, step by step, and how it ends. */
  ghost predicate Describes(w: World, timeout: real, max: int, initial: real, t: Trace) {
    Steps(w, timeout, initial, t.calls, t.sleeps) && (t.calls == [] || |t.calls| <= max)
    && EndingFits(w, timeout, max, initial, t)
  }

  lemma CallStep(w: World, timeout: real, initial: real, calls: seq<Call>, sleeps: seq<real>, at: real)
    requires Steps(w, timeout, initial, calls, sleeps) && |calls| == |sleeps|
    requires at == StartOf(w, calls, sleeps, |calls|) < w.start + timeout
    ensures Steps(w, timeout, initial, calls + [Call(at, w.start + timeout - at)], sleeps)
  {
    var longer := calls + [Call(at, w.start + timeout - at)];
    forall i: nat ensures Timely(w, timeout, longer, sleeps, i) {
      assert Timely(w, timeout, calls, sleeps, i);
      assert i <= |calls| ==> StartOf(w, longer, sleeps, i) == StartOf(w, calls, sleeps, i);
    }
    forall i: nat ensures Delayed(w, timeout, initial, longer, sleeps, i) {
      assert Delayed(w, timeout, initial, calls, sleeps, i);
    }
  }

  lemma DelayStep(w: World, timeout: real, initial: real, calls: seq<Call>, sleeps: seq<real>, delay: real)
    requires Steps(w, timeout, initial, calls, sleeps) && |calls| == |sleeps| + 1
    requires IsDelay(w, timeout, initial, |sleeps|, calls[|sleeps|].at, delay)
    ensures Steps(w, timeout, initial, calls, sleeps + [delay])
  {
    forall i: nat ensures Timely(w, timeout, calls, sleeps + [delay], i) {
      assert Timely(w, timeout, calls, sleeps, i);
      assert i < |calls| ==> StartOf(w, calls, sleeps + [delay], i) == StartOf(w, calls, sleeps, i);
    }
    forall i: nat ensures Delayed(w, timeout, initial, calls, sleeps + [delay], i) {
      assert Delayed(w, timeout, initial, calls, sleeps, i);
    }
  }

  /** The rest of an attempt, once the operation has been called: how the execution ends here, or
      the delay before the next attempt. */
  method Decide(w: World, timeout: real, max: int, initial: real, calls: seq<Call>, sleeps: seq<real>)
    returns (ending: Option<Ending>, delay: real)
    requires 1 <= |calls| <= max && |sleeps| == |calls| - 1 && timeout > 0.0
    ensures ending.Some? ==> EndingFits(w, timeout, max, initial, Trace(ending.value, calls, sleeps))
    ensures ending.None? ==> |calls| < max && IsDelay(w, timeout, initial, |sleeps|, calls[|sleeps|].at, delay)
  {
    var attempt := |calls|;
    var outcome := w.outcome(attempt - 1);
    if outcome.Output? {
      return Some(Returned(outcome.result, attempt)), 0.0;
    }
    if outcome.Raised? {
      return Some(Propagated), 0.0;
    }
    if !outcome.retryable || attempt == max {
      return Some(Exhausted(outcome.reason, outcome.retryable, attempt)), 0.0;
    }
    delay := Backoff(outcome.reason, attempt, initial);
    var now := calls[attempt - 1].at + w.passes(2 * attempt - 1);
    var remaining := w.start + timeout - now;
    if remaining <= delay {
      return Some(Exhausted("ExecutionTimeout", false, attempt)), delay;
    }
    if delay < 0.0 {
      return Some(NegativeSleep), delay;
    }
    return None, delay;
  }

  method ExecuteWithRetry(w: World, timeout: real, max: int, initial: real) returns (t: Trace)
    ensures Describes(w, timeout, max, initial, t)
  {
    if max < 1 {
      return Trace(MaxAttemptsInvalid, [], []);
    }
    if timeout <= 0.0 {
      return Trace(TimeoutInvalid, [], []);
    }
    var now := w.start;
    var deadline := now + timeout;
    var calls: seq<Call>, sleeps: seq<real> := [], [];
    for attempt := 1 to max + 1
      invariant |calls| == |sleeps| == attempt - 1
      invariant now + w.passes(2 * attempt - 2) == StartOf(w, calls, sleeps, attempt - 1)
      invariant Steps(w, timeout, initial, calls, sleeps)
      invariant attempt <= max
    {
      now := now + w.passes(2 * attempt - 2);
      var remaining := deadline - now;
      if remaining <= 0.0 {
        t := Trace(Exhausted("ExecutionTimeout", false, attempt - 1), calls, sleeps);
        assert OutOfTime(w, timeout, max, initial, t);
        return;
      }
      CallStep(w, timeout, initial, calls, sleeps, now);
      calls := calls + [Call(now, remaining)];
      var ending, delay := Decide(w, timeout, max, initial, calls, sleeps);
      if ending.Some? {
        return Trace(ending.value, calls, sleeps);
      }
      DelayStep(w, timeout, initial, calls, sleeps, delay);
      sleeps := sleeps + [delay];
      now := now + w.passes(2 * attempt - 1) + delay;
      assert StartOf(w, calls, sleeps, attempt) == now + w.passes(2 * attempt);
    }
    assert false;
    t := Trace(LoopExited, calls, sleeps);
  }

  // ---------- The specification leaves nothing open ----------

  lemma {:induction false} SameSteps(w: World, timeout: real, initial: real, t: Trace, u: Trace, n: nat)
    requires Steps(w, timeout, initial, t.calls, t.sleeps) && Steps(w, timeout, initial, u.calls, u.sleeps)
    ensures n < |t.calls| && n < |u.calls| ==> t.calls[n] == u.calls[n]
    ensures n < |t.sleeps| && n < |u.sleeps| ==> t.sleeps[n] == u.sleeps[n]
  {
    if n > 0 {
      SameSteps(w, timeout, initial, t, u, n - 1);
    }
    assert Timely(w, timeout, t.calls, t.sleeps, n) && Timely(w, timeout, u.calls, u.sleeps, n);
    assert Delayed(w, timeout, initial, t.calls, t.sleeps, n) && Delayed(w, timeout, initial, u.calls, u.sleeps, n);
  }

  /** One execution cannot stop where the other goes on. */
  lemma NotShorter(w: World, timeout: real, max: int, initial: real, t: Trace, u: Trace)
    requires Describes(w, timeout, max, initial, t) && Describes(w, timeout, max, initial, u)
    ensures |u.calls| <= |t.calls| && (|u.calls| == |t.calls| ==> |u.sleeps| <= |t.sleeps|)
  {
    var n := |t.calls|;
    if n > 0 {
      SameSteps(w, timeout, initial, t, u, n - 1);
    }
    assert Timely(w, timeout, u.calls, u.sleeps, n);
    if n > 0 {
      assert Delayed(w, timeout, initial, u.calls, u.sleeps, n - 1);
    }
  }

  /** There is exactly one trace that fits the description, so the method computes it. */
  lemma OneTrace(w: World, timeout: real, max: int, initial: real, t: Trace, u: Trace)
    requires Describes(w, timeout, max, initial, t) && Describes(w, timeout, max, initial, u)
    ensures t == u
  {
    NotShorter(w, timeout, max, initial, t, u);
    NotShorter(w, timeout, max, initial, u, t);
    forall n | 0 <= n < |t.calls| ensures t.calls[n] == u.calls[n] { SameSteps(w, timeout, initial, t, u, n); }
    forall n | 0 <= n < |t.sleeps| ensures t.sleeps[n] == u.sleeps[n] { SameSteps(w, timeout, initial, t, u, n); }
    assert t.calls == u.calls && t.sleeps == u.sleeps;
  }

  // ---------- Consequences ----------

  /** The delays are exactly the doubled base: after RateLimited at least five seconds, else the
      initial delay, times two for every call before. */
  lemma DelaysAre(w: World, timeout: real, initial: real, calls: seq<Call>, sleeps: seq<real>, i: nat)
    requires Steps(w, timeout, initial, calls, sleeps) && i < |sleeps|
    ensures w.outcome(i).Error? && w.outcome(i).retryable
    ensures sleeps[i]
         == (if w.outcome(i).reason == "RateLimited" then (if initial >= 5.0 then initial else 5.0) else initial)
            * Pow2(i) as real
  {
    assert Delayed(w, timeout, initial, calls, sleeps, i);
    DoubledIsPower(Base(w.outcome(i).reason, initial), i);
  }

  lemma RateLimitedWaits(w: World, timeout: real, initial: real, calls: seq<Call>, sleeps: seq<real>, i: nat)
    requires Steps(w, timeout, initial, calls, sleeps) && i < |sleeps| && w.outcome(i).Error?
    requires w.outcome(i).reason == "RateLimited"
    ensures sleeps[i] >= 5.0 * Pow2(i) as real
  {
    assert Delayed(w, timeout, initial, calls, sleeps, i);
    DoubledIsPower(5.0, i);
    DoubledGrows(5.0, Base("RateLimited", initial), i);
  }

  /** For a clock that never goes back, time passes at least as fast as it is slept. */
  lemma {:induction false} SleptTime(
    w: World, timeout: real, initial: real, calls: seq<Call>, sleeps: seq<real>, n: nat)
    requires Monotone(w) && Steps(w, timeout, initial, calls, sleeps) && n <= |sleeps|
    ensures Sum(sleeps[..n]) >= 0.0
    ensures n < |calls| ==> w.start + Sum(sleeps[..n]) <= calls[n].at
    ensures n > 0 ==> Sum(sleeps[..n]) < timeout
  {
    assert w.passes(0) >= 0.0 && w.passes(2 * n) >= 0.0 && w.passes(2 * n + 1) >= 0.0;
    assert Timely(w, timeout, calls, sleeps, n);
    if n > 0 {
      SleptTime(w, timeout, initial, calls, sleeps, n - 1);
      assert sleeps[..n] == sleeps[..n - 1] + [sleeps[n - 1]];
      SumAppend(sleeps[..n - 1], sleeps[n - 1]);
      assert w.passes(2 * n - 1) >= 0.0;
      assert Delayed(w, timeout, initial, calls, sleeps, n - 1);
    }
  }

  /** The budget: for a clock that never goes back, every call starts before the deadline with a
      budget above zero and at most the timeout, and all delays together are below the timeout. */
  lemma BudgetKept(w: World, timeout: real, max: int, initial: real, t: Trace)
    requires Monotone(w) && Describes(w, timeout, max, initial, t)
    ensures forall i | 0 <= i < |t.calls| ::
              w.start <= t.calls[i].at < w.start + timeout && 0.0 < t.calls[i].budget <= timeout
    ensures t.sleeps != [] ==> Sum(t.sleeps) < timeout
    ensures t.ending.Returned? || t.ending.Exhausted? ==> t.ending.attempts == |t.calls|
    ensures !t.ending.LoopExited? && (t.ending.NegativeSleep? ==> initial < 0.0)
  {
    forall i | 0 <= i < |t.calls|
      ensures w.start <= t.calls[i].at < w.start + timeout && 0.0 < t.calls[i].budget <= timeout
    {
      SleptTime(w, timeout, initial, t.calls, t.sleeps, i);
      assert Timely(w, timeout, t.calls, t.sleeps, i);
    }
    SleptTime(w, timeout, initial, t.calls, t.sleeps, |t.sleeps|);
    assert t.sleeps[..|t.sleeps|] == t.sleeps;
  }

  /** The delays double, so that together they are bounded by a power of two. */
  lemma TotalSleep(w: World, timeout: real, initial: real, calls: seq<Call>, sleeps: seq<real>)
    requires Steps(w, timeout, initial, calls, sleeps)
    ensures Sum(sleeps) <= Max(initial, RATE_LIMIT_BACKOFF) * (Pow2(|sleeps|) - 1) as real
  {
    var base := Max(initial, RATE_LIMIT_BACKOFF);
    assert Sum(sleeps) <= Doubled(base, |sleeps|) - base by {
      forall i | 0 <= i < |sleeps| ensures sleeps[i] <= Doubled(base, i) {
        assert Delayed(w, timeout, initial, calls, sleeps, i);
        DoubledGrows(Base(w.outcome(i).reason, initial), base, i);
      }
      SumBound(sleeps, base);
    }
    PowerBound(base, |sleeps|);
  }

  // ---------- When the deadline passes during a delay ----------

  /** The delay after the call with index i, as its outcome asks for it. */
  function DelayAfter(w: World, initial: real, i: nat): real {
    if w.outcome(i).Error? then Backoff(w.outcome(i).reason, i + 1, initial) else 0.0
  }

  /** When the call with index i would start, if all calls before it failed and were retried. */
  function StartAt(w: World, initial: real, i: nat): real {
    if i == 0 then w.start + w.passes(0)
    else StartAt(w, initial, i - 1) + w.passes(2 * i - 1) + DelayAfter(w, initial, i - 1) + w.passes(2 * i)
  }

  /** The call with index i starts in time, fails, and leaves room for its delay. */
  predicate Retries(w: World, timeout: real, initial: real, i: nat) {
    && StartAt(w, initial, i) < w.start + timeout && Retryable(w.outcome(i))
    && 0.0 <= DelayAfter(w, initial, i) < Remaining(w, timeout, i, StartAt(w, initial, i))
  }

  /** Of this clock and these outcomes: the first n calls are retried, and the deadline passes
      during the delay after them although another attempt is left. */
  ghost predicate Overslept(w: World, timeout: real, max: int, initial: real, n: nat) {
    && timeout > 0.0 && 1 <= n < max
    && (forall i: nat {:trigger Retries(w, timeout, initial, i)} | i < n :: Retries(w, timeout, initial, i))
    && StartAt(w, initial, n) >= w.start + timeout
  }

  lemma {:induction false} StepsFollowWorld(
    w: World, timeout: real, initial: real, calls: seq<Call>, sleeps: seq<real>, i: nat)
    requires Steps(w, timeout, initial, calls, sleeps) && i <= |sleeps|
    ensures StartOf(w, calls, sleeps, i) == StartAt(w, initial, i)
    ensures i < |sleeps| ==> Retries(w, timeout, initial, i) && sleeps[i] == DelayAfter(w, initial, i)
  {
    if i > 0 {
      StepsFollowWorld(w, timeout, initial, calls, sleeps, i - 1);
      assert Timely(w, timeout, calls, sleeps, i - 1) && Delayed(w, timeout, initial, calls, sleeps, i - 1);
    }
    assert Timely(w, timeout, calls, sleeps, i) && Delayed(w, timeout, initial, calls, sleeps, i);
  }

  /** How many calls there are, in terms of the clock and the outcomes: call n is made if and only if
      the arguments are valid, an attempt is left, every call before it is retried, and its start is
      before the deadline. */
  lemma CallIsMadeIff(w: World, timeout: real, max: int, initial: real, t: Trace, n: nat)
    requires Describes(w, timeout, max, initial, t)
    ensures |t.calls| > n <==>
              && timeout > 0.0 && n < max && StartAt(w, initial, n) < w.start + timeout
              && (forall i: nat {:trigger Retries(w, timeout, initial, i)} | i < n :: Retries(w, timeout, initial, i))
  {
    if |t.calls| > n {
      forall i: nat | i < n ensures Retries(w, timeout, initial, i) {
        StepsFollowWorld(w, timeout, initial, t.calls, t.sleeps, i);
      }
      StepsFollowWorld(w, timeout, initial, t.calls, t.sleeps, n);
      assert Timely(w, timeout, t.calls, t.sleeps, n);
    } else if timeout > 0.0 && n < max {
      StopsForAReason(w, timeout, max, initial, t);
      var m := |t.calls|;
      assert Retries(w, timeout, initial, m) ==> StartAt(w, initial, m) < w.start + timeout;
      assert m > 0 && !Retries(w, timeout, initial, m - 1) ==> m - 1 < n;
    }
  }

  /** An execution that makes no further call is out of attempts, out of time, or done with its last. */
  lemma StopsForAReason(w: World, timeout: real, max: int, initial: real, t: Trace)
    requires Describes(w, timeout, max, initial, t) && timeout > 0.0 && max >= 1
    ensures var m := |t.calls|;
            || m >= max
            || StartAt(w, initial, m) >= w.start + timeout
            || (m > 0 && !Retries(w, timeout, initial, m - 1))
  {
    var m := |t.calls|;
    StepsFollowWorld(w, timeout, initial, t.calls, t.sleeps, |t.sleeps|);
    if |t.sleeps| < m {
      assert Timely(w, timeout, t.calls, t.sleeps, m - 1);
    }
  }

  /** Each call starts where the clock and the delays put it, and gets the time left until the deadline. */
  lemma CallsAre(w: World, timeout: real, max: int, initial: real, t: Trace, i: nat)
    requires Describes(w, timeout, max, initial, t) && i < |t.calls|
    ensures t.calls[i].at == StartAt(w, initial, i) && t.calls[i].budget == w.start + timeout - StartAt(w, initial, i)
  {
    StepsFollowWorld(w, timeout, initial, t.calls, t.sleeps, i);
    assert Timely(w, timeout, t.calls, t.sleeps, i);
  }

  /** How an execution ends: with the result or the error of its last call, with the exception of its
      last call, for want of time, or by the check of its arguments; never at the end of the loop. */
  lemma EndingIs(w: World, timeout: real, max: int, initial: real, t: Trace)
    requires Describes(w, timeout, max, initial, t)
    ensures match t.ending
            case Returned(result, attempts) =>
              attempts == |t.calls| >= 1 && w.outcome(|t.calls| - 1) == Output(result)
            case Exhausted(reason, retryable, attempts) =>
              && attempts == |t.calls|
              && (|| (reason == "ExecutionTimeout" && !retryable)
                  || (&& |t.calls| >= 1 && w.outcome(|t.calls| - 1) == Error(reason, retryable)
                      && (!retryable || |t.calls| == max)))
            case Propagated => |t.calls| >= 1 && w.outcome(|t.calls| - 1) == Raised
            case NegativeSleep => |t.calls| >= 1 && Retryable(w.outcome(|t.calls| - 1)) && initial < 0.0
            case MaxAttemptsInvalid => max < 1
            case TimeoutInvalid => max >= 1 && timeout <= 0.0
            case LoopExited => false
  {
  }

  /** The trace of an execution that sleeps past the deadline. */
  function OversleptTrace(w: World, timeout: real, initial: real, n: nat): Trace {
    Trace(Exhausted("ExecutionTimeout", false, n),
          seq(n, (i: nat) => Call(StartAt(w, initial, i), w.start + timeout - StartAt(w, initial, i))),
          seq(n, (i: nat) => DelayAfter(w, initial, i)))
  }

  lemma OversleptDescribed(w: World, timeout: real, max: int, initial: real, n: nat)
    requires Overslept(w, timeout, max, initial, n)
    ensures Describes(w, timeout, max, initial, OversleptTrace(w, timeout, initial, n))
  {
    var u := OversleptTrace(w, timeout, initial, n);
    forall i: nat | i <= n ensures StartOf(w, u.calls, u.sleeps, i) == StartAt(w, initial, i) {}
    forall i: nat ensures Timely(w, timeout, u.calls, u.sleeps, i) {
      assert i < n ==> Retries(w, timeout, initial, i);
    }
    forall i: nat ensures Delayed(w, timeout, initial, u.calls, u.sleeps, i) {
      assert i < n ==> Retries(w, timeout, initial, i);
    }
    assert OutOfTime(w, timeout, max, initial, u);
  }

  /** There are as many delays as calls if and only if the deadline passes during a delay; else
      there is one delay fewer. */
  lemma SleepCount(w: World, timeout: real, max: int, initial: real, t: Trace)
    requires Describes(w, timeout, max, initial, t)
    ensures |t.sleeps| == |t.calls| > 0 <==> exists n: nat :: Overslept(w, timeout, max, initial, n)
    ensures t.calls != [] && !(exists n: nat :: Overslept(w, timeout, max, initial, n)) ==> |t.sleeps| == |t.calls| - 1
  {
    if |t.sleeps| == |t.calls| > 0 {
      var n := |t.calls|;
      forall i: nat | i < n ensures Retries(w, timeout, initial, i) {
        StepsFollowWorld(w, timeout, initial, t.calls, t.sleeps, i);
      }
      StepsFollowWorld(w, timeout, initial, t.calls, t.sleeps, n);
      assert Overslept(w, timeout, max, initial, n);
    }
    forall n: nat | Overslept(w, timeout, max, initial, n) ensures |t.sleeps| == |t.calls| > 0 {
      OversleptDescribed(w, timeout, max, initial, n);
      OneTrace(w, timeout, max, initial, t, OversleptTrace(w, timeout, initial, n));
    }
  }

  /** The delays after the first n calls together. */
  function DelaysBefore(w: World, initial: real, n: nat): real {
    if n == 0 then 0.0 else DelaysBefore(w, initial, n - 1) + DelayAfter(w, initial, n - 1)
  }

  function BoundFor(initial: real, calls: nat): real
    requires calls >= 1
  {
    Max(initial, RATE_LIMIT_BACKOFF) * (Pow2(calls - 1) - 1) as real
  }

  /** Of this clock and these outcomes: the deadline passes during the last of n delays, which
      together are longer than the bound for n calls. */
  ghost predicate OversleptTooLong(w: World, timeout: real, max: int, initial: real, n: nat) {
    Overslept(w, timeout, max, initial, n) && DelaysBefore(w, initial, n) > BoundFor(initial, n)
  }

  lemma {:induction false} SumOfDelays(w: World, initial: real, xs: seq<real>)
    requires forall i | 0 <= i < |xs| :: xs[i] == DelayAfter(w, initial, i)
    ensures Sum(xs) == DelaysBefore(w, initial, |xs|)
  {
    if xs != [] {
      SumOfDelays(w, initial, xs[..|xs| - 1]);
    }
  }

  lemma OversleptSum(w: World, timeout: real, max: int, initial: real, t: Trace, n: nat)
    requires Describes(w, timeout, max, initial, t) && Overslept(w, timeout, max, initial, n)
    ensures |t.calls| == n && Sum(t.sleeps) == DelaysBefore(w, initial, n)
  {
    OversleptDescribed(w, timeout, max, initial, n);
    OneTrace(w, timeout, max, initial, t, OversleptTrace(w, timeout, initial, n));
    SumOfDelays(w, initial, t.sleeps);
  }

  /** The bound by the calls: the total sleep exceeds it if and only if the deadline passes during a
      delay and the delays up to it are too long; so it holds whenever no delay outlasts the deadline. */
  lemma SleepBoundByCalls(w: World, timeout: real, max: int, initial: real, t: Trace)
    requires Describes(w, timeout, max, initial, t) && t.calls != []
    ensures Sum(t.sleeps) > BoundFor(initial, |t.calls|) <==>
              exists n: nat :: OversleptTooLong(w, timeout, max, initial, n)
  {
    SleepCount(w, timeout, max, initial, t);
    if n: nat :| Overslept(w, timeout, max, initial, n) {
      OversleptSum(w, timeout, max, initial, t, n);
      forall m: nat | OversleptTooLong(w, timeout, max, initial, m) ensures m == n {
        OversleptSum(w, timeout, max, initial, t, m);
      }
      assert OversleptTooLong(w, timeout, max, initial, n) <==> Sum(t.sleeps) > BoundFor(initial, |t.calls|);
    } else {
      TotalSleep(w, timeout, initial, t.calls, t.sleeps);
    }
  }

  /** From an initial delay of five seconds on all errors wait equally long, and every delay that
      outlasts the deadline breaks the bound. */
  lemma LongDelaysBreakBound(w: World, timeout: real, max: int, initial: real, t: Trace)
    requires Describes(w, timeout, max, initial, t) && t.calls != [] && initial >= RATE_LIMIT_BACKOFF
    ensures Sum(t.sleeps) > BoundFor(initial, |t.calls|) <==> exists n: nat :: Overslept(w, timeout, max, initial, n)
  {
    SleepCount(w, timeout, max, initial, t);
    TotalSleep(w, timeout, initial, t.calls, t.sleeps);
    if |t.sleeps| == |t.calls| {
      FullSleep(w, timeout, initial, t.calls, t.sleeps);
    }
  }

  lemma FullSleep(w: World, timeout: real, initial: real, calls: seq<Call>, sleeps: seq<real>)
    requires Steps(w, timeout, initial, calls, sleeps) && initial >= RATE_LIMIT_BACKOFF && |sleeps| > 0
    ensures Sum(sleeps) > Max(initial, RATE_LIMIT_BACKOFF) * (Pow2(|sleeps| - 1) - 1) as real
  {
    forall i | 0 <= i < |sleeps| ensures sleeps[i] == Doubled(initial, i) {
      assert Delayed(w, timeout, initial, calls, sleeps, i);
    }
    assert Sum(sleeps) == Doubled(initial, |sleeps|) - initial by { SumOfDoubled(sleeps, initial); }
    assert Doubled(initial, |sleeps|) == 2.0 * Doubled(initial, |sleeps| - 1);
    assert Max(initial, RATE_LIMIT_BACKOFF) == initial;
    PowerBound(initial, |sleeps| - 1);
  }

  lemma {:induction false} SumOfDoubled(xs: seq<real>, base: real)
    requires forall i | 0 <= i < |xs| :: xs[i] == Doubled(base, i)
    ensures Sum(xs) == Doubled(base, |xs|) - base
  {
    if xs != [] {
      SumOfDoubled(xs[..|xs| - 1], base);
    }
  }

  lemma PowerBound(base: real, n: nat)
    ensures Doubled(base, n) - base == base * (Pow2(n) - 1) as real
  {
    DoubledIsPower(base, n);
    assert (Pow2(n) - 1) as real == Pow2(n) as real - 1.0;
    assert base * (Pow2(n) as real - 1.0) == base * Pow2(n) as real - base;
  }

  lemma {:induction false} DoubledGrows(a: real, b: real, n: nat)
    requires a <= b
    ensures Doubled(a, n) <= Doubled(b, n)
  {
    if n > 0 {
      DoubledGrows(a, b, n - 1);
    }
  }

  lemma {:induction false} SumBound(xs: seq<real>, base: real)
    requires forall i | 0 <= i < |xs| :: xs[i] <= Doubled(base, i)
    ensures Sum(xs) <= Doubled(base, |xs|) - base
  {
    if xs != [] {
      SumBound(xs[..|xs| - 1], base);
    }
  }

  /** So the delays are not bounded by the calls less one: one failed call, its delay, and a clock
      that meanwhile passes the deadline. */
  lemma SleepCanEqualCalls(timeout: real, w: World)
    requires timeout > 1.0 && w.start == 0.0 && w.outcome(0) == Error("Unavailable", true)
    requires w.passes(0) == 0.0 && w.passes(1) == 0.0 && w.passes(2) >= timeout
    ensures var t := Trace(Exhausted("ExecutionTimeout", false, 1), [Call(0.0, timeout)], [1.0]);
            && Describes(w, timeout, DEFAULT_MAX_ATTEMPTS, DEFAULT_INITIAL_BACKOFF, t)
            && Sum(t.sleeps) > Max(DEFAULT_INITIAL_BACKOFF, RATE_LIMIT_BACKOFF) * (Pow2(|t.calls| - 1) - 1) as real
  {
    assert [1.0][..0] == [];
    assert Sum([1.0]) == Sum([]) + 1.0;
    assert Pow2(0) == 1;
  }

  /** An operation whose failures are all final is called at most once. */
  lemma FinalFailuresCallOnce(w: World, timeout: real, max: int, initial: real, t: Trace)
    requires Describes(w, timeout, max, initial, t) && forall i: nat :: !Retryable(w.outcome(i))
    ensures |t.calls| <= 1 && t.sleeps == []
    ensures t.ending.Returned? ==> |t.calls| == 1 && w.outcome(0) == Output(t.ending.result)
  {
    assert Delayed(w, timeout, initial, t.calls, t.sleeps, 0);
  }
}
