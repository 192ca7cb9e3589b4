/**
  Retry in patroni/utils.py: it calls a function until one call ends otherwise than in a retryable exception, up to a
  number of retries or a deadline. Floating point is modelled by real numbers.
 */
module Retry {
  import opened Wrappers

  /** How a call ends; a retryable exception may say how long to sleep. */
  datatype Outcome<T> = Returns(value: T) | Raises(error: string) | Retryable(sleeptime: Option<real>)

  datatype Answer<T> = Value(value: T) | Error(error: string) | TooManyAttempts | DeadlineExceeded

  /** What the k-th call does and how long it takes, and the jitter that is drawn after it. */
  datatype World<!T> = World(start: real, outcome: nat -> Outcome<T>, duration: nat -> real, jitter: nat -> real)

  /** The parameters; fewer than no tries mean no limit. */
  datatype Policy = Policy(maxTries: int, delay: real, backoff: real, maxDelay: real, deadline: Option<real>) {
    /** The base delay after k retries. */
    function DelayAfter(k: nat): real {
      if k == 0 then delay else Min(DelayAfter(k - 1) * backoff, maxDelay)
    }
  }

  function Min(a: real, b: real): real { if a <= b then a else b }

  // ---------------------------------------------------------------- the course of a call

  function SleepAfter<T>(p: Policy, w: World<T>, k: nat): real {
    var o := w.outcome(k);
    if o.Retryable? && o.sleeptime.Some? && o.sleeptime.value != 0.0 then o.sleeptime.value
    else p.DelayAfter(k) + w.jitter(k)
  }

  /** The time at which the k-th call begins. */
  function BeginOf<T>(p: Policy, w: World<T>, k: nat): real
    decreases k, 0
  {
    if k == 0 then w.start else EndOf(p, w, k - 1) + SleepAfter(p, w, k - 1)
  }

  function EndOf<T>(p: Policy, w: World<T>, k: nat): real
    decreases k, 1
  {
    BeginOf(p, w, k) + w.duration(k)
  }

  /** After the k-th call there is no time for the sleep. */
  predicate Late<T>(p: Policy, w: World<T>, k: nat) {
    p.deadline.Some? && EndOf(p, w, k) + SleepAfter(p, w, k) >= w.start + p.deadline.value
  }

  predicate Last<T>(p: Policy, w: World<T>, k: nat) {
    !w.outcome(k).Retryable? || k == p.maxTries || Late(p, w, k)
  }

  /** The k-th call is the first that ends the matter. */
  predicate EndsAt<T>(p: Policy, w: World<T>, k: nat) {
    Last(p, w, k) && forall j: nat :: j < k ==> !Last(p, w, j)
  }

  function AnswerAt<T>(p: Policy, w: World<T>, k: nat): Answer<T> {
    match w.outcome(k)
    case Returns(v) => Value(v)
    case Raises(e) => Error(e)
    case Retryable(_) => if k == p.maxTries then TooManyAttempts else DeadlineExceeded
  }

  /** The sleep after the k-th call ends before the deadline, if there is one. */
  predicate HasTime<T>(p: Policy, w: World<T>, k: nat) {
    p.deadline.Some? ==> EndOf(p, w, k) + SleepAfter(p, w, k) < w.start + p.deadline.value
  }

  /** The k-th call is followed by another. */
  predicate GoesOn<T>(p: Policy, w: World<T>, k: nat) {
    w.outcome(k).Retryable? && k != p.maxTries && HasTime(p, w, k)
  }

  class Retry {
    const policy: Policy
    var attempts: int
    var curDelay: real
    var curStoptime: Option<real>

    constructor (policy: Policy)
      ensures this.policy == policy
    {
      this.policy := policy;
      attempts, curDelay, curStoptime := 0, policy.delay, None;
    }

    method Reset()
      modifies this
      ensures attempts == 0 && curDelay == policy.delay && curStoptime == None
    {
      attempts, curDelay, curStoptime := 0, policy.delay, None;
    }

    method UpdateDelay()
      modifies this
      ensures curDelay == Min(old(curDelay) * policy.backoff, policy.maxDelay)
      ensures attempts == old(attempts) && curStoptime == old(curStoptime)
    {
      curDelay := Min(curDelay * policy.backoff, policy.maxDelay);
    }

    ghost function Stoptime<T>(w: World<T>): Option<real> {
      if policy.deadline.Some? then Some(w.start + policy.deadline.value) else None
    }

    /** What follows a retryable exception: the end, or a sleep until `next`. */
    method AfterFailure<T>(w: World<T>, k: nat, clock: real) returns (stop: Option<Answer<T>>, next: real)
      requires w.outcome(k).Retryable? && clock == EndOf(policy, w, k)
      requires attempts == k && curDelay == policy.DelayAfter(k) && curStoptime == Stoptime(w)
      modifies this
      ensures stop.Some? ==> Last(policy, w, k) && stop.value == AnswerAt(policy, w, k)
      ensures stop.None? ==> !Last(policy, w, k) && GoesOn(policy, w, k) && next == BeginOf(policy, w, k + 1)
      ensures stop.Some? ==> !GoesOn(policy, w, k)
      ensures stop.None? ==>
        attempts == k + 1 && curDelay == policy.DelayAfter(k + 1) && curStoptime == old(curStoptime)
    {
      if attempts == policy.maxTries {
        return Some(TooManyAttempts), clock;
      }
      attempts := attempts + 1;
      var hint := w.outcome(k).sleeptime;
      var sleeptime := if hint.Some? && hint.value != 0.0 then hint.value else curDelay + w.jitter(k);
      if curStoptime.Some? && clock + sleeptime >= curStoptime.value {
        return Some(DeadlineExceeded), clock;
      }
      UpdateDelay();
      return None, clock + sleeptime;
    }

    /** __call__, whatever an earlier call left behind; `bound` is any call that would end the matter. */
    method Call<T>(w: World<T>, ghost bound: nat) returns (answer: Answer<T>, calls: nat)
      requires Last(policy, w, bound)
      modifies this
      ensures calls > 0 && EndsAt(policy, w, calls - 1) && answer == AnswerAt(policy, w, calls - 1)
      ensures forall j: nat :: j < calls - 1 ==> GoesOn(policy, w, j)
      ensures
        match w.outcome(calls - 1)
        case Returns(v) => answer == Value(v)
        case Raises(e) => answer == Error(e)
        case Retryable(_) =>
          if calls - 1 == policy.maxTries then answer == TooManyAttempts
          else answer == DeadlineExceeded && !HasTime(policy, w, calls - 1)
    {
      Reset();
      var clock := w.start;
      calls := 0;
      while true
        invariant calls <= bound && attempts == calls && curDelay == policy.DelayAfter(calls)
        invariant clock == BeginOf(policy, w, calls)
        invariant curStoptime == if calls > 0 then Stoptime(w) else None
        invariant forall j: nat :: j < calls ==> !Last(policy, w, j)
        invariant forall j: nat :: j < calls ==> GoesOn(policy, w, j)
        decreases bound - calls
      {
        var k := calls;
        if policy.deadline.Some? && curStoptime.None? {
          curStoptime := Some(clock + policy.deadline.value);
        }
        clock := clock + w.duration(k);
        calls := k + 1;
        match w.outcome(k) {
          case Returns(v) => return Value(v), calls;
          case Raises(e) => return Error(e), calls;
          case Retryable(_) =>
            var stop;
            stop, clock := AfterFailure(w, k, clock);
            if stop.Some? {
              return stop.value, calls;
            }
        }
      }
    }
  }

  // ---------------------------------------------------------------- bounds

  /** There are at most maxTries retries, and that many only if all but the last call are retryable. */
  lemma RetriesBounded<T>(p: Policy, w: World<T>, k: nat)
    requires EndsAt(p, w, k) && p.maxTries >= 0
    ensures k <= p.maxTries
    ensures AnswerAt(p, w, k) == TooManyAttempts ==> forall j: nat :: j <= p.maxTries ==> w.outcome(j).Retryable?
  {
    var limit: nat := p.maxTries;
    assert Last(p, w, limit);
    if w.outcome(k).Retryable? && k == p.maxTries {
      forall j: nat | j <= p.maxTries
        ensures w.outcome(j).Retryable?
      {
        assert j < k ==> !Last(p, w, j);
      }
    }
  }

  /** x times b to the power of k. */
  function Scaled(x: real, b: real, k: nat): real { if k == 0 then x else Scaled(x, b, k - 1) * b }

  lemma {:induction false} ScaledGrows(x: real, b: real, k: nat)
    requires x >= 0.0 && b >= 1.0
    ensures 0.0 <= Scaled(x, b, k) <= Scaled(x, b, k + 1)
  {
    if k > 0 {
      ScaledGrows(x, b, k - 1);
    }
    Grows(Scaled(x, b, k), b);
  }

  /** The base delay after k retries is what it grew to, or the cap. */
  predicate GrownTo(p: Policy, k: nat, delay: real, scaled: real) {
    delay == if k == 0 then scaled else Min(scaled, p.maxDelay)
  }

  /** The base delays grow by the factor from the first to the greatest. */
  lemma {:induction false} DelaysGrow(p: Policy, k: nat)
    requires p.delay >= 0.0 && p.backoff >= 1.0 && p.maxDelay >= 0.0
    ensures GrownTo(p, k, p.DelayAfter(k), Scaled(p.delay, p.backoff, k))
  {
    if k > 0 {
      DelaysGrow(p, k - 1);
      DelayFollows(p, k - 1, p.DelayAfter(k - 1), Scaled(p.delay, p.backoff, k - 1));
    }
  }

  lemma DelayFollows(p: Policy, k: nat, d: real, x: real)
    requires p.delay >= 0.0 && p.backoff >= 1.0 && p.maxDelay >= 0.0
    requires d == p.DelayAfter(k) && x == Scaled(p.delay, p.backoff, k) && GrownTo(p, k, d, x)
    ensures GrownTo(p, k + 1, p.DelayAfter(k + 1), Scaled(p.delay, p.backoff, k + 1))
  {
    ScaledGrows(p.delay, p.backoff, k);
    if d == x {
      DelaySame(p, k);
    } else {
      DelayCapped(p, k);
    }
  }

  lemma DelaySame(p: Policy, k: nat)
    requires p.DelayAfter(k) == Scaled(p.delay, p.backoff, k)
    ensures p.DelayAfter(k + 1) == Min(Scaled(p.delay, p.backoff, k + 1), p.maxDelay)
  {
    var d, x := p.DelayAfter(k), Scaled(p.delay, p.backoff, k);
    assert d * p.backoff == x * p.backoff;
  }

  lemma DelayCapped(p: Policy, k: nat)
    requires p.DelayAfter(k) == p.maxDelay >= 0.0 && p.backoff >= 1.0
    ensures p.DelayAfter(k + 1) == p.maxDelay
  {
    Grows(p.DelayAfter(k), p.backoff);
  }

  lemma Grows(x: real, b: real)
    requires x >= 0.0 && b >= 1.0
    ensures x <= x * b
  {
    assert x * (b - 1.0) >= 0.0;
  }

  function SleptBefore<T>(p: Policy, w: World<T>, k: nat): real {
    if k == 0 then 0.0 else SleptBefore(p, w, k - 1) + SleepAfter(p, w, k - 1)
  }

  ghost predicate TimeRuns<T>(w: World<T>) { forall k: nat :: w.duration(k) >= 0.0 }

  lemma {:induction false} SleepTakesTime<T>(p: Policy, w: World<T>, k: nat)
    requires TimeRuns(w)
    ensures w.start + SleptBefore(p, w, k) <= BeginOf(p, w, k)
  {
    if k > 0 {
      SleepTakesTime(p, w, k - 1);
    }
  }

  /** Every retry begins before the deadline, and the sleeps together are shorter than it. */
  lemma RetriesBeforeDeadline<T>(p: Policy, w: World<T>, k: nat, j: nat)
    requires EndsAt(p, w, k) && p.deadline.Some? && 0 < j <= k
    ensures BeginOf(p, w, j) < w.start + p.deadline.value
    ensures TimeRuns(w) ==> SleptBefore(p, w, j) < p.deadline.value
  {
    assert !Last(p, w, j - 1);
    if TimeRuns(w) {
      SleepTakesTime(p, w, j);
    }
  }

  /** The calls before the k-th have taken so long. */
  function WorkedBefore<T>(w: World<T>, k: nat): real {
    if k == 0 then 0.0 else WorkedBefore(w, k - 1) + w.duration(k - 1)
  }

  /** Time goes by in calls and sleeps, and nowhere else. */
  lemma {:induction false} TimeAddsUp<T>(p: Policy, w: World<T>, k: nat)
    ensures BeginOf(p, w, k) == w.start + WorkedBefore(w, k) + SleptBefore(p, w, k)
    ensures EndOf(p, w, k) == w.start + WorkedBefore(w, k + 1) + SleptBefore(p, w, k)
  {
    if k > 0 {
      TimeAddsUp(p, w, k - 1);
    }
  }

  /** A sleep is as long as the exception says, if it says so, and else the base delay and the jitter. */
  lemma SleepExactly<T>(p: Policy, w: World<T>, k: nat)
    requires w.outcome(k).Retryable?
    ensures
      match w.outcome(k).sleeptime
      case Some(hint) => SleepAfter(p, w, k) == if hint != 0.0 then hint else p.DelayAfter(k) + w.jitter(k)
      case None => SleepAfter(p, w, k) == p.DelayAfter(k) + w.jitter(k)
  {
  }

  ghost predicate SleepsAtLeast<T>(p: Policy, w: World<T>, least: real) {
    forall k: nat :: SleepAfter(p, w, k) >= least
  }

  lemma {:induction false} SleepsAddUp<T>(p: Policy, w: World<T>, least: real, k: nat)
    requires SleepsAtLeast(p, w, least)
    ensures SleptBefore(p, w, k) >= k as real * least
  {
    if k > 0 {
      SleepsAddUp(p, w, least, k - 1);
      assert k as real * least == (k - 1) as real * least + least;
    }
  }

  lemma Larger(a: real, b: real, factor: real)
    requires a <= b && factor >= 0.0
    ensures a * factor <= b * factor
  {
    assert (b - a) * factor >= 0.0;
  }

  lemma Exceeds(d: real, least: real) returns (k: nat)
    requires least > 0.0
    ensures k as real * least >= d
  {
    var q := d / least;
    k := if q <= 0.0 then 0 else q.Floor + 1;
    Larger(q, k as real, least);
  }

  /** With a deadline the call comes to an end, whatever fails and however many tries are allowed. */
  lemma DeadlineEnds<T>(p: Policy, w: World<T>, least: real) returns (k: nat)
    requires p.deadline.Some? && TimeRuns(w) && least > 0.0 && SleepsAtLeast(p, w, least)
    ensures Last(p, w, k)
  {
    k := Exceeds(p.deadline.value, least);
    SleepsAddUp(p, w, least, k);
    SleepTakesTime(p, w, k);
    assert w.duration(k) >= 0.0 && SleepAfter(p, w, k) >= least;
  }

  /** Without hints the sleeps are never shorter than the first or the greatest delay. */
  lemma {:induction false} DelaysAtLeast(p: Policy, k: nat)
    requires p.delay >= 0.0 && p.backoff >= 1.0 && p.maxDelay >= 0.0
    ensures p.DelayAfter(k) >= Min(p.delay, p.maxDelay)
  {
    if k > 0 {
      DelaysAtLeast(p, k - 1);
      assert p.DelayAfter(k - 1) >= 0.0;
      Grows(p.DelayAfter(k - 1), p.backoff);
    }
  }

  /** So with a deadline and no hints, positive delays that do not shrink bring the call to an end. */
  lemma PolicyEnds<T>(p: Policy, w: World<T>) returns (k: nat)
    requires p.deadline.Some? && p.delay > 0.0 && p.backoff >= 1.0 && p.maxDelay > 0.0 && TimeRuns(w)
    requires forall j: nat :: w.jitter(j) >= 0.0 && (w.outcome(j).Retryable? ==> w.outcome(j).sleeptime.None?)
    ensures Last(p, w, k)
  {
    var least := Min(p.delay, p.maxDelay);
    forall j: nat
      ensures SleepAfter(p, w, j) >= least
    {
      DelaysAtLeast(p, j);
      assert w.jitter(j) >= 0.0;
    }
    k := DeadlineEnds(p, w, least);
  }
}
