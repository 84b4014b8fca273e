/** Sequences of events applied to a breaker, and the threshold-counting and
    recovery scenarios that CircuitBreaker.Tests/CircuitBreakerTests.cs
    exercises, proved for every threshold. */
module Scenarios {
  import opened BreakerState

  /** One thing that can happen to a breaker: a guarded call whose protected
      code completes or throws, the Open state's timer firing, or one of the
      two manual overrides. */
  datatype Event = CallCompletes | CallThrows | TimeoutElapses | ForceClose | ForceOpen

  function Step(s: Snapshot, c: Config, e: Event): Snapshot {
    match e
    case CallCompletes => Attempt<()>(s, c, Completed).after
    case CallThrows => Attempt<()>(s, c, Threw(())).after
    case TimeoutElapses => OnTimeout(s)
    case ForceClose => EnterClosed(s)
    case ForceOpen => EnterOpen(s, c).after
  }

  function Run(s: Snapshot, c: Config, events: seq<Event>): Snapshot
    decreases |events|
  {
    if events == [] then s else Run(Step(s, c, events[0]), c, events[1..])
  }

  /** The same event n times over, as the tests' CallXAmountOfTimes does. */
  function Repeat(e: Event, n: nat): (r: seq<Event>)
    ensures |r| == n
    ensures forall i :: 0 <= i < n ==> r[i] == e
  {
    if n == 0 then [] else [e] + Repeat(e, n - 1)
  }

  /** Running two sequences one after the other is running their
      concatenation. */
  lemma {:induction false} RunAppend(s: Snapshot, c: Config, a: seq<Event>, b: seq<Event>)
    ensures Run(s, c, a + b) == Run(Run(s, c, a), c, b)
    decreases |a|
  {
    if a != [] {
      assert (a + b)[0] == a[0];
      assert (a + b)[1..] == a[1..] + b;
      RunAppend(Step(s, c, a[0]), c, a[1..], b);
    } else {
      assert a + b == b;
    }
  }

  /** No event breaks the invariant: with a timeout the timer accepts, a
      Closed breaker's counter stays below the threshold whatever happens. */
  lemma {:induction false} RunKeepsConsistent(s: Snapshot, c: Config, events: seq<Event>)
    requires 1 <= c.threshold && Consistent(s, c)
    ensures Consistent(Run(s, c, events), c)
    decreases |events|
  {
    if events != [] {
      match events[0] {
        case CallCompletes => AttemptKeepsConsistent<()>(s, c, Completed);
        case CallThrows => AttemptKeepsConsistent<()>(s, c, Threw(()));
        case _ =>
      }
      RunKeepsConsistent(Step(s, c, events[0]), c, events[1..]);
    }
  }

  /** A guarded call, whatever its protected code does. */
  predicate IsCall(e: Event) {
    e.CallCompletes? || e.CallThrows?
  }

  /** Once Open, any sequence of calls is refused call by call and changes
      nothing. */
  lemma {:induction false} OpenRefusesEveryCall(f: Int32, c: Config, events: seq<Event>)
    requires forall i :: 0 <= i < |events| ==> IsCall(events[i])
    ensures Run(Snapshot(Open, f), c, events) == Snapshot(Open, f)
    decreases |events|
  {
    if events != [] {
      assert IsCall(events[0]);
      OpenRefusesEveryCall(f, c, events[1..]);
    }
  }

  /** From Closed with k failures, n further failing calls leave the breaker
      Closed with k + n failures while that stays below the threshold, and
      otherwise Open with exactly threshold failures: the call that reaches
      the threshold trips it, and every later call is refused. */
  lemma {:induction false} FailuresAccumulate(k: nat, n: nat, c: Config)
    requires TimerAccepts(c.timeoutMs) && k < c.threshold as int
    decreases n
    ensures Run(Snapshot(Closed, k as Int32), c, Repeat(CallThrows, n))
            == if k + n < c.threshold as int then Snapshot(Closed, (k + n) as Int32)
               else Snapshot(Open, c.threshold)
  {
    if n > 0 {
      var events := Repeat(CallThrows, n);
      assert events[0] == CallThrows;
      assert events[1..] == Repeat(CallThrows, n - 1);
      if k + 1 < c.threshold as int {
        FailuresAccumulate(k + 1, n - 1, c);
      } else {
        OpenRefusesEveryCall(c.threshold, c, Repeat(CallThrows, n - 1));
      }
    }
  }

  /** A fresh breaker: fewer than threshold failing calls keep it Closed and
      count each one; the threshold-th opens it with Failures == threshold. */
  lemma FailingCallsFromFresh(c: Config, n: nat)
    requires 1 <= c.threshold && TimerAccepts(c.timeoutMs)
    ensures n < c.threshold as int ==>
              Run(Fresh, c, Repeat(CallThrows, n)) == Snapshot(Closed, n as Int32)
    ensures n >= c.threshold as int ==>
              Run(Fresh, c, Repeat(CallThrows, n)) == Snapshot(Open, c.threshold)
  {
    FailuresAccumulate(0, n, c);
  }

  /** Threshold 10, timeout five minutes, ten failing calls: the breaker is
      Open with ten failures, and an eleventh call is refused with
      OpenCircuit without running. */
  lemma OpensWhenThresholdIsReached()
    ensures Run(Fresh, Config(10, 300_000), Repeat(CallThrows, 10)) == Snapshot(Open, 10)
    ensures Attempt<()>(Run(Fresh, Config(10, 300_000), Repeat(CallThrows, 10)), Config(10, 300_000), Threw(()))
            == Attempted(Snapshot(Open, 10), OpenCircuit, false)
  {
    FailingCallsFromFresh(Config(10, 300_000), 10);
  }

  /** Trip a fresh breaker, let the timer fire: it is HalfOpen. */
  lemma HalfOpenAfterTimeout(c: Config)
    requires 1 <= c.threshold && TimerAccepts(c.timeoutMs)
    ensures Run(Fresh, c, Repeat(CallThrows, c.threshold as nat) + [TimeoutElapses])
            == Snapshot(HalfOpen, c.threshold)
  {
    FailingCallsFromFresh(c, c.threshold as nat);
    RunAppend(Fresh, c, Repeat(CallThrows, c.threshold as nat), [TimeoutElapses]);
  }

  /** ... and a succeeding probe closes it with the counter reset. */
  lemma ClosesIfProbeSucceeds(c: Config)
    requires 1 <= c.threshold && TimerAccepts(c.timeoutMs)
    ensures Run(Fresh, c, Repeat(CallThrows, c.threshold as nat) + [TimeoutElapses, CallCompletes])
            == Snapshot(Closed, 0)
  {
    FailingCallsFromFresh(c, c.threshold as nat);
    RunAppend(Fresh, c, Repeat(CallThrows, c.threshold as nat), [TimeoutElapses, CallCompletes]);
  }

  /** ... while a failing probe reopens it, counting one more failure. */
  lemma OpensIfProbeFails(c: Config)
    requires 1 <= c.threshold && TimerAccepts(c.timeoutMs)
    ensures Run(Fresh, c, Repeat(CallThrows, c.threshold as nat) + [TimeoutElapses, CallThrows])
            == Snapshot(Open, Increment(c.threshold))
  {
    FailingCallsFromFresh(c, c.threshold as nat);
    RunAppend(Fresh, c, Repeat(CallThrows, c.threshold as nat), [TimeoutElapses, CallThrows]);
  }

  /** The counter is a 32-bit int that is only reset on entering Closed, so
      with the largest threshold a single failed probe wraps it to the
      smallest negative value. */
  lemma ProbeFailureCanWrap()
    ensures Run(Fresh, Config(MaxInt32, 50),
                Repeat(CallThrows, MaxInt32 as nat) + [TimeoutElapses, CallThrows])
            == Snapshot(Open, MinInt32)
  {
    OpensIfProbeFails(Config(MaxInt32, 50));
  }

  /** With a timeout the timer rejects (more than int.MaxValue ms, which the
      constructor accepts), failing calls never open the breaker: from
      Closed with k failures, n more leave it Closed with k + n, as long as
      the counter does not wrap. */
  lemma {:induction false} RejectedTimerNeverOpens(k: nat, n: nat, c: Config)
    requires !TimerAccepts(c.timeoutMs) && k + n <= MaxInt32 as int
    decreases n
    ensures Run(Snapshot(Closed, k as Int32), c, Repeat(CallThrows, n)) == Snapshot(Closed, (k + n) as Int32)
  {
    if n > 0 {
      var events := Repeat(CallThrows, n);
      assert events[0] == CallThrows;
      assert events[1..] == Repeat(CallThrows, n - 1);
      RejectedTimerNeverOpens(k + 1, n - 1, c);
    }
  }
}
