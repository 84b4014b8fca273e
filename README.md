# Circuit breaker state machine

A circuit breaker guards calls to an unreliable operation. It starts
Closed and lets calls through, counting the failures. When the count reaches
the threshold it trips to Open. In Open it refuses every call with an
OpenCircuitException, until a one-shot timer moves it to HalfOpen. In
HalfOpen the next call is a probe. If the probe succeeds, the breaker closes
and the counter is reset. If it fails, the failure is counted and the breaker
opens again. `Close()` and `Open()` force a state by hand.

The project has three modules:

- `BreakerState` (`breaker_state.dfy`) models the three state variants of
  `CircuitBreakerState.cs`. Each handler is a function on a `Snapshot`: the
  current variant plus the `Failures` counter. The counter is a C# `int`, so
  `Failures++` wraps from `int.MaxValue` to `int.MinValue`. The model writes
  that wrap out in `Increment`.
- `CircuitBreaker` (`breaker.dfy`) models the guard object of
  `CircuitBreaker.cs` as the class `Breaker`:
  - `threshold` and `timeoutMs` are `const` fields.
  - `failures` and `state` are fields that the methods overwrite in place.
  - The state variants reach the breaker through a back-reference in the
    source. Here their handlers are methods of the breaker that dispatch on
    `state`. Each is proved to perform the rule that `BreakerState` states
    for it.
  - The protected `Action` is represented by its outcome: it completes, or it
    throws an error value of any type `E`. `AttemptCall` returns what the
    caller observes (`Returned`, `OpenCircuit`, `Rethrown(e)` or
    `TimerRejected`) and whether the code was run.
- `Scenarios` (`scenarios.dfy`) applies sequences of events to a snapshot.
  The events are a completing call, a throwing call, the timer firing, and
  the two overrides. It proves, for every threshold, the counting and
  recovery scenarios that the repository's tests check for threshold 10.

The model follows the code in four places where an idealised breaker would
differ:

- The timer callback moves the breaker to HalfOpen unconditionally. It does
  not check that the Open state that started the timer is still current.
  `TimeoutHasBeenReached` therefore goes to HalfOpen from any state.
- The counter is reset only on entering Closed. Each failed probe adds one,
  so after enough failed probes the 32-bit counter wraps to a negative value
  (`Scenarios.ProbeFailureCanWrap`). With a timeout the timer accepts, a
  Closed breaker never wraps: there the counter stays below the threshold.
- The constructor accepts any timeout of at least 1 ms. But every new Open
  state creates a `System.Timers.Timer`, whose constructor throws
  ArgumentException when the interval exceeds `int.MaxValue` ms. It throws
  before the state is replaced. With such a timeout:
  - the failure that should trip the breaker is counted, the breaker stays
    Closed, and the caller gets the ArgumentException instead of its own
    error (`BreakerState.RejectedTimerSwallowsError`);
  - later failures keep counting while Closed (`Scenarios.RejectedTimerNeverOpens`);
  - `Open()` throws and leaves the breaker as it was.

  The model carries this as `TimerAccepts`, the `TimerRejected` call result
  and the `timerThrew` outputs of `MoveToOpenState`, `ActUponException` and
  `Open`.
- The timeout check is `TotalMilliseconds < 1`. A positive timeout under one
  millisecond is rejected too. The model counts the timeout in whole
  milliseconds and rejects values below 1.

## Model

| member | source | states |
|---|---|---|
| BreakerState.Increment | CircuitBreaker/CircuitBreaker.cs:61-64 | `Failures++` yields the one 32-bit value congruent to the old count plus one modulo 2^32: one more, or `MinInt32` after `MaxInt32` |
| CircuitBreaker.CheckArguments | CircuitBreaker/CircuitBreaker.cs:12-20 | the arguments are accepted exactly when threshold >= 1 and timeout >= 1 ms; a bad threshold is reported before a bad timeout, each as ArgumentOutOfRange naming its parameter |
| CircuitBreaker.Breaker.Create | CircuitBreaker/CircuitBreaker.cs:10-25 | construction fails exactly when the arguments are rejected, with that error; otherwise it gives a fresh valid breaker that is Closed with Failures 0 and holds the given threshold and timeout |
| CircuitBreaker.Breaker.constructor | CircuitBreaker/CircuitBreaker.cs:22-24 | after validation: Threshold and Timeout equal the arguments (and, as `const` fields, never change); the breaker is Closed with Failures 0 |
| CircuitBreaker.Breaker.IsClosed | CircuitBreaker/CircuitBreaker.cs:31-34 | the breaker is Closed exactly when it is neither Open nor HalfOpen |
| CircuitBreaker.Breaker.IsOpen | CircuitBreaker/CircuitBreaker.cs:36-39 | an Open breaker is not HalfOpen |
| CircuitBreaker.Breaker.ExactlyOneState | CircuitBreaker/CircuitBreaker.cs:31-44 | exactly one of IsClosed, IsOpen and IsHalfOpen holds at any time |
| CircuitBreaker.Breaker.ThresholdReached | CircuitBreaker/CircuitBreaker.cs:71-74 | true exactly when Failures >= Threshold, and never true of a valid Closed breaker whose timeout the timer accepts |
| CircuitBreaker.Breaker.MoveToClosedState | CircuitBreaker/CircuitBreaker.cs:46-49 | the state becomes Closed and, through ClosedState's constructor, Failures becomes 0 |
| CircuitBreaker.Breaker.MoveToOpenState | CircuitBreaker/CircuitBreaker.cs:51-54 | the state becomes Open with Failures kept, unless the new Open state's timer rejects the timeout: then it reports the ArgumentException and nothing changes |
| CircuitBreaker.Breaker.MoveToHalfOpenState | CircuitBreaker/CircuitBreaker.cs:56-59 | the state becomes HalfOpen; Failures is kept |
| CircuitBreaker.Breaker.IncreaseFailureCount | CircuitBreaker/CircuitBreaker.cs:61-64 | Failures becomes its 32-bit increment; the state is kept |
| CircuitBreaker.Breaker.ResetFailureCount | CircuitBreaker/CircuitBreaker.cs:66-69 | Failures becomes 0; the state is kept |
| CircuitBreaker.Breaker.ProtectedCodeIsAboutToBeCalled | CircuitBreaker/CircuitBreakerState.cs:51-55 | the pre-call hook refuses the call (OpenCircuitException) exactly when the breaker is Open, and changes nothing |
| CircuitBreaker.Breaker.ActUponException | CircuitBreaker/CircuitBreakerState.cs:17-66 | the new state and count, and whether the timer threw, are the current variant's failure rule applied to the old ones: count once, then Closed trips at the threshold and HalfOpen reopens |
| CircuitBreaker.Breaker.ProtectedCodeHasBeenCalled | CircuitBreaker/CircuitBreakerState.cs:68-72 | the new state and count are the success rule applied to the old ones: HalfOpen closes, other states are untouched |
| CircuitBreaker.Breaker.TimeoutHasBeenReached | CircuitBreaker/CircuitBreakerState.cs:46-49 | the breaker becomes HalfOpen with Failures unchanged, whichever state was current, and stays valid |
| CircuitBreaker.Breaker.AttemptCall | CircuitBreaker/CircuitBreaker.cs:76-100 | the new state, the caller's result and whether the code ran are those of the guarded-call rule; when Open: OpenCircuit, the code does not run, nothing changes; a thrown error is rethrown unchanged, unless the timer rejected the timeout while the breaker was entering Open; validity is kept |
| CircuitBreaker.Breaker.Close | CircuitBreaker/CircuitBreaker.cs:102-108 | from any state: Closed with Failures 0 |
| CircuitBreaker.Breaker.Open | CircuitBreaker/CircuitBreaker.cs:110-116 | from any state: Open with Failures unchanged; it throws, leaving the breaker as it was, exactly when the timer rejects the timeout |
| BreakerState.TransitionTable | CircuitBreaker/CircuitBreakerState.cs:15-72 | for a timeout the timer accepts: Closed plus success changes nothing, Closed plus failure adds exactly one and is Open exactly when the new count reaches the threshold; a call while Open is refused with OpenCircuit, does not run and changes nothing; HalfOpen plus failure is Open with the count incremented, HalfOpen plus success is Closed with 0; the timer gives HalfOpen with the same count from every state |
| BreakerState.ThrownErrorIsCountedOnceAndRethrown | CircuitBreaker/CircuitBreaker.cs:83-94 | when a call is let through and throws, the code ran, the count is incremented exactly once, and, when the timer accepts the timeout, the caller gets the same error back |
| BreakerState.RejectedTimerSwallowsError | CircuitBreaker/CircuitBreakerState.cs:38-44 | with a timeout the timer rejects, a failure that should open the breaker is counted, leaves the state as it was, and surfaces as the timer's ArgumentException instead of the caller's error |
| BreakerState.AttemptKeepsConsistent | CircuitBreaker/CircuitBreakerState.cs:22-31 | every guarded call keeps the invariant that, for a timeout the timer accepts, a Closed breaker has 0 <= Failures < Threshold |
| Scenarios.RunKeepsConsistent | CircuitBreaker/CircuitBreakerState.cs:22-31 | any sequence of calls, timer firings and overrides keeps the invariant that, for a timeout the timer accepts, a Closed breaker has 0 <= Failures < Threshold |
| Scenarios.OpenRefusesEveryCall | CircuitBreaker/CircuitBreakerState.cs:51-55 | any sequence of calls against an Open breaker, completing or throwing, leaves state and count unchanged |
| Scenarios.FailuresAccumulate | CircuitBreaker/CircuitBreakerState.cs:27-31 | from Closed with k failures, n failing calls give Closed with k + n while that is below the threshold, and otherwise Open with exactly threshold failures |
| Scenarios.FailingCallsFromFresh | CircuitBreaker.Tests/CircuitBreakerTests.cs:92-100 | on a fresh breaker, N < threshold failing calls give Closed with Failures N; threshold or more give Open with Failures equal to the threshold |
| Scenarios.OpensWhenThresholdIsReached | CircuitBreaker.Tests/CircuitBreakerTests.cs:92-118 | threshold 10: ten failing calls open the breaker with Failures 10, and the eleventh call is refused with OpenCircuit without running |
| Scenarios.HalfOpenAfterTimeout | CircuitBreaker.Tests/CircuitBreakerTests.cs:120-129 | for every threshold: trip a fresh breaker, let the timer fire, and it is HalfOpen |
| Scenarios.ClosesIfProbeSucceeds | CircuitBreaker.Tests/CircuitBreakerTests.cs:154-164 | for every threshold: trip, timer, a succeeding call, and the breaker is Closed with Failures 0 |
| Scenarios.OpensIfProbeFails | CircuitBreaker.Tests/CircuitBreakerTests.cs:131-141 | for every threshold: trip, timer, a failing call, and the breaker is Open again with one more failure counted |
| Scenarios.ProbeFailureCanWrap | CircuitBreaker/CircuitBreaker.cs:27 | with threshold `int.MaxValue`, one failed probe after tripping leaves Failures at `int.MinValue`: the counter can become negative |
| Scenarios.RejectedTimerNeverOpens | CircuitBreaker/CircuitBreakerState.cs:27-31 | with a timeout the timer rejects, failing calls never open the breaker: from Closed with k failures, n more leave it Closed with k + n, until the counter would wrap |

## Left out

- The lock (`CircuitBreaker/TimedLock.cs`) and all concurrency. The model is sequential, so each `using (TimedLock.Lock(monitor))` block is one atomic step. `LockTimeoutException` is never raised. Interleavings of concurrent calls, and a call still running while another changes the state, are not modelled.
- Real time. The `System.Timers.Timer` that each new Open state starts is replaced by an explicit timer event with no clock. The event is allowed in every state, because the callback has no guard. The model does not track which timers are pending.
- `TimeSpan`: the timeout is a whole number of milliseconds. Sub-millisecond precision and the `double` arithmetic of `TotalMilliseconds` are not modelled. The timeout is used only for the timer's interval check, never for timing.
- The protected `Action` is opaque caller code and is modelled only by its outcome. Its side effects are not modelled.
- `CircuitBreaker/OpenCircuitException.cs` becomes the `OpenCircuit` result. Its message text is not modelled.
- The base class's failure and success handlers on the Open state are modelled: a failure is counted, a success does nothing. A call never reaches them unless the protected code itself changes the breaker (for instance calls `Open()` and then throws). Such reentrant calls are not modelled: an outcome stands for the protected code.
