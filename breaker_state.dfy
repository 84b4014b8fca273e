/** The three state variants of a circuit breaker (Closed, Open, HalfOpen)
    and what each does on the events it is told about: a call is about to
    start, the call completed, the call threw, the Open state's timer fired.
    Every handler acts on the owning breaker only through its failure
    counter and by replacing its state, so the rules are stated here on a
    Snapshot of those two; the class in module CircuitBreaker performs them
    in place and is proved against these functions. */
module BreakerState {

  /** A C# `int`. */
  newtype Int32 = x: int | -0x8000_0000 <= x < 0x8000_0000

  const MinInt32: Int32 := -0x8000_0000
  const MaxInt32: Int32 := 0x7FFF_FFFF

  /** `Failures++` in C#'s default unchecked context: the result is the one
      32-bit value congruent to n + 1 modulo 2^32. */
  function Increment(n: Int32): (r: Int32)
    ensures (r as int - n as int - 1) % 0x1_0000_0000 == 0
    ensures n < MaxInt32 ==> r as int == n as int + 1
    ensures n == MaxInt32 ==> r == MinInt32
  {
    if n == MaxInt32 then MinInt32 else n + 1
  }

  /** The breaker's fixed configuration; the timeout in whole milliseconds. */
  datatype Config = Config(threshold: Int32, timeoutMs: int)

  /** The interval check of the timer that every new Open state creates
      (`System.Timers.Timer(double)`): the interval must be positive and,
      rounded up, fit in an `int`. Otherwise the timer's constructor throws
      ArgumentException. */
  predicate TimerAccepts(intervalMs: int) {
    0 < intervalMs <= MaxInt32 as int
  }

  datatype Kind = Closed | Open | HalfOpen

  /** The part of a breaker that transitions change: which state variant is
      current and the `Failures` counter. */
  datatype Snapshot = Snapshot(kind: Kind, failures: Int32)

  /** What a freshly constructed breaker holds. */
  const Fresh: Snapshot := Snapshot(Closed, 0)

  /** The invariant every reachable snapshot keeps when the timeout is one
      the timer accepts: while Closed, the counter lies below the threshold
      (it is reset on entry and the breaker trips as soon as an increment
      reaches the threshold). With any other timeout the breaker cannot
      trip, and nothing bounds the counter. */
  ghost predicate Consistent(s: Snapshot, c: Config) {
    TimerAccepts(c.timeoutMs) && s.kind == Closed ==> 0 <= s.failures < c.threshold
  }

  /** The outcome of a transition that may have to enter Open: the snapshot
      it leaves, and whether the Open state's timer threw ArgumentException
      (in which case the breaker was not moved to Open). */
  datatype Effect = Effect(after: Snapshot, timerThrew: bool)

  // ---------------------------------------------------------------------
  // Entering a state. The constructor of ClosedState resets the counter;
  // the constructor of OpenState creates its timer, which may throw before
  // the breaker's state is replaced.

  function EnterClosed(s: Snapshot): Snapshot {
    Snapshot(Closed, 0)
  }

  function EnterOpen(s: Snapshot, c: Config): Effect {
    if TimerAccepts(c.timeoutMs) then Effect(Snapshot(Open, s.failures), false)
    else Effect(s, true)
  }

  function EnterHalfOpen(s: Snapshot): Snapshot {
    Snapshot(HalfOpen, s.failures)
  }

  // ---------------------------------------------------------------------
  // The handlers. The base class lets a call through, ignores a success and
  // counts a failure; each variant overrides some of these.

  /** ProtectedCodeIsAboutToBeCalled: only Open refuses (it throws
      OpenCircuitException). */
  predicate Admits(k: Kind) {
    k != Open
  }

  /** ActUponException: every variant counts the failure; Closed then trips
      to Open if the threshold is reached, HalfOpen goes back to Open. */
  function OnFailure(s: Snapshot, c: Config): Effect {
    var counted := Snapshot(s.kind, Increment(s.failures));
    match s.kind
    case Closed => if counted.failures >= c.threshold then EnterOpen(counted, c) else Effect(counted, false)
    case Open => Effect(counted, false)
    case HalfOpen => EnterOpen(counted, c)
  }

  /** ProtectedCodeHasBeenCalled: only HalfOpen reacts, by closing. */
  function OnSuccess(s: Snapshot): Snapshot {
    if s.kind == HalfOpen then EnterClosed(s) else s
  }

  /** The Open state's one-shot timer callback: it moves the breaker to
      HalfOpen without looking at which state is current. */
  function OnTimeout(s: Snapshot): Snapshot {
    EnterHalfOpen(s)
  }

  // ---------------------------------------------------------------------
  // A guarded call, with the protected code represented by its outcome.

  datatype Outcome<E> = Completed | Threw(error: E)

  /** What the caller of AttemptCall observes: a normal return, an
      OpenCircuitException, the protected code's own exception, or the
      ArgumentException of a timer that rejected the timeout while the
      failure was being reported. */
  datatype CallResult<E> = Returned | OpenCircuit | Rethrown(error: E) | TimerRejected

  /** The effect of one guarded call: the new snapshot, what the caller
      observes, and whether the protected code was run. */
  datatype Attempted<E> = Attempted(after: Snapshot, result: CallResult<E>, ran: bool)

  /** AttemptCall: ask the current state, run the code, then report either
      the exception or the completion to the current state. */
  function Attempt<E>(s: Snapshot, c: Config, outcome: Outcome<E>): Attempted<E> {
    if !Admits(s.kind) then
      Attempted(s, OpenCircuit, false)
    else
      match outcome
      case Threw(e) =>
        var reported := OnFailure(s, c);
        Attempted(reported.after, if reported.timerThrew then TimerRejected else Rethrown(e), true)
      case Completed => Attempted(OnSuccess(s), Returned, true)
  }

  // ---------------------------------------------------------------------
  // Single-event properties.

  /** The transition table, for a timeout the timer accepts.
      Closed: a success changes nothing; a failure adds exactly one to the
      counter (it cannot wrap there) and trips to Open exactly when the new
      count reaches the threshold.
      Open: a call is refused with OpenCircuit, the code does not run and
      nothing changes.
      HalfOpen: the probe's failure is counted and reopens the breaker; its
      success closes the breaker and resets the counter.
      Any state: the timer moves the breaker to HalfOpen keeping the
      counter. */
  lemma TransitionTable<E>(s: Snapshot, c: Config, outcome: Outcome<E>)
    requires TimerAccepts(c.timeoutMs) && Consistent(s, c)
    ensures s.kind == Closed ==>
              OnSuccess(s) == s
              && !OnFailure(s, c).timerThrew
              && OnFailure(s, c).after.failures as int == s.failures as int + 1
              && OnFailure(s, c).after.kind
                 == if s.failures as int + 1 >= c.threshold as int then Open else Closed
    ensures s.kind == Open ==> Attempt(s, c, outcome) == Attempted(s, OpenCircuit, false)
    ensures s.kind == HalfOpen ==>
              OnFailure(s, c) == Effect(Snapshot(Open, Increment(s.failures)), false)
              && OnSuccess(s) == Snapshot(Closed, 0)
    ensures OnTimeout(s) == Snapshot(HalfOpen, s.failures)
  {
  }

  /** A call that is let through and throws is reported to the state exactly
      once (one increment); its exception reaches the caller unchanged unless
      the report had to enter Open and the timer rejected the timeout. */
  lemma ThrownErrorIsCountedOnceAndRethrown<E>(s: Snapshot, c: Config, e: E)
    requires s.kind != Open
    ensures Attempt(s, c, Threw(e)).ran
    ensures Attempt(s, c, Threw(e)).after.failures == Increment(s.failures)
    ensures TimerAccepts(c.timeoutMs) ==> Attempt(s, c, Threw(e)).result == Rethrown(e)
  {
  }

  /** With a timeout the timer rejects, the failure that should trip a
      Closed breaker (or reopen a HalfOpen one) surfaces as the timer's
      ArgumentException instead of the protected code's exception; the
      failure is still counted and the state is not replaced. */
  lemma RejectedTimerSwallowsError<E>(s: Snapshot, c: Config, e: E)
    requires !TimerAccepts(c.timeoutMs)
    requires s.kind == HalfOpen || (s.kind == Closed && Increment(s.failures) >= c.threshold)
    ensures Attempt(s, c, Threw(e)) == Attempted(Snapshot(s.kind, Increment(s.failures)), TimerRejected, true)
  {
  }

  /** Every guarded call keeps the invariant. */
  lemma AttemptKeepsConsistent<E>(s: Snapshot, c: Config, outcome: Outcome<E>)
    requires 1 <= c.threshold && Consistent(s, c)
    ensures Consistent(Attempt(s, c, outcome).after, c)
  {
  }
}
