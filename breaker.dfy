/** The guard object (CircuitBreaker/CircuitBreaker.cs): immutable threshold
    and timeout, a mutable failure counter and the current state, replaced on
    every transition. The state variants' handlers act on the breaker through
    a back-reference; here they are methods of the breaker that dispatch on
    the current state, each proved against the rule in module BreakerState. */
module CircuitBreaker {
  import opened BreakerState

  datatype Option<T> = None | Some(value: T)

  datatype Result<T, E> = Success(value: T) | Failure(error: E)

  /** ArgumentOutOfRangeException, with the name of the offending parameter. */
  datatype ArgumentError = ArgumentOutOfRange(paramName: string)

  /** The constructor's argument checks, threshold first. The timeout is
      given in whole milliseconds. */
  function CheckArguments(threshold: Int32, timeoutMs: int): (err: Option<ArgumentError>)
    ensures err == None <==> 1 <= threshold && 1 <= timeoutMs
    ensures threshold < 1 ==> err == Some(ArgumentOutOfRange("threshold"))
    ensures 1 <= threshold && timeoutMs < 1 ==> err == Some(ArgumentOutOfRange("timeout"))
  {
    if threshold < 1 then Some(ArgumentOutOfRange("threshold"))
    else if timeoutMs < 1 then Some(ArgumentOutOfRange("timeout"))
    else None
  }

  class Breaker {
    const threshold: Int32
    const timeoutMs: int
    var failures: Int32
    var state: Kind

    /** The fixed configuration. */
    function Cfg(): Config {
      Config(threshold, timeoutMs)
    }

    /** The breaker's state and counter as one value. */
    function Current(): Snapshot
      reads this
    {
      Snapshot(state, failures)
    }

    ghost predicate Valid()
      reads this
    {
      CheckArguments(threshold, timeoutMs) == None && Consistent(Current(), Cfg())
    }

    /** The constructor: reject a bad threshold or timeout; otherwise store
        both and enter Closed. */
    static method Create(threshold: Int32, timeoutMs: int) returns (r: Result<Breaker, ArgumentError>)
      ensures r.Failure? <==> CheckArguments(threshold, timeoutMs).Some?
      ensures r.Failure? ==> r.error == CheckArguments(threshold, timeoutMs).value
      ensures r.Success? ==> fresh(r.value) && r.value.Valid()
      ensures r.Success? ==> r.value.threshold == threshold && r.value.timeoutMs == timeoutMs
      ensures r.Success? ==> r.value.Current() == Fresh
    {
      var err := CheckArguments(threshold, timeoutMs);
      if err.Some? {
        return Failure(err.value);
      }
      var b := new Breaker(threshold, timeoutMs);
      return Success(b);
    }

    /** The constructor once its arguments are accepted. */
    constructor (threshold: Int32, timeoutMs: int)
      requires CheckArguments(threshold, timeoutMs) == None
      ensures Valid()
      ensures this.threshold == threshold && this.timeoutMs == timeoutMs
      ensures Current() == Fresh
    {
      this.threshold := threshold;
      this.timeoutMs := timeoutMs;
      new;
      MoveToClosedState();
    }

    predicate IsClosed()
      reads this
      ensures IsClosed() <==> !IsOpen() && !IsHalfOpen()
    {
      state == Closed
    }

    predicate IsOpen()
      reads this
      ensures IsOpen() ==> !IsHalfOpen()
    {
      state == Kind.Open
    }

    predicate IsHalfOpen()
      reads this
    {
      state == HalfOpen
    }

    /** Exactly one of the three state predicates holds. */
    lemma ExactlyOneState()
      ensures IsClosed() || IsOpen() || IsHalfOpen()
      ensures !(IsClosed() && IsOpen()) && !(IsClosed() && IsHalfOpen()) && !(IsOpen() && IsHalfOpen())
    {
    }

    /** Failures >= Threshold; never true of a valid Closed breaker whose
        timeout the timer accepts. */
    function ThresholdReached(): (reached: bool)
      reads this
      ensures reached <==> failures >= threshold
      ensures Valid() && IsClosed() && TimerAccepts(timeoutMs) ==> !reached
    {
      failures >= threshold
    }

    method MoveToClosedState()
      modifies this
      ensures Current() == EnterClosed(old(Current()))
    {
      state := Closed;
      ResetFailureCount();
    }

    /** Replace the state by a new Open state, whose constructor starts the
        recovery timer; timerThrew stands for the ArgumentException of a
        timer that rejects the timeout, thrown before the state is replaced. */
    method MoveToOpenState() returns (timerThrew: bool)
      modifies this
      ensures Effect(Current(), timerThrew) == EnterOpen(old(Current()), Cfg())
    {
      timerThrew := !TimerAccepts(timeoutMs);
      if !timerThrew {
        state := Kind.Open;
      }
    }

    method MoveToHalfOpenState()
      modifies this
      ensures Current() == EnterHalfOpen(old(Current()))
    {
      state := HalfOpen;
    }

    method IncreaseFailureCount()
      modifies this
      ensures failures == Increment(old(failures)) && state == old(state)
    {
      failures := Increment(failures);
    }

    method ResetFailureCount()
      modifies this
      ensures failures == 0 && state == old(state)
    {
      failures := 0;
    }

    /** The current state's pre-call hook; false stands for the
        OpenCircuitException thrown by the Open state. */
    method ProtectedCodeIsAboutToBeCalled() returns (admitted: bool)
      ensures admitted <==> !IsOpen()
    {
      admitted := state != Kind.Open;
    }

    /** The current state's ActUponException; timerThrew as for
        MoveToOpenState. */
    method ActUponException() returns (timerThrew: bool)
      modifies this
      ensures Effect(Current(), timerThrew) == OnFailure(old(Current()), Cfg())
    {
      IncreaseFailureCount();
      timerThrew := false;
      match state
      case Closed =>
        if ThresholdReached() {
          timerThrew := MoveToOpenState();
        }
      case Open =>
      case HalfOpen =>
        timerThrew := MoveToOpenState();
    }

    /** The current state's ProtectedCodeHasBeenCalled. */
    method ProtectedCodeHasBeenCalled()
      modifies this
      ensures Current() == OnSuccess(old(Current()))
    {
      if state == HalfOpen {
        MoveToClosedState();
      }
    }

    /** The Open state's timer callback. */
    method TimeoutHasBeenReached()
      requires Valid()
      modifies this
      ensures Valid()
      ensures Current() == OnTimeout(old(Current()))
    {
      MoveToHalfOpenState();
    }

    /** Run the protected code (given by its outcome) under the breaker. */
    method AttemptCall<E>(outcome: Outcome<E>) returns (result: CallResult<E>, ran: bool)
      requires Valid()
      modifies this
      ensures Valid()
      ensures Attempted(Current(), result, ran) == Attempt(old(Current()), Cfg(), outcome)
      ensures old(IsOpen()) ==> result == OpenCircuit && !ran && Current() == old(Current())
      ensures outcome.Threw? && ran ==> result == Rethrown(outcome.error) || result == TimerRejected
      ensures result == TimerRejected ==> !TimerAccepts(timeoutMs)
    {
      var admitted := ProtectedCodeIsAboutToBeCalled();
      if !admitted {
        return OpenCircuit, false;
      }
      ran := true;
      match outcome
      case Threw(e) =>
        var timerThrew := ActUponException();
        result := if timerThrew then TimerRejected else Rethrown(e);
      case Completed =>
        ProtectedCodeHasBeenCalled();
        result := Returned;
    }

    /** Force the breaker Closed, which resets the counter. */
    method Close()
      requires Valid()
      modifies this
      ensures Valid()
      ensures Current() == Snapshot(Closed, 0)
    {
      MoveToClosedState();
    }

    /** Force the breaker Open, keeping the counter; with a timeout the
        timer rejects, the ArgumentException (timerThrew) leaves the breaker
        as it was. */
    method Open() returns (timerThrew: bool)
      requires Valid()
      modifies this
      ensures Valid()
      ensures timerThrew <==> !TimerAccepts(timeoutMs)
      ensures Current() == if timerThrew then old(Current()) else Snapshot(Kind.Open, old(failures))
    {
      timerThrew := MoveToOpenState();
    }
  }
}
