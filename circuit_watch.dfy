/**
 * The objects of circuit_watch.py: CircuitStorage holds the configuration and
 * the mutable window, counter and state tag; CircuitBreaker owns one storage,
 * the last failure instant and the protected-call wrapper; the state handlers
 * (closed, open, half-open and their shared base) are the methods below the
 * classes, each taking the breaker it acts on.
 *
 * Every method that changes state states its new store in terms of the old one
 * through the step functions of CircuitSpec; the handlers and the wrapper also
 * keep the breaker's invariant Valid().
 */
module CircuitWatch {
  import opened CircuitSpec

  class CircuitStorage {
    const countBasedWindowSize: nat
    const failureRate: Ratio
    const slowCallDuration: Option<int>
    const openStateDuration: int
    const halfOpenStateCallsThreshold: int

    var totalCalls: seq<bool>
    var halfOpenStateTotalCalls: nat
    var circuitState: CircuitState

    function Configuration(): Config {
      Config(countBasedWindowSize, failureRate, slowCallDuration, openStateDuration, halfOpenStateCallsThreshold)
    }

    constructor (
      countBasedWindowSize: Option<nat>,
      failureRate: Option<Ratio>,
      slowCallDuration: Option<int>,
      halfOpenStateCallsThreshold: Option<int>,
      openStateDuration: Option<int>)
      ensures Configuration() ==
        DefaultedConfig(countBasedWindowSize, failureRate, slowCallDuration, halfOpenStateCallsThreshold, openStateDuration)
      ensures totalCalls == [] && halfOpenStateTotalCalls == 0 && circuitState == ClosedState
    {
      var c := DefaultedConfig(countBasedWindowSize, failureRate, slowCallDuration, halfOpenStateCallsThreshold, openStateDuration);
      this.countBasedWindowSize := c.countBasedWindowSize;
      this.failureRate := c.failureRate;
      this.slowCallDuration := c.slowCallDuration;
      this.openStateDuration := c.openStateDuration;
      this.halfOpenStateCallsThreshold := c.halfOpenStateCallsThreshold;
      totalCalls := [];
      halfOpenStateTotalCalls := 0;
      circuitState := ClosedState;
    }
  }

  class CircuitBreaker {
    var lastFailureTime: Option<int>
    const storage: CircuitStorage

    function Configuration(): Config {
      storage.Configuration()
    }

    /** The breaker's store as a value. */
    function View(): Store
      reads this, storage
    {
      Store(storage.totalCalls, storage.halfOpenStateTotalCalls, storage.circuitState, lastFailureTime)
    }

    ghost predicate Valid()
      reads this, storage
    {
      ConfigValid(Configuration()) && Inv(Configuration(), View())
    }

    constructor (
      countBasedWindowSize: Option<nat>,
      failureRate: Option<Ratio>,
      slowCallDuration: Option<int>,
      halfOpenStateCallsThreshold: Option<int>,
      openStateDuration: Option<int>)
      ensures fresh(storage)
      ensures Configuration() ==
        DefaultedConfig(countBasedWindowSize, failureRate, slowCallDuration, halfOpenStateCallsThreshold, openStateDuration)
      ensures View() == Initial
      ensures Valid()
    {
      lastFailureTime := None;
      storage := new CircuitStorage(
        countBasedWindowSize, failureRate, slowCallDuration, halfOpenStateCallsThreshold, openStateDuration);
    }

    method ResetCalls()
      modifies storage
      ensures View() == old(View()).(totalCalls := [])
    {
      storage.totalCalls := [];
    }

    /** set_circuit_breaker_state, without the listener notifications. */
    method SetCircuitBreakerState(state: CircuitState)
      modifies storage
      ensures View() == old(View()).(circuitState := state)
    {
      storage.circuitState := state;
    }

    method UpdateLastFailureTime(now: int)
      modifies this
      ensures View() == old(View()).(lastFailureTime := Some(now))
    {
      lastFailureTime := Some(now);
    }

    method UpdateCircuitState(updatedCircuitState: CircuitState)
      modifies storage
      ensures View() == old(View()).(circuitState := updatedCircuitState)
    {
      storage.circuitState := updatedCircuitState;
    }

    /** Counts the failures of a full window and compares the rate with the threshold. */
    method CheckIfMaxFailsReached() returns (maxFailsReached: bool)
      ensures maxFailsReached <==> MaxFailsReached(Configuration(), storage.totalCalls)
    {
      var failCounter := 0;
      var totalCalls := |storage.totalCalls|;
      maxFailsReached := totalCalls >= storage.countBasedWindowSize;
      if maxFailsReached {
        for i := 0 to totalCalls
          invariant failCounter == Failures(storage.totalCalls[..i])
        {
          assert storage.totalCalls[..i + 1] == storage.totalCalls[..i] + [storage.totalCalls[i]];
          failCounter := failCounter + if storage.totalCalls[i] then 0 else 1;
        }
        assert storage.totalCalls[..totalCalls] == storage.totalCalls;
        maxFailsReached := failCounter * storage.failureRate.den >= storage.failureRate.num * totalCalls;
      }
    }

    /** The cool-down test, with the current instant passed in. */
    method CheckIfOpenStateDurationElapsed(now: int) returns (elapsed: bool)
      requires lastFailureTime.Some?
      ensures elapsed <==> OpenStateDurationElapsed(Configuration(), lastFailureTime.value, now)
    {
      var seconds := ElapsedSeconds(now - lastFailureTime.value);
      elapsed := seconds * MicrosPerSecond >= storage.openStateDuration;
    }

    /** Evicts from the front until the window is within its size. */
    method UpdateTotalCallsDetails()
      modifies storage
      ensures View() == old(View()).(totalCalls := Evict(old(storage.totalCalls), storage.countBasedWindowSize))
    {
      while |storage.totalCalls| > storage.countBasedWindowSize
        invariant View() == old(View()).(totalCalls := storage.totalCalls)
        invariant Evict(storage.totalCalls, storage.countBasedWindowSize)
               == Evict(old(storage.totalCalls), storage.countBasedWindowSize)
        decreases |storage.totalCalls|
      {
        storage.totalCalls := storage.totalCalls[1..];
      }
    }

    method AddCallDetail(status: bool)
      modifies storage
      ensures View() == RecordCall(Configuration(), old(View()), status)
    {
      storage.totalCalls := storage.totalCalls + [status];
      UpdateTotalCallsDetails();
    }

    /** Returns true where the source raises CircuitExecutionTimeBreachedException. */
    method CheckIfExecutionTimeBreached(startTime: int, endTime: int) returns (breached: bool)
      ensures breached <==> ExecutionTimeBreached(Configuration(), startTime, endTime)
    {
      breached := false;
      if storage.slowCallDuration.Some? {
        if endTime - startTime >= storage.slowCallDuration.value {
          breached := true;
        }
      }
    }

    method IncrementHalfOpenStateSuccessCalls()
      modifies storage
      ensures View() == old(View()).(halfOpenStateTotalCalls := old(storage.halfOpenStateTotalCalls) + 1)
    {
      storage.halfOpenStateTotalCalls := storage.halfOpenStateTotalCalls + 1;
    }

    method ResetHalfOpenStateCallsCounter()
      modifies storage
      ensures View() == old(View()).(halfOpenStateTotalCalls := 0)
    {
      storage.halfOpenStateTotalCalls := 0;
    }

    method CheckHalfOpenCallSuccess() returns (success: bool)
      ensures success <==> HalfOpenCallSuccess(Configuration(), View())
    {
      success := storage.halfOpenStateTotalCalls >= storage.halfOpenStateCallsThreshold;
    }

    /** handle_before_call: dispatch on the current state; false where CircuitOpenException is raised. */
    method HandleBeforeCall(now: int) returns (admitted: bool)
      requires Valid()
      modifies storage
      ensures Valid()
      ensures admitted == BeforeCallStep(Configuration(), old(View()), now).Admitted?
      ensures View() == if admitted then BeforeCallStep(Configuration(), old(View()), now).after else old(View())
    {
      match storage.circuitState
      case ClosedState =>
        admitted := true;
      case OpenState =>
        admitted := OpenStateBeforeCall(this, now);
      case HalfOpenState =>
        admitted := true;
    }

    method HandleSuccess()
      requires Valid()
      modifies storage
      ensures Valid()
      ensures View() == SuccessStep(Configuration(), old(View()))
    {
      match storage.circuitState
      case ClosedState =>
        BaseOnSuccess(this);
      case OpenState =>
        BaseOnSuccess(this);
      case HalfOpenState =>
        HalfOpenStateOnSuccess(this);
    }

    method HandleFailure(now: int)
      requires Valid()
      modifies this, storage
      ensures Valid()
      ensures View() == FailureStep(Configuration(), old(View()), now)
    {
      match storage.circuitState
      case ClosedState =>
        CloseStateOnFailure(this, now);
      case OpenState =>
        // CircuitOpenState.on_failure does nothing.
      case HalfOpenState =>
        HalfOpenStateOnFailure(this, now);
    }

    method CircuitClose()
      modifies storage
      ensures View() == old(View()).(circuitState := ClosedState)
    {
      storage.circuitState := ClosedState;
    }

    method CircuitOpen()
      modifies storage
      ensures View() == old(View()).(circuitState := OpenState)
    {
      storage.circuitState := OpenState;
    }

    method CircuitHalfOpen()
      modifies storage
      ensures View() == old(View()).(circuitState := HalfOpenState)
    {
      storage.circuitState := HalfOpenState;
    }

    /**
     * One invocation through the wrapper of __call__: the work's own outcome and
     * the clock readings are passed in.
     */
    method Call<R, E>(work: WorkResult<R, E>, times: CallTimes) returns (outcome: CallOutcome<R, E>)
      requires Valid()
      modifies this, storage
      ensures Valid()
      ensures Step(View(), outcome) == CallStep(Configuration(), old(View()), work, times)
    {
      var admitted := HandleBeforeCall(times.beforeCall);
      if !admitted {
        return CircuitOpenException;
      }
      match work
      case Raised(e) =>
        HandleFailure(times.failure);
        outcome := Reraised(e);
      case Completed(v) =>
        var breached := CheckIfExecutionTimeBreached(times.start, times.end);
        if breached {
          HandleFailure(times.failure);
          outcome := ExecutionTimeBreachedException;
        } else {
          HandleSuccess();
          outcome := Result(v);
        }
    }
  }

  // ---------------------------------------------------------------------------
  // The state handlers. The dispatch of the breaker calls each one only in its
  // own state; the closed handler's before_call and the open handler's on_failure
  // do nothing and have no method here.

  /** CircuitOpenState.before_call: false where CircuitOpenException is raised. */
  method OpenStateBeforeCall(cb: CircuitBreaker, now: int) returns (admitted: bool)
    requires cb.Valid() && cb.storage.circuitState == OpenState
    modifies cb.storage
    ensures cb.Valid()
    ensures admitted == OpenBeforeCallStep(cb.Configuration(), old(cb.View()), now).Admitted?
    ensures cb.View() == if admitted then OpenBeforeCallStep(cb.Configuration(), old(cb.View()), now).after
                         else old(cb.View())
  {
    var elapsed := cb.CheckIfOpenStateDurationElapsed(now);
    if elapsed {
      cb.SetCircuitBreakerState(HalfOpenState);
      admitted := true;
    } else {
      admitted := false;
    }
  }

  /** CircuitBreakerState.on_success, used by the closed and open handlers. */
  method BaseOnSuccess(cb: CircuitBreaker)
    requires cb.Valid()
    modifies cb.storage
    ensures cb.Valid()
    ensures cb.View() == BaseSuccessStep(cb.Configuration(), old(cb.View()))
  {
    cb.AddCallDetail(true);
  }

  /** CircuitCloseState.on_failure. */
  method CloseStateOnFailure(cb: CircuitBreaker, now: int)
    requires cb.Valid() && cb.storage.circuitState == ClosedState
    modifies cb, cb.storage
    ensures cb.Valid()
    ensures cb.View() == CloseFailureStep(cb.Configuration(), old(cb.View()), now)
  {
    cb.AddCallDetail(false);
    cb.UpdateLastFailureTime(now);
    var reached := cb.CheckIfMaxFailsReached();
    if reached {
      cb.SetCircuitBreakerState(OpenState);
    }
  }

  /** CircuitHalfOpenState.on_success. */
  method HalfOpenStateOnSuccess(cb: CircuitBreaker)
    requires cb.Valid() && cb.storage.circuitState == HalfOpenState
    modifies cb.storage
    ensures cb.Valid()
    ensures cb.View() == HalfOpenSuccessStep(cb.Configuration(), old(cb.View()))
  {
    cb.IncrementHalfOpenStateSuccessCalls();
    var success := cb.CheckHalfOpenCallSuccess();
    if success {
      cb.SetCircuitBreakerState(ClosedState);
      cb.ResetCalls();
      cb.ResetHalfOpenStateCallsCounter();
    }
  }

  /** CircuitHalfOpenState.on_failure. */
  method HalfOpenStateOnFailure(cb: CircuitBreaker, now: int)
    requires cb.Valid() && cb.storage.circuitState == HalfOpenState
    modifies cb, cb.storage
    ensures cb.Valid()
    ensures cb.View() == HalfOpenFailureStep(cb.Configuration(), old(cb.View()), now)
  {
    cb.SetCircuitBreakerState(OpenState);
    cb.UpdateLastFailureTime(now);
    cb.ResetHalfOpenStateCallsCounter();
  }
}
