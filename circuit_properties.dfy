/**
 * Properties of the circuit breaker model: what a window update keeps, when the
 * breaker trips, how the cool-down gate behaves (including its seconds-component
 * arithmetic), the half-open probe path, and what the protected-call wrapper
 * records and surfaces.
 */
module CircuitProperties {
  import opened CircuitSpec

  // ---------------------------------------------------------------------------
  // The window

  /**
   * add_call_detail: the new window is within its size, ends with the new outcome,
   * and is the old window plus that outcome with only oldest entries dropped.
   */
  lemma RecordCallKeepsNewest(c: Config, s: Store, status: bool)
    requires c.countBasedWindowSize >= 1
    ensures var w := RecordCall(c, s, status).totalCalls;
      && |w| <= c.countBasedWindowSize
      && |w| >= 1 && w[|w| - 1] == status
      && exists dropped :: 0 <= dropped <= |s.totalCalls| && w == (s.totalCalls + [status])[dropped..]
  {
    var appended := s.totalCalls + [status];
    var w := RecordCall(c, s, status).totalCalls;
    assert w == appended[|appended| - |w|..];
  }

  /** Evicting a suffix that is at least as long as the result gives the same window. */
  lemma {:induction false} EvictSuffix(u: seq<bool>, v: seq<bool>, size: nat)
    requires |u| <= |v| && u == v[|v| - |u|..]
    requires |u| >= size || |u| == |v|
    ensures Evict(u, size) == Evict(v, size)
    decreases |v| - |u|
  {
    if |u| == |v| {
      assert u == v;
    } else {
      assert u == v[1..][|v[1..]| - |u|..];
      EvictSuffix(u, v[1..], size);
    }
  }

  /** Recording after an earlier eviction is the same as evicting once at the end. */
  lemma EvictThenAppend(history: seq<bool>, more: seq<bool>, size: nat)
    ensures Evict(Evict(history, size) + more, size) == Evict(history + more, size)
  {
    var whole := history + more;
    var kept := Evict(history, size);
    assert kept + more == whole[|whole| - |kept + more|..];
    EvictSuffix(kept + more, whole, size);
  }

  /** The failure count is the number of false entries, the multiset count of failures. */
  lemma {:induction false} FailuresCountsFailedCalls(calls: seq<bool>)
    ensures Failures(calls) == multiset(calls)[false]
    decreases |calls|
  {
    if calls != [] {
      var init := calls[..|calls| - 1];
      FailuresCountsFailedCalls(init);
      assert calls == init + [calls[|calls| - 1]];
    }
  }

  /** The failures of two consecutive stretches of calls add up. */
  lemma {:induction false} FailuresAppend(older: seq<bool>, newer: seq<bool>)
    ensures Failures(older + newer) == Failures(older) + Failures(newer)
    decreases |newer|
  {
    if newer != [] {
      var init := newer[..|newer| - 1];
      FailuresAppend(older, init);
      assert (older + newer)[..|older + newer| - 1] == older + init;
    } else {
      assert older + newer == older;
    }
  }

  /** A stretch of equal outcomes holds no failure, or nothing but failures. */
  lemma {:induction false} FailuresUniform(calls: seq<bool>, status: bool)
    requires forall i | 0 <= i < |calls| :: calls[i] == status
    ensures Failures(calls) == if status then 0 else |calls|
    decreases |calls|
  {
    if calls != [] {
      FailuresUniform(calls[..|calls| - 1], status);
    }
  }

  /**
   * The failure-rate test agrees with the source's comparison fails/len >= rate taken
   * as exact quotients, and never holds on a window shorter than its size.
   */
  lemma MaxFailsReachedIsRateTest(c: Config, calls: seq<bool>)
    requires c.countBasedWindowSize >= 1
    ensures MaxFailsReached(c, calls) <==>
      && |calls| >= c.countBasedWindowSize
      && (Failures(calls) as real) / (|calls| as real) >= (c.failureRate.num as real) / (c.failureRate.den as real)
  {
    if |calls| >= c.countBasedWindowSize {
      CrossMultiplication(Failures(calls), |calls|, c.failureRate.num, c.failureRate.den);
    }
  }

  /** Comparing two quotients with positive divisors is comparing the cross products. */
  lemma CrossMultiplication(f: int, n: nat, p: int, d: nat)
    requires n > 0 && d > 0
    ensures (f as real) / (n as real) >= (p as real) / (d as real) <==> f * d >= p * n
  {
    CastProduct(f, d);
    CastProduct(p, n);
    RateComparison(f as real, n as real, p as real, d as real);
  }

  /** Converting a product to a real is multiplying the converted factors. */
  lemma {:induction false} CastProduct(x: int, y: nat)
    ensures (x * y) as real == (x as real) * (y as real)
    decreases y
  {
    if y > 0 {
      CastProduct(x, y - 1);
      assert x * y == x * (y - 1) + x;
    }
  }

  /** The same comparison on reals. */
  lemma RateComparison(f: real, n: real, p: real, d: real)
    requires n > 0.0 && d > 0.0
    ensures f / n >= p / d <==> f * d >= p * n
  {
    var q1, q2 := f / n, p / d;
    assert f == q1 * n;
    assert p == q2 * d;
    assert f * d - p * n == (q1 - q2) * (n * d);
    SignOfProduct(q1 - q2, n * d);
  }

  /** Multiplying by a positive real keeps the sign. */
  lemma SignOfProduct(x: real, y: real)
    requires y > 0.0
    ensures x >= 0.0 <==> x * y >= 0.0
  {
    if x < 0.0 {
      assert x * y == -((-x) * y);
    }
  }

  // ---------------------------------------------------------------------------
  // Tripping from CLOSED

  /** Whether each call's outcome is recorded as a success (true) or a failure (false). */
  function Statuses<R, E>(c: Config, attempts: seq<Attempt<R, E>>): (st: seq<bool>)
    ensures |st| == |attempts|
    decreases |attempts|
  {
    if attempts == [] then []
    else [Succeeds(c, attempts[0].work, attempts[0].times)] + Statuses(c, attempts[1..])
  }

  /** The breaker is CLOSED before, between and after the given calls. */
  predicate StaysClosed<R, E>(c: Config, s: Store, attempts: seq<Attempt<R, E>>)
    requires Inv(c, s)
    decreases |attempts|
  {
    && s.circuitState == ClosedState
    && (attempts != [] ==>
          StaysClosed(c, CallStep(c, s, attempts[0].work, attempts[0].times).after, attempts[1..]))
  }

  /**
   * While the breaker stays CLOSED, its window is exactly the newest outcomes of its
   * whole history, as many as the window size allows.
   */
  lemma {:induction false} ClosedWindowIsRecentHistory<R, E>(c: Config, s: Store, attempts: seq<Attempt<R, E>>)
    requires Inv(c, s) && StaysClosed(c, s, attempts)
    ensures Run(c, s, attempts).final.totalCalls ==
      Evict(s.totalCalls + Statuses(c, attempts), c.countBasedWindowSize)
    decreases |attempts|
  {
    if attempts == [] {
      assert s.totalCalls + Statuses(c, attempts) == s.totalCalls;
    } else {
      var next := RunFirstCall(c, s, attempts);
      var tail := Statuses(c, attempts[1..]);
      ClosedWindowIsRecentHistory(c, next, attempts[1..]);
      ClosedCallThenMore(c, s, attempts[0], tail);
      StatusesFirst(c, s.totalCalls, attempts);
    }
  }

  /** The first call of a non-empty run: the rest of the run starts from its store. */
  lemma RunFirstCall<R, E>(c: Config, s: Store, attempts: seq<Attempt<R, E>>) returns (next: Store)
    requires Inv(c, s) && attempts != []
    ensures next == CallStep(c, s, attempts[0].work, attempts[0].times).after
    ensures Inv(c, next)
    ensures Run(c, s, attempts).final == Run(c, next, attempts[1..]).final
    ensures StaysClosed(c, s, attempts) ==> StaysClosed(c, next, attempts[1..])
  {
    next := CallStep(c, s, attempts[0].work, attempts[0].times).after;
  }

  /** One CLOSED call followed by more outcomes leaves the window the whole history would. */
  lemma ClosedCallThenMore<R, E>(c: Config, s: Store, a: Attempt<R, E>, more: seq<bool>)
    requires Inv(c, s) && s.circuitState == ClosedState
    ensures Evict(CallStep(c, s, a.work, a.times).after.totalCalls + more, c.countBasedWindowSize)
         == Evict(s.totalCalls + [Succeeds(c, a.work, a.times)] + more, c.countBasedWindowSize)
  {
    ClosedCallRecordsOutcome(c, s, a);
    EvictThenAppend(s.totalCalls + [Succeeds(c, a.work, a.times)], more, c.countBasedWindowSize);
  }

  /** The history of a non-empty run is its first outcome followed by the rest. */
  lemma StatusesFirst<R, E>(c: Config, window: seq<bool>, attempts: seq<Attempt<R, E>>)
    requires attempts != []
    ensures window + [Succeeds(c, attempts[0].work, attempts[0].times)] + Statuses(c, attempts[1..])
         == window + Statuses(c, attempts)
  {
  }

  /**
   * After any history spent CLOSED, the next call trips the breaker exactly when it
   * fails and the newest window-size outcomes, that failure included, reach the rate.
   * A success never trips.
   */
  lemma TripsExactlyOnRecentFailureRate<R, E>(c: Config, s: Store, attempts: seq<Attempt<R, E>>, a: Attempt<R, E>)
    requires Inv(c, s) && StaysClosed(c, s, attempts)
    ensures
      var before := Run(c, s, attempts).final;
      var after := CallStep(c, before, a.work, a.times).after;
      var history := s.totalCalls + Statuses(c, attempts);
      after.circuitState == OpenState <==>
        !Succeeds(c, a.work, a.times) && MaxFailsReached(c, Evict(history + [false], c.countBasedWindowSize))
  {
    var size := c.countBasedWindowSize;
    var history := s.totalCalls + Statuses(c, attempts);
    var before := Run(c, s, attempts).final;
    assert before.circuitState == ClosedState by {
      StaysClosedEndsClosed(c, s, attempts);
    }
    assert before.totalCalls == Evict(history, size) by {
      ClosedWindowIsRecentHistory(c, s, attempts);
    }
    assert Evict(Evict(history, size) + [false], size) == Evict(history + [false], size) by {
      EvictThenAppend(history, [false], size);
    }
    ClosedCallTrips(c, before, a);
  }

  /** A run that stays CLOSED ends CLOSED. */
  lemma {:induction false} StaysClosedEndsClosed<R, E>(c: Config, s: Store, attempts: seq<Attempt<R, E>>)
    requires Inv(c, s) && StaysClosed(c, s, attempts)
    ensures Run(c, s, attempts).final.circuitState == ClosedState
    decreases |attempts|
  {
    if attempts != [] {
      var next := RunFirstCall(c, s, attempts);
      StaysClosedEndsClosed(c, next, attempts[1..]);
    }
  }

  /**
   * A call made while CLOSED trips the breaker exactly when it fails and the window
   * with that failure appended reaches the rate.
   */
  lemma ClosedCallTrips<R, E>(c: Config, s: Store, a: Attempt<R, E>)
    requires Inv(c, s) && s.circuitState == ClosedState
    ensures CallStep(c, s, a.work, a.times).after.circuitState != HalfOpenState
    ensures CallStep(c, s, a.work, a.times).after.circuitState == OpenState <==>
      !Succeeds(c, a.work, a.times) && MaxFailsReached(c, Evict(s.totalCalls + [false], c.countBasedWindowSize))
  {
    ClosedCallStep(c, s, a);
  }

  /**
   * While CLOSED, a call is always admitted and lands in the closed handler: a
   * success is recorded as by the base handler, anything else as a closed failure.
   */
  lemma ClosedCallStep<R, E>(c: Config, s: Store, a: Attempt<R, E>)
    requires Inv(c, s) && s.circuitState == ClosedState
    ensures CallStep(c, s, a.work, a.times).after ==
      if Succeeds(c, a.work, a.times) then BaseSuccessStep(c, s) else CloseFailureStep(c, s, a.times.failure)
    ensures Succeeds(c, a.work, a.times) ==> CallStep(c, s, a.work, a.times).outcome == Result(a.work.value)
  {
    assert BeforeCallStep(c, s, a.times.beforeCall) == Admitted(s);
    if a.work.Raised? {
      assert CallStep(c, s, a.work, a.times).after == FailureStep(c, s, a.times.failure);
    } else if ExecutionTimeBreached(c, a.times.start, a.times.end) {
      assert CallStep(c, s, a.work, a.times).after == FailureStep(c, s, a.times.failure);
    } else {
      assert CallStep(c, s, a.work, a.times).after == SuccessStep(c, s);
    }
  }

  /**
   * From a fresh breaker, a failure that comes before the window-size-th outcome never
   * trips it: a partly filled window cannot reach the rate.
   */
  lemma NoTripBeforeWindowFills<R, E>(c: Config, attempts: seq<Attempt<R, E>>, a: Attempt<R, E>)
    requires Inv(c, Initial) && StaysClosed(c, Initial, attempts)
    requires |attempts| + 1 < c.countBasedWindowSize
    ensures CallStep(c, Run(c, Initial, attempts).final, a.work, a.times).after.circuitState == ClosedState
  {
    var history := Initial.totalCalls + Statuses(c, attempts);
    var before := Run(c, Initial, attempts).final;
    assert before.circuitState == ClosedState by {
      StaysClosedEndsClosed(c, Initial, attempts);
    }
    assert !MaxFailsReached(c, Evict(history + [false], c.countBasedWindowSize)) by {
      assert |Evict(history + [false], c.countBasedWindowSize)| == |attempts| + 1;
    }
    TripsExactlyOnRecentFailureRate(c, Initial, attempts, a);
    ClosedCallTrips(c, before, a);
  }

  // ---------------------------------------------------------------------------
  // The cool-down gate

  /**
   * An open breaker rejects a call, changing nothing, until its cool-down has elapsed;
   * then it admits the call as a half-open probe.
   */
  lemma CoolDownGate<R, E>(c: Config, s: Store, work: WorkResult<R, E>, t: CallTimes)
    requires Inv(c, s) && s.circuitState == OpenState
    ensures var elapsed := OpenStateDurationElapsed(c, s.lastFailureTime.value, t.beforeCall);
      && BeforeCallStep(c, s, t.beforeCall) ==
           (if elapsed then Admitted(s.(circuitState := HalfOpenState)) else Rejected)
      && (!elapsed ==> CallStep(c, s, work, t) == Step(s, CircuitOpenException))
  {
  }

  /**
   * Repeated calls while the cool-down has not elapsed are each rejected and leave
   * the window, the counter, the state and the failure instant as they were.
   */
  lemma {:induction false} RepeatedRejectionsChangeNothing<R, E>(c: Config, s: Store, attempts: seq<Attempt<R, E>>)
    requires Inv(c, s) && s.circuitState == OpenState
    requires forall i | 0 <= i < |attempts| ::
      !OpenStateDurationElapsed(c, s.lastFailureTime.value, attempts[i].times.beforeCall)
    ensures Run(c, s, attempts).final == s
    ensures forall i | 0 <= i < |attempts| :: Run(c, s, attempts).outcomes[i] == CircuitOpenException
    decreases |attempts|
  {
    if attempts != [] {
      assert CallStep(c, s, attempts[0].work, attempts[0].times) == Step(s, CircuitOpenException);
      RepeatedRejectionsChangeNothing(c, s, attempts[1..]);
      forall i | 0 <= i < |attempts| - 1
        ensures !OpenStateDurationElapsed(c, s.lastFailureTime.value, attempts[1..][i].times.beforeCall)
      {
        assert attempts[1..][i] == attempts[i + 1];
      }
    }
  }

  /** Below a day, the seconds component is the elapsed time in whole seconds. */
  lemma ElapsedSecondsWithinADay(elapsed: int)
    requires 0 <= elapsed < SecondsPerDay * MicrosPerSecond
    ensures ElapsedSeconds(elapsed) == elapsed / MicrosPerSecond
  {
  }

  /** The seconds component forgets whole days: any number of days added changes nothing. */
  lemma ElapsedSecondsIgnoresDays(elapsed: int, days: int)
    ensures ElapsedSeconds(elapsed + days * SecondsPerDay * MicrosPerSecond) == ElapsedSeconds(elapsed)
  {
    var q := elapsed / MicrosPerSecond;
    var later := elapsed + days * SecondsPerDay * MicrosPerSecond;
    assert later == (q + days * SecondsPerDay) * MicrosPerSecond + elapsed % MicrosPerSecond;
    assert later / MicrosPerSecond == q + days * SecondsPerDay;
    assert (q + days * SecondsPerDay) % SecondsPerDay == q % SecondsPerDay;
  }

  /**
   * A day and five seconds after the last failure, a breaker with a ten-second
   * cool-down still rejects: the gate reads the seconds component, 5.
   */
  lemma CoolDownMissedAfterADay(c: Config, s: Store)
    requires Inv(c, s) && s.circuitState == OpenState && s.lastFailureTime == Some(0)
    requires c.openStateDuration == 10 * MicrosPerSecond
    ensures BeforeCallStep(c, s, (SecondsPerDay + 5) * MicrosPerSecond) == Rejected
  {
    ElapsedSecondsIgnoresDays(5 * MicrosPerSecond, 1);
  }

  // ---------------------------------------------------------------------------
  // The half-open probes

  /**
   * Consecutive successes while HALF_OPEN count up and leave everything else alone;
   * the one that brings the counter to the threshold closes the circuit, empties the
   * window and resets the counter.
   */
  lemma {:induction false} HalfOpenClosesAtThreshold<R, E>(c: Config, s: Store, attempts: seq<Attempt<R, E>>)
    requires ConfigValid(c) && Inv(c, s) && s.circuitState == HalfOpenState
    requires forall i | 0 <= i < |attempts| :: Succeeds(c, attempts[i].work, attempts[i].times)
    requires s.halfOpenStateTotalCalls + |attempts| <= c.halfOpenStateCallsThreshold
    ensures Run(c, s, attempts).final ==
      if s.halfOpenStateTotalCalls + |attempts| < c.halfOpenStateCallsThreshold
      then s.(halfOpenStateTotalCalls := s.halfOpenStateTotalCalls + |attempts|)
      else Store([], 0, ClosedState, s.lastFailureTime)
    decreases |attempts|
  {
    if attempts != [] {
      var next := RunFirstCall(c, s, attempts);
      assert Succeeds(c, attempts[0].work, attempts[0].times);
      assert next == HalfOpenSuccessStep(c, s);
      if s.halfOpenStateTotalCalls + 1 < c.halfOpenStateCallsThreshold {
        forall i | 0 <= i < |attempts| - 1
          ensures Succeeds(c, attempts[1..][i].work, attempts[1..][i].times)
        {
          assert attempts[1..][i] == attempts[i + 1];
        }
        HalfOpenClosesAtThreshold(c, next, attempts[1..]);
      } else {
        assert attempts[1..] == [];
      }
    }
  }

  /**
   * Any failure while HALF_OPEN reopens the circuit at once, whatever successes came
   * before: OPEN, the failure instant restamped, the counter reset, the window untouched.
   */
  lemma HalfOpenFailureReopens<R, E>(c: Config, s: Store, a: Attempt<R, E>)
    requires Inv(c, s) && s.circuitState == HalfOpenState
    requires !Succeeds(c, a.work, a.times)
    ensures CallStep(c, s, a.work, a.times).after ==
      Store(s.totalCalls, 0, OpenState, Some(a.times.failure))
  {
  }

  /**
   * A probe admitted from OPEN once the cool-down has elapsed goes to the half-open
   * handler. A failed probe reopens the breaker and restarts the cool-down from the
   * failure instant; a successful one closes the breaker when one success meets the
   * threshold, and otherwise leaves it HALF_OPEN with one success counted. The
   * window is untouched unless the breaker closes.
   */
  lemma ProbeFromOpen<R, E>(c: Config, s: Store, a: Attempt<R, E>)
    requires Inv(c, s) && s.circuitState == OpenState
    requires OpenStateDurationElapsed(c, s.lastFailureTime.value, a.times.beforeCall)
    ensures CallStep(c, s, a.work, a.times).after ==
      if !Succeeds(c, a.work, a.times) then Store(s.totalCalls, 0, OpenState, Some(a.times.failure))
      else if 1 >= c.halfOpenStateCallsThreshold then Store([], 0, ClosedState, s.lastFailureTime)
      else Store(s.totalCalls, 1, HalfOpenState, s.lastFailureTime)
  {
  }

  // ---------------------------------------------------------------------------
  // The wrapper

  /**
   * The breaker never swallows the work's own error: a rejected call surfaces
   * CircuitOpenException; an admitted call whose work raised surfaces that error; a
   * slow return surfaces the breach exception instead of the value; any other
   * admitted call returns the work's value.
   */
  lemma WrapperSurfacesErrors<R, E>(c: Config, s: Store, a: Attempt<R, E>)
    requires Inv(c, s)
    ensures CallStep(c, s, a.work, a.times).outcome ==
      if BeforeCallStep(c, s, a.times.beforeCall).Rejected? then CircuitOpenException
      else if a.work.Raised? then Reraised(a.work.error)
      else if ExecutionTimeBreached(c, a.times.start, a.times.end) then ExecutionTimeBreachedException
      else Result(a.work.value)
  {
  }

  /**
   * In CLOSED, a call that failed or ran too long appends a failure to the window and
   * stamps the failure instant; one that succeeded in time appends a success and
   * leaves the state CLOSED.
   */
  lemma ClosedCallRecordsOutcome<R, E>(c: Config, s: Store, a: Attempt<R, E>)
    requires Inv(c, s) && s.circuitState == ClosedState
    ensures var after := CallStep(c, s, a.work, a.times).after;
      var ok := Succeeds(c, a.work, a.times);
      && after.totalCalls == Evict(s.totalCalls + [ok], c.countBasedWindowSize)
      && after.lastFailureTime == (if ok then s.lastFailureTime else Some(a.times.failure))
      && (ok ==> after.circuitState == ClosedState)
  {
    ClosedCallStep(c, s, a);
  }

  /**
   * A rejected call does not depend on the work at all: whatever the work would
   * have done, the store and the outcome are the same.
   */
  lemma RejectionIgnoresWork<R, E>(c: Config, s: Store, w1: WorkResult<R, E>, w2: WorkResult<R, E>, t: CallTimes)
    requires Inv(c, s) && BeforeCallStep(c, s, t.beforeCall).Rejected?
    ensures CallStep(c, s, w1, t) == CallStep(c, s, w2, t)
  {
  }

  // ---------------------------------------------------------------------------
  // A worked scenario: window 10, rate 1/2, defaults otherwise

  /** The decorated function's breaker: window 10, rate 1/2, every other setting defaulted. */
  const ScenarioConfig: Config := Config(10, Ratio(1, 2), None, DefaultOpenStateDuration, DefaultHalfOpenStateCalls)

  /** The scenario's configuration is what the constructor makes of its arguments. */
  lemma ScenarioConfigIsDefaulted()
    ensures ScenarioConfig == DefaultedConfig(Some(10), Some(Ratio(1, 2)), None, None, None)
  {
  }

  const FiveFailures: seq<bool> := [false, false, false, false, false]
  const FourSuccesses: seq<bool> := [true, true, true, true]

  /** The window after five failures and four successes. */
  const ScenarioNine: seq<bool> := FiveFailures + FourSuccesses

  /**
   * Five failures then five successes fill the window at exactly the rate, yet the
   * tenth outcome, a success, leaves the breaker CLOSED: only a failure is tested
   * against the rate.
   */
  lemma ScenarioTenthSuccessDoesNotTrip<R, E>(ok: WorkResult<R, E>, t: CallTimes, last: Option<int>)
    requires ok.Completed?
    ensures Inv(ScenarioConfig, Store(ScenarioNine, 0, ClosedState, last))
    ensures var full := CallStep(ScenarioConfig, Store(ScenarioNine, 0, ClosedState, last), ok, t);
      && full == Step(Store(ScenarioNine + [true], 0, ClosedState, last), Result(ok.value))
      && MaxFailsReached(ScenarioConfig, full.after.totalCalls)
  {
    var window := ScenarioNine + [true];
    ClosedCallStep(ScenarioConfig, Store(ScenarioNine, 0, ClosedState, last), Attempt(ok, t));
    assert Evict(window, 10) == window;
    assert Failures(window) == 5 by {
      FailuresAppend(FiveFailures, FourSuccesses);
      FailuresAppend(ScenarioNine, [true]);
      FailuresUniform(FiveFailures, false);
      FailuresUniform(FourSuccesses, true);
      FailuresUniform([true], true);
    }
  }

  /** The next failure, at instant f, trips the breaker: five failures in the newest ten. */
  lemma ScenarioNextFailureTrips<R, E>(bad: WorkResult<R, E>, t: CallTimes, last: Option<int>)
    requires bad.Raised?
    ensures Inv(ScenarioConfig, Store(ScenarioNine + [true], 0, ClosedState, last))
    ensures CallStep(ScenarioConfig, Store(ScenarioNine + [true], 0, ClosedState, last), bad, t).after
         == Store(ScenarioNine[1..] + [true, false], 0, OpenState, Some(t.failure))
  {
    var s := Store(ScenarioNine + [true], 0, ClosedState, last);
    ClosedCallStep(ScenarioConfig, s, Attempt(bad, t));
    ScenarioWindowShifts();
    ScenarioShiftedWindowAtRate();
  }

  /** Appending an eleventh outcome to the full window drops the oldest one. */
  lemma ScenarioWindowShifts()
    ensures Evict(ScenarioNine + [true] + [false], 10) == ScenarioNine[1..] + [true, false]
  {
    var appended := ScenarioNine + [true] + [false];
    assert Evict(appended, 10) == appended[1..];
    assert appended[1..] == ScenarioNine[1..] + [true, false];
  }

  /** The shifted window still holds five failures in ten, which reaches the rate. */
  lemma ScenarioShiftedWindowAtRate()
    ensures MaxFailsReached(ScenarioConfig, ScenarioNine[1..] + [true, false])
  {
    var rest := FiveFailures[1..] + FourSuccesses;
    assert ScenarioNine[1..] == rest;
    FailuresAppend(FiveFailures[1..], FourSuccesses);
    FailuresAppend(rest, [true, false]);
    FailuresUniform(FiveFailures[1..], false);
    FailuresUniform(FourSuccesses, true);
    FailuresAppend([true], [false]);
    FailuresUniform([true], true);
    FailuresUniform([false], false);
  }

  /**
   * Once tripped at instant f, a call one second later is rejected and changes
   * nothing; a call ten seconds after f is admitted as a probe, and its success
   * closes the circuit with an empty window.
   */
  lemma ScenarioCoolDownAndProbe<R, E>(ok: WorkResult<R, E>, t: CallTimes, window: seq<bool>, f: int)
    requires ok.Completed?
    requires |window| <= 10
    ensures var tripped := Store(window, 0, OpenState, Some(f));
      && CallStep(ScenarioConfig, tripped, ok, t.(beforeCall := f + MicrosPerSecond))
           == Step(tripped, CircuitOpenException)
      && CallStep(ScenarioConfig, tripped, ok, t.(beforeCall := f + 10 * MicrosPerSecond))
           == Step(Store([], 0, ClosedState, Some(f)), Result(ok.value))
  {
    assert ElapsedSeconds(MicrosPerSecond) == 1;
    assert ElapsedSeconds(10 * MicrosPerSecond) == 10;
  }
}
