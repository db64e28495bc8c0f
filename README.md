# circuit-watch circuit breaker in Dafny

This project models the count-based circuit breaker of `circuit_watch.py` and proves
properties of it. The breaker wraps a unit of work. It records the outcome of every
call admitted while CLOSED in a sliding window of the newest outcomes; calls admitted
while HALF_OPEN are counted but never recorded in the window. When a failure brings the
failure rate of a full window up to the configured rate, it trips from CLOSED to OPEN.
While OPEN it rejects calls until a cool-down has elapsed. After that it admits probes
in HALF_OPEN, and enough successful probes close it again.

Three modules:

- `CircuitSpec` (`circuit_spec.dfy`) holds the breaker as values:
  - the configuration after the constructor applies its defaults (`Config`,
    `DefaultedConfig`);
  - the mutable store: window, half-open counter, state tag and last failure instant
    (`Store`);
  - the window functions (`Evict`, `RecordCall`, `Failures`, `MaxFailsReached`) and
    the gate checks;
  - one step function per state handler and event;
  - the protected call (`CallStep`) and a sequence of calls (`Run`);
  - the invariant `Inv` that every step keeps.
- `CircuitWatch` (`circuit_watch.dfy`) holds the imperative objects:
  - the classes `CircuitStorage` and `CircuitBreaker`, whose fields the methods update
    in place;
  - the state handlers, as methods that take the breaker they act on;
  - the wrapper `Call`.

  Each method states its new store in terms of the old one through the step functions
  of `CircuitSpec`. The window eviction and the failure count are loops with invariants.
- `CircuitProperties` (`circuit_properties.dfy`) holds lemmas about the step functions:
  - the window keeps the newest outcomes;
  - tripping happens exactly on the recent failure rate;
  - the cool-down gate and its seconds-component arithmetic;
  - the half-open probes;
  - what the wrapper records and surfaces;
  - a worked scenario with the decorator's configuration (window 10, rate 1/2).

Representation choices:

- Instants and durations are integers counting microseconds, the resolution of the
  source's `datetime`. The cool-down gate reads the `seconds` component of a
  `timedelta`. That component is the whole elapsed seconds modulo one day
  (`ElapsedSeconds`), so the gate compares `ElapsedSeconds(now - last) * 1_000_000`
  with the open-state duration.
- The failure rate is a rational `num/den` with `den >= 1`. The source's float
  comparison `fails / len >= rate` becomes `fails * den >= num * len`.
  `MaxFailsReachedIsRateTest` proves the two agree as exact quotients.
- A window entry is a boolean: true for a success, false for a failure.
- Each clock reading the source takes is a parameter:
  - the instant `before_call` reads;
  - the start and end of the work;
  - the instant a failure is stamped.

  The work itself is represented by what it does when it runs, either `Completed(value)`
  or `Raised(error)`.
- A falsy option (missing or zero) falls back to its default, as Python's `x or default`
  does. The slow-call duration is the exception and is kept as given.

Three behaviours of the code shape the model:

- **Only a failure can trip the breaker.** The CLOSED handler tests the rate only in
  `on_failure` (circuit_watch.py:215-219). A success is appended by the base
  `on_success` and never tested (circuit_watch.py:196-200). So a window that reaches
  the rate through a success stays CLOSED until the next failure. For example, a
  window holding five failures then five successes is full at exactly rate 1/2 and
  still CLOSED; the next failure trips the breaker. `ScenarioTenthSuccessDoesNotTrip`
  and `ScenarioNextFailureTrips` state both facts.
- **Only a normal return is checked for slowness.** The slow-call check runs only when
  the work returned (circuit_watch.py:181-182). A slow call that raised is recorded
  as a failure and re-raises its own error, not the breach exception.
- **The handler is looked up again after `before_call`.** The handler that records
  the outcome is the one for the state current after the permission check
  (circuit_watch.py:155-165). So a probe admitted from OPEN is recorded by the
  HALF_OPEN handler (`ProbeFromOpen`). The OPEN handler's `on_success` and
  `on_failure` are therefore never reached through the wrapper.

## Model

| member | source | states |
|---|---|---|
| CircuitSpec.DefaultedConfig | circuit_watch.py:47-54 | A given non-zero window size, failure rate, open duration or half-open threshold is kept. A missing or zero one becomes its default: 2, 1/1, 10 s or 1. The slow-call duration is kept exactly as given. The result has a window size of at least 1 and no zero setting. |
| CircuitWatch.CircuitStorage.constructor | circuit_watch.py:35-58 | The configuration is the defaulted one; the window is empty, the half-open counter 0 and the state CLOSED. |
| CircuitWatch.CircuitBreaker.constructor | circuit_watch.py:62-85 | A fresh storage with the defaulted configuration. The store is CLOSED with an empty window, counter 0 and no last failure time, and the invariant holds. |
| CircuitWatch.CircuitBreaker.ResetCalls | circuit_watch.py:87-88 | The window is emptied; nothing else changes. |
| CircuitWatch.CircuitBreaker.SetCircuitBreakerState | circuit_watch.py:90-95 | The state tag becomes the given state; nothing else changes. |
| CircuitWatch.CircuitBreaker.UpdateLastFailureTime | circuit_watch.py:97-98 | The last failure time becomes the given instant; nothing else changes. |
| CircuitWatch.CircuitBreaker.UpdateCircuitState | circuit_watch.py:100-101 | The state tag becomes the given state; nothing else changes. |
| CircuitWatch.CircuitBreaker.CheckIfMaxFailsReached | circuit_watch.py:103-113 | Returns true exactly when the window is full and its counted failures reach the rate (`MaxFailsReached`). The counting loop keeps the failures of the prefix seen so far. The method changes nothing. |
| CircuitWatch.CircuitBreaker.CheckIfOpenStateDurationElapsed | circuit_watch.py:115-118 | Returns true exactly when the seconds component of the time since the last failure reaches the open-state duration. |
| CircuitWatch.CircuitBreaker.UpdateTotalCallsDetails | circuit_watch.py:120-125 | The popleft loop leaves exactly the newest `min(len, size)` outcomes (`Evict` of the old window); nothing else changes. |
| CircuitWatch.CircuitBreaker.AddCallDetail | circuit_watch.py:127-129 | The new store is the old one with the outcome appended and the window evicted back to its size (`RecordCall`). |
| CircuitWatch.CircuitBreaker.CheckIfExecutionTimeBreached | circuit_watch.py:131-134 | Returns true (where the source raises) exactly when a slow-call duration is set and `end - start` reaches it. |
| CircuitWatch.CircuitBreaker.IncrementHalfOpenStateSuccessCalls | circuit_watch.py:136-137 | The half-open counter grows by one; nothing else changes. |
| CircuitWatch.CircuitBreaker.ResetHalfOpenStateCallsCounter | circuit_watch.py:139-140 | The half-open counter becomes 0; nothing else changes. |
| CircuitWatch.CircuitBreaker.CheckHalfOpenCallSuccess | circuit_watch.py:142-146 | Returns true exactly when the counter has reached the half-open threshold. |
| CircuitWatch.CircuitBreaker.HandleBeforeCall | circuit_watch.py:148-157 | Dispatches on the state. It returns false (CircuitOpenException) exactly when `BeforeCallStep` rejects, and then changes nothing. Otherwise the store is the admitted one. The invariant is kept. |
| CircuitWatch.CircuitBreaker.HandleSuccess | circuit_watch.py:159-161 | The store becomes `SuccessStep` of the old one, and the invariant is kept. |
| CircuitWatch.CircuitBreaker.HandleFailure | circuit_watch.py:163-165 | The store becomes `FailureStep` of the old one, and the invariant is kept. |
| CircuitWatch.CircuitBreaker.CircuitClose | circuit_watch.py:167-168 | The state tag becomes CLOSED; nothing else changes. |
| CircuitWatch.CircuitBreaker.CircuitOpen | circuit_watch.py:170-171 | The state tag becomes OPEN; nothing else changes. |
| CircuitWatch.CircuitBreaker.CircuitHalfOpen | circuit_watch.py:173-174 | The state tag becomes HALF_OPEN; nothing else changes. |
| CircuitWatch.CircuitBreaker.Call | circuit_watch.py:176-189 | The wrapper's new store and the outcome its caller sees are exactly `CallStep` of the old store, and the invariant is kept. |
| CircuitWatch.OpenStateBeforeCall | circuit_watch.py:230-234 | Once the cool-down has elapsed, the state becomes HALF_OPEN and the call is admitted. Otherwise it returns false (CircuitOpenException) and changes nothing. |
| CircuitWatch.BaseOnSuccess | circuit_watch.py:196-200 | A success is appended to the window, which is evicted to its size; the invariant is kept. |
| CircuitWatch.CloseStateOnFailure | circuit_watch.py:215-220 | A failure is appended and the failure instant stamped. The state becomes OPEN exactly when the updated window reaches the rate. The invariant is kept. |
| CircuitWatch.HalfOpenStateOnSuccess | circuit_watch.py:241-246 | The counter grows by one. On reaching the threshold, the breaker is CLOSED with an empty window and counter 0. The invariant is kept. |
| CircuitWatch.HalfOpenStateOnFailure | circuit_watch.py:248-251 | The state becomes OPEN, the failure instant is stamped and the counter is reset. The window is untouched and the invariant is kept. |
| CircuitSpec.Evict | circuit_watch.py:120-125 | The kept window has length `min(len, size)` and is the newest part of the input (a suffix). |
| CircuitSpec.ElapsedSeconds | circuit_watch.py:116-118 | The seconds component lies in `[0, 86400)` and differs from the whole elapsed seconds by a multiple of a day. |
| CircuitSpec.BeforeCallStep | circuit_watch.py:155-157 | A call is rejected exactly when the breaker is OPEN and the cool-down has not elapsed. An admitted store keeps the invariant and is never OPEN. |
| CircuitSpec.SuccessStep | circuit_watch.py:159-161 | Handling a success in any state keeps the invariant. |
| CircuitSpec.FailureStep | circuit_watch.py:163-165 | Handling a failure in any state keeps the invariant. |
| CircuitSpec.CallStep | circuit_watch.py:176-189 | A protected call keeps the invariant. The caller gets CircuitOpenException exactly when `before_call` rejects, and then the store is unchanged. The caller gets the work's value exactly when the call was admitted and the work returned within the slow-call duration. |
| CircuitSpec.Run | circuit_watch.py:176-189 | Any sequence of protected calls keeps the invariant and yields one outcome per call. |
| CircuitProperties.RecordCallKeepsNewest | circuit_watch.py:127-129 | After `add_call_detail` the window is within its size and ends with the new outcome. It is the old window plus that outcome with only oldest entries dropped. |
| CircuitProperties.EvictSuffix | circuit_watch.py:120-125 | Evicting any suffix at least as long as the result gives the same window as evicting the whole sequence. |
| CircuitProperties.EvictThenAppend | circuit_watch.py:120-129 | Evicting, appending more outcomes and evicting again is the same as evicting the whole history once. |
| CircuitProperties.FailuresCountsFailedCalls | circuit_watch.py:108-109 | The loop's failure count is the number of false entries of the window. |
| CircuitProperties.MaxFailsReachedIsRateTest | circuit_watch.py:103-113 | The trip test holds exactly when the window is full and `fails/len >= num/den` as exact quotients. |
| CircuitProperties.ClosedWindowIsRecentHistory | circuit_watch.py:196-220 | While the breaker stays CLOSED, its window is the newest window-size outcomes of its whole history. |
| CircuitProperties.TripsExactlyOnRecentFailureRate | circuit_watch.py:215-219 | After any CLOSED history, the next call trips the breaker exactly when it fails and the newest window-size outcomes reach the rate. Those outcomes include that failure. |
| CircuitProperties.ClosedCallStep | circuit_watch.py:207-220 | In CLOSED a call is always admitted. A success goes through the base `on_success`; a raised or slow call goes through the closed `on_failure`. |
| CircuitProperties.ClosedCallTrips | circuit_watch.py:215-219 | A CLOSED call never leads to HALF_OPEN. It leads to OPEN exactly when it fails and the window with that failure reaches the rate. |
| CircuitProperties.NoTripBeforeWindowFills | circuit_watch.py:105-107 | From a fresh breaker, a failure that comes before the window-size-th outcome leaves the breaker CLOSED. |
| CircuitProperties.CoolDownGate | circuit_watch.py:230-234 | An OPEN breaker admits a call as a HALF_OPEN probe once the cool-down has elapsed. Before that it rejects the call and changes nothing. |
| CircuitProperties.RepeatedRejectionsChangeNothing | circuit_watch.py:230-234 | Any number of calls before the cool-down elapses are all rejected, and the store stays as it was. |
| CircuitProperties.ElapsedSecondsWithinADay | circuit_watch.py:116-118 | Below one day, the seconds component is the elapsed time in whole seconds. |
| CircuitProperties.ElapsedSecondsIgnoresDays | circuit_watch.py:116-118 | Adding whole days to the elapsed time does not change the seconds component. |
| CircuitProperties.CoolDownMissedAfterADay | circuit_watch.py:115-118 | A day and five seconds after the last failure, a ten-second cool-down still rejects, because the gate reads the seconds component, 5. |
| CircuitProperties.HalfOpenClosesAtThreshold | circuit_watch.py:241-246 | Consecutive HALF_OPEN successes only count up until one brings the counter to the threshold. That one closes the breaker with an empty window and counter 0. |
| CircuitProperties.HalfOpenFailureReopens | circuit_watch.py:248-251 | Any failure while HALF_OPEN reopens the breaker at once: OPEN, failure instant restamped, counter reset, window untouched. |
| CircuitProperties.ProbeFromOpen | circuit_watch.py:230-251 | A call admitted from OPEN after the cool-down goes to the half-open handler. A failure reopens the breaker with the failure instant restamped, counter 0 and the window untouched. A success closes it with an empty window when one success meets the threshold. Otherwise the breaker stays HALF_OPEN with one success counted. |
| CircuitProperties.WrapperSurfacesErrors | circuit_watch.py:176-189 | The caller's outcome is fully determined. A rejected call gives CircuitOpenException. An admitted call whose work raised re-raises that error. A slow return gives the breach exception. Any other admitted call returns the work's value. |
| CircuitProperties.ClosedCallRecordsOutcome | circuit_watch.py:196-220 | In CLOSED, a call appends its outcome to the window. A failure stamps the failure instant; a success keeps the breaker CLOSED. |
| CircuitProperties.RejectionIgnoresWork | circuit_watch.py:178-181 | A rejected call's store and outcome do not depend on what the work would have done. |
| CircuitProperties.ScenarioConfigIsDefaulted | circuit_watch.py:279 | The decorator's arguments (window 10, rate 1/2) with all else defaulted give a configuration with a 10 s cool-down and threshold 1. |
| CircuitProperties.ScenarioTenthSuccessDoesNotTrip | circuit_watch.py:196-200 | After five failures and four successes, a fifth success fills the window at exactly the rate yet leaves the breaker CLOSED. |
| CircuitProperties.ScenarioNextFailureTrips | circuit_watch.py:215-219 | The next failure shifts the window to five failures in ten and trips the breaker. |
| CircuitProperties.ScenarioCoolDownAndProbe | circuit_watch.py:230-246 | One second after the trip a call is rejected unchanged. Ten seconds after it, a probe is admitted and its success closes the breaker with an empty window. |

## Left out

- Listeners: the fan-out in `set_circuit_breaker_state`, `on_success` and `on_failure`, and `CircuitBreakerListener`. The model assumes every listener returns normally. A listener that raises does change the outcome, because the listener calls run inside the wrapper's `try`:
  - `listener.success` raising after `add_call_detail(True)` (circuit_watch.py:197-200) is caught, and `handle_failure` then appends a failure as well;
  - `state_change` raising during the HALF_OPEN close (circuit_watch.py:95, 244) skips `reset_calls` and the counter reset (circuit_watch.py:245-246). The state is already CLOSED, because line 92 assigns it before line 95 notifies. The exception is caught at line 185, and `handle_failure` resolves the CLOSED handler, whose `on_failure` (circuit_watch.py:215-219) appends a failure to the uncleared window and restamps the failure instant. That window last tripped the breaker and nothing in HALF_OPEN appended to it, so one more failure typically keeps it at the rate and line 219 sets OPEN again. The breaker then ends OPEN with a non-zero half-open counter and a failure appended;
  - `listener.failure` (circuit_watch.py:205) raises `AttributeError` for a `CircuitBreakerListener` subclass, which only defines `on_failure`; that error replaces the one the caller would see.
- The time-based window: its type and size, `half_open_state_duration`, `window_start_time` and `sliding_window_type`. The code stores them and never reads them.
- `CallDetail.timestamp`: it is never read, so a window entry is only its status.
- Floating point: the failure rate is an exact rational, and durations are integer microseconds. Float rounding in `fail_counter / total_calls` is not modelled.
- Negative window sizes: `countBasedWindowSize` is a `nat`. With a negative size the source's eviction loop would empty the deque and then raise `IndexError` on `popleft`.
- The exceptions' message texts. `CircuitOpenException` and `CircuitExecutionTimeBreachedException` appear only as outcomes of a call.
- The demo function and its driver loop with `print` and `sleep`, the unused `random` import, and concurrency. The source is single-threaded.
- Clock reads (`datetime.utcnow`, `time.time`): they become integer parameters. The work becomes its pre-decided result, so "the work never runs" appears as `RejectionIgnoresWork`.
- CircuitSpec.OpenBeforeCallStep: requires a recorded failure instant. The source would raise `TypeError` on `None`, but the invariant guarantees the instant in OPEN.
- CircuitWatch.CircuitBreaker.CheckIfOpenStateDurationElapsed: requires a recorded failure instant, for the same reason.
- CircuitWatch.CircuitBreaker.CircuitOpen: an administrative setter. Like `SetCircuitBreakerState`, it states its new store but need not keep the invariant, since opening without a failure instant breaks it.
- CircuitWatch.CircuitBreaker.CircuitHalfOpen: likewise, it does not promise the invariant.
- CircuitSpec.CallStep: the wrapper catches only `Exception` (circuit_watch.py:185). A work that raises another `BaseException` (`KeyboardInterrupt`, `SystemExit`) skips `handle_failure` and propagates with nothing recorded; a probe admitted from OPEN then stays HALF_OPEN. The model has no such outcome: every `Raised` work is recorded as a failure.
