/**
 * The circuit breaker of circuit_watch.py as values: its configuration after
 * defaulting, the store it keeps (outcome window, half-open counter, state tag,
 * last failure instant), and the transition each state handler takes on each
 * event of a protected call.
 *
 * Instants and durations are integers counting microseconds, the resolution
 * of the source's datetime values. Outcomes in the window are booleans:
 * true for a success, false for a failure.
 */
module CircuitSpec {

  datatype Option<+T> = None | Some(value: T)

  /** The three states of CircuitState. */
  datatype CircuitState = OpenState | ClosedState | HalfOpenState

  const MicrosPerSecond: int := 1_000_000
  const SecondsPerDay: int := 86400

  // The defaults of CBConstants that some logic reads.
  const DefaultCountBasedWindowSize: nat := 2
  const DefaultFailureRate: Ratio := Ratio(1, 1)
  const DefaultOpenStateDuration: int := 10 * MicrosPerSecond
  const DefaultHalfOpenStateCalls: int := 1

  type Positive = n: int | n >= 1 witness 1

  /** A failure rate num/den; it stands for the source's float. */
  datatype Ratio = Ratio(num: int, den: Positive)

  /** The configuration of a CircuitStorage once defaults are applied. */
  datatype Config = Config(
    countBasedWindowSize: nat,
    failureRate: Ratio,
    slowCallDuration: Option<int>,
    openStateDuration: int,
    halfOpenStateCallsThreshold: int)

  /**
   * The mutable fields of CircuitStorage (total_calls, half_open_state_total_calls,
   * circuit_state) together with CircuitBreaker.last_failure_time.
   */
  datatype Store = Store(
    totalCalls: seq<bool>,
    halfOpenStateTotalCalls: nat,
    circuitState: CircuitState,
    lastFailureTime: Option<int>)

  /** The store of a freshly constructed breaker. */
  const Initial: Store := Store([], 0, ClosedState, None)

  /** No defaulted value is falsy: window size, failure rate, open duration and threshold. */
  predicate ConfigValid(c: Config) {
    && c.countBasedWindowSize >= 1
    && c.failureRate.num != 0
    && c.openStateDuration != 0
    && c.halfOpenStateCallsThreshold != 0
  }

  /**
   * CircuitStorage's constructor: every option is `given or default`, so a missing
   * or zero value falls back to its default; the slow-call duration is kept as
   * given, zero included.
   */
  function DefaultedConfig(
    countBasedWindowSize: Option<nat>,
    failureRate: Option<Ratio>,
    slowCallDuration: Option<int>,
    halfOpenStateCallsThreshold: Option<int>,
    openStateDuration: Option<int>): (c: Config)
    ensures ConfigValid(c)
    ensures c.slowCallDuration == slowCallDuration
    ensures countBasedWindowSize.Some? && countBasedWindowSize.value != 0 ==>
      c.countBasedWindowSize == countBasedWindowSize.value
    ensures countBasedWindowSize == None || countBasedWindowSize == Some(0) ==>
      c.countBasedWindowSize == DefaultCountBasedWindowSize
    ensures failureRate.Some? && failureRate.value.num != 0 ==> c.failureRate == failureRate.value
    ensures failureRate.None? || failureRate.value.num == 0 ==> c.failureRate == DefaultFailureRate
    ensures openStateDuration.Some? && openStateDuration.value != 0 ==>
      c.openStateDuration == openStateDuration.value
    ensures openStateDuration == None || openStateDuration == Some(0) ==>
      c.openStateDuration == DefaultOpenStateDuration
    ensures halfOpenStateCallsThreshold.Some? && halfOpenStateCallsThreshold.value != 0 ==>
      c.halfOpenStateCallsThreshold == halfOpenStateCallsThreshold.value
    ensures halfOpenStateCallsThreshold == None || halfOpenStateCallsThreshold == Some(0) ==>
      c.halfOpenStateCallsThreshold == DefaultHalfOpenStateCalls
  {
    Config(
      if countBasedWindowSize.Some? && countBasedWindowSize.value != 0
      then countBasedWindowSize.value else DefaultCountBasedWindowSize,
      if failureRate.Some? && failureRate.value.num != 0
      then failureRate.value else DefaultFailureRate,
      slowCallDuration,
      if openStateDuration.Some? && openStateDuration.value != 0
      then openStateDuration.value else DefaultOpenStateDuration,
      if halfOpenStateCallsThreshold.Some? && halfOpenStateCallsThreshold.value != 0
      then halfOpenStateCallsThreshold.value else DefaultHalfOpenStateCalls)
  }

  /**
   * The invariant every handler keeps: the window is within its size, OPEN has a
   * failure instant, and the half-open counter is zero outside HALF_OPEN and below
   * the threshold inside it (a threshold below one is met by the first success,
   * so there the counter stays zero).
   */
  predicate Inv(c: Config, s: Store) {
    && |s.totalCalls| <= c.countBasedWindowSize
    && (s.circuitState == OpenState ==> s.lastFailureTime.Some?)
    && (s.circuitState != HalfOpenState ==> s.halfOpenStateTotalCalls == 0)
    && (s.circuitState == HalfOpenState ==>
          s.halfOpenStateTotalCalls == 0 || s.halfOpenStateTotalCalls < c.halfOpenStateCallsThreshold)
  }

  // ---------------------------------------------------------------------------
  // The count-based sliding window

  /**
   * update_total_calls_details: drop the oldest outcome while the window is longer
   * than its size. What is kept is the newest min(|calls|, size) outcomes.
   */
  function Evict(calls: seq<bool>, size: nat): (kept: seq<bool>)
    ensures |kept| == if |calls| <= size then |calls| else size
    ensures kept == calls[|calls| - |kept|..]
    decreases |calls|
  {
    if |calls| > size then Evict(calls[1..], size) else calls
  }

  /** add_call_detail: append the outcome, then evict from the front. */
  function RecordCall(c: Config, s: Store, status: bool): Store {
    s.(totalCalls := Evict(s.totalCalls + [status], c.countBasedWindowSize))
  }

  /** The number of failed outcomes in a window, counted from its newest end. */
  function Failures(calls: seq<bool>): nat {
    if calls == [] then 0
    else Failures(calls[..|calls| - 1]) + if calls[|calls| - 1] then 0 else 1
  }

  /**
   * check_if_max_fails_reached: the window is full and fails/len >= failure_rate,
   * compared without division (len and den are positive whenever it matters).
   */
  predicate MaxFailsReached(c: Config, calls: seq<bool>) {
    && |calls| >= c.countBasedWindowSize
    && Failures(calls) * c.failureRate.den >= c.failureRate.num * |calls|
  }

  /**
   * The `seconds` component of a time difference: whole seconds of the elapsed
   * time modulo one day, as a normalised timedelta stores them.
   */
  function ElapsedSeconds(elapsed: int): (secs: int)
    ensures 0 <= secs < SecondsPerDay
    ensures (elapsed / MicrosPerSecond - secs) % SecondsPerDay == 0
  {
    (elapsed / MicrosPerSecond) % SecondsPerDay
  }

  /** check_if_open_state_duration_elapsed, with the clock reading passed in. */
  predicate OpenStateDurationElapsed(c: Config, lastFailure: int, now: int) {
    ElapsedSeconds(now - lastFailure) * MicrosPerSecond >= c.openStateDuration
  }

  /** check_half_open_call_success. */
  predicate HalfOpenCallSuccess(c: Config, s: Store) {
    s.halfOpenStateTotalCalls >= c.halfOpenStateCallsThreshold
  }

  /** check_if_execution_time_breached: true where the source raises. */
  predicate ExecutionTimeBreached(c: Config, start: int, end: int) {
    c.slowCallDuration.Some? && end - start >= c.slowCallDuration.value
  }

  // ---------------------------------------------------------------------------
  // The state handlers

  /** What before_call decides: let the call proceed from a store, or raise CircuitOpenException. */
  datatype Admission = Admitted(after: Store) | Rejected

  /** CircuitOpenState.before_call. */
  function OpenBeforeCallStep(c: Config, s: Store, now: int): Admission
    requires s.lastFailureTime.Some?
  {
    if OpenStateDurationElapsed(c, s.lastFailureTime.value, now)
    then Admitted(s.(circuitState := HalfOpenState))
    else Rejected
  }

  /** CircuitBreakerState.on_success, inherited by the closed and open handlers. */
  function BaseSuccessStep(c: Config, s: Store): Store {
    RecordCall(c, s, true)
  }

  /** CircuitCloseState.on_failure. */
  function CloseFailureStep(c: Config, s: Store, now: int): Store {
    var recorded := RecordCall(c, s, false).(lastFailureTime := Some(now));
    if MaxFailsReached(c, recorded.totalCalls) then recorded.(circuitState := OpenState) else recorded
  }

  /** CircuitHalfOpenState.on_success. */
  function HalfOpenSuccessStep(c: Config, s: Store): Store {
    var counted := s.(halfOpenStateTotalCalls := s.halfOpenStateTotalCalls + 1);
    if HalfOpenCallSuccess(c, counted)
    then counted.(circuitState := ClosedState, totalCalls := [], halfOpenStateTotalCalls := 0)
    else counted
  }

  /** CircuitHalfOpenState.on_failure. */
  function HalfOpenFailureStep(c: Config, s: Store, now: int): Store {
    s.(circuitState := OpenState, lastFailureTime := Some(now), halfOpenStateTotalCalls := 0)
  }

  /**
   * handle_before_call: the handler of the current state decides. Only an open
   * circuit whose cool-down has not elapsed rejects, and an admitted call is
   * never left in OPEN.
   */
  function BeforeCallStep(c: Config, s: Store, now: int): (r: Admission)
    requires Inv(c, s)
    ensures r.Rejected? <==>
      s.circuitState == OpenState && !OpenStateDurationElapsed(c, s.lastFailureTime.value, now)
    ensures r.Admitted? ==> Inv(c, r.after) && r.after.circuitState != OpenState
  {
    match s.circuitState
    case ClosedState => Admitted(s)
    case OpenState => OpenBeforeCallStep(c, s, now)
    case HalfOpenState => Admitted(s)
  }

  /** handle_success: the handler of the current state records a success. */
  function SuccessStep(c: Config, s: Store): (r: Store)
    requires Inv(c, s)
    ensures Inv(c, r)
  {
    match s.circuitState
    case ClosedState => BaseSuccessStep(c, s)
    case OpenState => BaseSuccessStep(c, s)
    case HalfOpenState => HalfOpenSuccessStep(c, s)
  }

  /** handle_failure: the handler of the current state records a failure at instant now. */
  function FailureStep(c: Config, s: Store, now: int): (r: Store)
    requires Inv(c, s)
    ensures Inv(c, r)
  {
    match s.circuitState
    case ClosedState => CloseFailureStep(c, s, now)
    case OpenState => s
    case HalfOpenState => HalfOpenFailureStep(c, s, now)
  }

  // ---------------------------------------------------------------------------
  // The protected call

  /**
   * The clock readings one protected call takes: the instant before_call reads,
   * the instants around the work, and the instant a failure is stamped with.
   */
  datatype CallTimes = CallTimes(beforeCall: int, start: int, end: int, failure: int)

  /** What the wrapped work does when it runs: return a value or raise an error. */
  datatype WorkResult<R, E> = Completed(value: R) | Raised(error: E)

  /** What the caller of the wrapper sees. */
  datatype CallOutcome<R, E> =
    | Result(value: R)
    | CircuitOpenException
    | ExecutionTimeBreachedException
    | Reraised(error: E)

  datatype Step<R, E> = Step(after: Store, outcome: CallOutcome<R, E>)

  /** An attempt's work returns in time: the wrapper reports it as a success. */
  predicate Succeeds<R, E>(c: Config, work: WorkResult<R, E>, t: CallTimes) {
    work.Completed? && !ExecutionTimeBreached(c, t.start, t.end)
  }

  /**
   * The wrapper of CircuitBreaker.__call__: ask for permission, run the work,
   * classify a slow return as a failure, then dispatch to the handler of the state
   * current after the permission check and surface the error, if any.
   */
  function CallStep<R, E>(c: Config, s: Store, work: WorkResult<R, E>, t: CallTimes): (r: Step<R, E>)
    requires Inv(c, s)
    ensures Inv(c, r.after)
    ensures r.outcome.CircuitOpenException? <==> BeforeCallStep(c, s, t.beforeCall).Rejected?
    ensures r.outcome.CircuitOpenException? ==> r.after == s
    ensures r.outcome.Result? <==> BeforeCallStep(c, s, t.beforeCall).Admitted? && Succeeds(c, work, t)
  {
    match BeforeCallStep(c, s, t.beforeCall)
    case Rejected => Step(s, CircuitOpenException)
    case Admitted(admitted) =>
      match work
      case Raised(e) => Step(FailureStep(c, admitted, t.failure), Reraised(e))
      case Completed(v) =>
        if ExecutionTimeBreached(c, t.start, t.end)
        then Step(FailureStep(c, admitted, t.failure), ExecutionTimeBreachedException)
        else Step(SuccessStep(c, admitted), Result(v))
  }

  /** One invocation of the protected function. */
  datatype Attempt<R, E> = Attempt(work: WorkResult<R, E>, times: CallTimes)

  datatype Trace<R, E> = Trace(final: Store, outcomes: seq<CallOutcome<R, E>>)

  /** A sequence of invocations, one after the other, and what each caller saw. */
  function Run<R, E>(c: Config, s: Store, attempts: seq<Attempt<R, E>>): (tr: Trace<R, E>)
    requires Inv(c, s)
    ensures Inv(c, tr.final)
    ensures |tr.outcomes| == |attempts|
    decreases |attempts|
  {
    if attempts == [] then Trace(s, [])
    else
      var step := CallStep(c, s, attempts[0].work, attempts[0].times);
      var rest := Run(c, step.after, attempts[1..]);
      Trace(rest.final, [step.outcome] + rest.outcomes)
  }
}
