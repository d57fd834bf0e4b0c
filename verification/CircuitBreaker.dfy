/** The circuit breaker: a timed three-state machine. Time is the `now` each call reads under the lock. */
module CircuitBreaker {
  import opened Options
  import opened Ratios

  datatype State = Closed | Open | HalfOpen

  /** A time.Time: the zero time is before every instant by more than any timeout. */
  datatype Instant = Never | At(time: int)

  const SECOND: int := 1_000_000_000

  datatype Config = Config(
    failureThreshold: int, failureRate: real, minRequestsThreshold: int,
    recoveryTimeout: int, consecutiveSuccesses: int, halfOpenMaxRequests: int,
    resetTimeout: int, adaptiveThresholds: bool, requestVolumeThreshold: int)
  {
    /** The half-open limits make sense. */
    ghost predicate Probes() { consecutiveSuccesses >= 1 && halfOpenMaxRequests >= 1 }

    ghost predicate Sound() { failureThreshold >= 1 && Probes() }

    /** The defaults NewCircuitBreaker puts in place of unset values. */
    function WithDefaults(): Config {
      this.(consecutiveSuccesses := if consecutiveSuccesses == 0 then 3 else consecutiveSuccesses,
            halfOpenMaxRequests := if halfOpenMaxRequests == 0 then 2 else halfOpenMaxRequests,
            recoveryTimeout := if recoveryTimeout == 0 then 30 * SECOND else recoveryTimeout,
            resetTimeout := if resetTimeout == 0 then 60 * SECOND else resetTimeout)
    }
  }

  /** What NewCircuitBreaker uses when it is given no configuration. */
  const DEFAULT_CONFIG: Config := Config(5, 0.0, 10, 30 * SECOND, 3, 2, 60 * SECOND, false, 20)

  datatype Breaker = Breaker(
    state: State, lastFailTime: Instant, lastStateChange: int, lastRequestTime: Instant,
    failureCount: nat, successCount: nat, halfOpenRequestCount: nat, consecutiveFailures: nat,
    totalRequests: nat, totalFailures: nat, totalSuccesses: nat,
    openings: nat, halfOpenings: nat, closings: nat)

  function Fresh(now: int): Breaker {
    Breaker(Closed, Never, now, Never, 0, 0, 0, 0, 0, 0, 0, 0, 0, 0)
  }

  /** FailureThreshold reduced by a third, rounding towards zero. */
  function TwoThirds(n: int): int {
    if n >= 0 then n * 2 / 3 else -(-n * 2 / 3)
  }

  /** consecutiveFailures / threshold >= 0.8, where a zero threshold divides as a float does. */
  predicate Concentrated(consecutiveFailures: nat, threshold: int) {
    if threshold == 0 then consecutiveFailures > 0
    else consecutiveFailures as real / threshold as real >= 0.8
  }

  predicate AdaptiveTrips(c: Config, b: Breaker) {
    && b.totalRequests >= c.requestVolumeThreshold
    && Concentrated(b.consecutiveFailures,
                    if b.totalRequests > c.requestVolumeThreshold * 2 then TwoThirds(c.failureThreshold)
                    else c.failureThreshold)
  }

  predicate Trips(c: Config, b: Breaker) {
    || b.failureCount >= c.failureThreshold
    || (c.failureRate > 0.0 && b.totalRequests >= c.minRequestsThreshold
        && AtLeast(b.totalFailures, b.totalRequests, c.failureRate))
    || (c.adaptiveThresholds && AdaptiveTrips(c, b))
  }

  function ToOpen(b: Breaker, now: int): Breaker {
    if b.state == Open then b else b.(state := Open, lastStateChange := now, openings := b.openings + 1)
  }

  function ToHalfOpen(b: Breaker, now: int): Breaker {
    if b.state == HalfOpen then b
    else b.(state := HalfOpen, lastStateChange := now, successCount := 0, halfOpenRequestCount := 0,
            halfOpenings := b.halfOpenings + 1)
  }

  function ToClosed(b: Breaker, now: int): Breaker {
    if b.state == Closed then b
    else b.(state := Closed, lastStateChange := now, failureCount := 0, consecutiveFailures := 0,
            successCount := 0, halfOpenRequestCount := 0, closings := b.closings + 1)
  }

  predicate Admits(c: Config, b: Breaker, now: int) {
    match b.state
    case Closed => true
    case Open => now - b.lastStateChange >= c.recoveryTimeout
    case HalfOpen => b.halfOpenRequestCount < c.halfOpenMaxRequests
  }

  /** The last failure is more than ResetTimeout ago. */
  predicate Forgives(c: Config, b: Breaker, now: int) {
    c.resetTimeout > 0 && (b.lastFailTime == Never || now - b.lastFailTime.time > c.resetTimeout)
  }

  function Asked(c: Config, b: Breaker, now: int): Breaker {
    var a := b.(lastRequestTime := At(now), totalRequests := b.totalRequests + 1);
    if !Admits(c, b, now) then a
    else match b.state
      case Closed => if Forgives(c, b, now) then a.(failureCount := 0, consecutiveFailures := 0) else a
      case Open => ToHalfOpen(a, now).(halfOpenRequestCount := 1)
      case HalfOpen => a.(halfOpenRequestCount := a.halfOpenRequestCount + 1)
  }

  function Succeeded(c: Config, b: Breaker, now: int): Breaker {
    var a := b.(totalSuccesses := b.totalSuccesses + 1, consecutiveFailures := 0);
    match b.state
    case Closed => if Trips(c, a) then ToOpen(a, now) else a
    case HalfOpen =>
      var s := a.(successCount := a.successCount + 1);
      if s.successCount >= c.consecutiveSuccesses then ToClosed(s, now) else s
    case Open => ToHalfOpen(a, now)
  }

  function Failed(c: Config, b: Breaker, now: int): Breaker {
    var a := b.(failureCount := b.failureCount + 1, totalFailures := b.totalFailures + 1,
                consecutiveFailures := b.consecutiveFailures + 1, lastFailTime := At(now));
    if b.state == HalfOpen || (b.state == Closed && Trips(c, a)) then ToOpen(a, now) else a
  }

  /** A float64 score: dividing by a zero threshold gives no number. */
  datatype Score = Number(value: real) | NaN | MinusInfinity {
    ghost predicate InUnit() { Number? && 0.0 <= value <= 1.0 }
  }

  /** GetHealthScore. */
  function HealthScore(c: Config, b: Breaker): Score
    requires c.consecutiveSuccesses != 0
  {
    match b.state
    case Closed =>
      if b.totalRequests == 0 then Number(1.0)
      else if c.failureThreshold == 0 then
        if b.consecutiveFailures == 0 || b.totalSuccesses == 0 then NaN else MinusInfinity
      else
        Number(b.totalSuccesses as real / b.totalRequests as real
               * (1.0 - b.consecutiveFailures as real / c.failureThreshold as real * 0.5))
    case HalfOpen =>
      if b.successCount == 0 then Number(0.3)
      else Number(0.3 + 0.4 * b.successCount as real / c.consecutiveSuccesses as real)
    case Open => Number(0.0)
  }

  /** What every call keeps, whoever makes it and in whatever order. */
  ghost predicate Inv(c: Config, b: Breaker) {
    && (b.state == Closed ==> b.failureCount < c.failureThreshold)
    && (b.state == HalfOpen ==>
          b.successCount < c.consecutiveSuccesses && b.halfOpenRequestCount <= c.halfOpenMaxRequests)
    && b.consecutiveFailures <= b.failureCount <= b.totalFailures
  }

  lemma CallsKeepInv(c: Config, b: Breaker, now: int)
    requires c.Sound() && Inv(c, b)
    ensures Inv(c, Asked(c, b, now)) && Inv(c, Succeeded(c, b, now)) && Inv(c, Failed(c, b, now))
    ensures Inv(c, ToOpen(b, now)) && Inv(c, ToClosed(b, now)) && Inv(c, Fresh(now))
  {
  }

  /** The recorded outcomes stay within the requests counted. */
  lemma HealthScoreInRange(c: Config, b: Breaker)
    requires c.Sound() && Inv(c, b) && b.totalSuccesses <= b.totalRequests
    ensures HealthScore(c, b).InUnit()
    ensures b.state == HalfOpen ==> 0.3 <= HealthScore(c, b).value < 0.7
  {
    if b.state == Closed && b.totalRequests > 0 {
      Fraction(b.totalSuccesses, b.totalRequests);
      KeptShare(b.consecutiveFailures, c.failureThreshold);
      Product(b.totalSuccesses as real / b.totalRequests as real,
              1.0 - b.consecutiveFailures as real / c.failureThreshold as real * 0.5);
    } else if b.state == HalfOpen && b.successCount > 0 {
      PartialSteps(b.successCount, c.consecutiveSuccesses);
    }
  }

  lemma KeptShare(failures: nat, threshold: int)
    requires 0 < threshold && failures <= threshold
    ensures 0.5 <= 1.0 - failures as real / threshold as real * 0.5 <= 1.0
  {
    Fraction(failures, threshold);
  }

  lemma PartialSteps(n: nat, steps: int)
    requires n < steps
    ensures 0.0 <= 0.4 * n as real / steps as real < 0.4
  {
    Fraction(n, steps);
    assert 0.4 * n as real / steps as real == 0.4 * (n as real / steps as real);
  }

  /** While closed the score is the success rate, of which each failure in a row takes its share of a half at the
      threshold; while half-open it goes from 0.3 towards 0.7 in equal steps; without requests it is full, and while
      open nil. */
  lemma HealthScoreMoves(c: Config, b: Breaker)
    requires c.consecutiveSuccesses >= 1 && c.failureThreshold >= 1
    ensures b.state == Open ==> HealthScore(c, b) == Number(0.0)
    ensures b.state == Closed && b.totalRequests == 0 ==> HealthScore(c, b) == Number(1.0)
    ensures b.state == Closed && b.totalRequests > 0 ==>
              var share := b.totalSuccesses as real / b.totalRequests as real / (2 * c.failureThreshold) as real;
              && (b.consecutiveFailures == 0 ==>
                    HealthScore(c, b).value * b.totalRequests as real == b.totalSuccesses as real)
              && HealthScore(c, b.(consecutiveFailures := b.consecutiveFailures + 1)).value
                   == HealthScore(c, b).value - share
    ensures b.state == HalfOpen ==>
              && HealthScore(c, b.(successCount := 0)) == Number(0.3)
              && HealthScore(c, b.(successCount := b.successCount + 1)).value
                   == HealthScore(c, b).value + 0.4 / c.consecutiveSuccesses as real
  {
    if b.state == Closed && b.totalRequests > 0 {
      ShareOfHalf(b.totalSuccesses as real / b.totalRequests as real, b.consecutiveFailures, c.failureThreshold);
    } else if b.state == HalfOpen {
      EqualSteps(b.successCount, c.consecutiveSuccesses);
    }
  }

  lemma ShareOfHalf(rate: real, n: nat, threshold: nat)
    requires threshold > 0
    ensures rate * (1.0 - (n + 1) as real / threshold as real * 0.5)
            == rate * (1.0 - n as real / threshold as real * 0.5) - rate / (2 * threshold) as real
  {
    var t := threshold as real;
    assert (2 * threshold) as real == 2.0 * t;
    Halved(rate, t);
    assert (n + 1) as real / t == n as real / t + 1.0 / t;
    assert rate * (1.0 / t) == rate / t;
    var x, y := n as real / t, 1.0 / t;
    assert rate * (1.0 - (x + y) * 0.5) == rate * (1.0 - x * 0.5) - rate * y * 0.5;
  }

  lemma Halved(rate: real, t: real)
    requires t > 0.0
    ensures rate / (2.0 * t) == rate / t * 0.5
  {
    var q := rate / (2.0 * t);
    assert q * (2.0 * t) == rate;
    assert (2.0 * q) * t == rate;
    assert 2.0 * q == rate / t;
  }

  lemma EqualSteps(n: nat, steps: nat)
    requires steps > 0
    ensures 0.4 * (n + 1) as real / steps as real == 0.4 * n as real / steps as real + 0.4 / steps as real
  {
    assert 0.4 * (n + 1) as real == 0.4 * n as real + 0.4;
  }

  lemma Fraction(part: nat, whole: int)
    requires 0 < whole && part <= whole
    ensures 0.0 <= part as real / whole as real <= 1.0
    ensures part < whole ==> part as real / whole as real < 1.0
  {
  }

  lemma Product(x: real, y: real)
    requires 0.0 <= x <= 1.0 && 0.0 <= y <= 1.0
    ensures 0.0 <= x * y <= 1.0
  {
    NonNegative(x, y);
    NonNegative(1.0 - x, y);
    assert (1.0 - x) * y == y - x * y;
  }

  lemma NonNegative(x: real, y: real)
    requires 0.0 <= x && 0.0 <= y
    ensures 0.0 <= x * y
  {
  }

  /** With the rate and adaptive rules off, a success recorded while closed opens the circuit exactly when the
      threshold is zero or less: otherwise a closed breaker is below it. */
  lemma SuccessTripsExactly(c: Config, b: Breaker, now: int)
    requires b.state == Closed && c.failureRate <= 0.0 && !c.adaptiveThresholds
    requires c.failureThreshold >= 1 ==> b.failureCount < c.failureThreshold
    ensures Succeeded(c, b, now).state == Open <==> c.failureThreshold <= 0
    ensures Failed(c, b, now).state == Open <==> c.failureThreshold <= b.failureCount + 1
  {
  }

  /** Reading a Go map: an absent state counts zero. */
  function Entries(transitions: map<State, nat>, s: State): nat {
    if s in transitions then transitions[s] else 0
  }

  class CircuitBreaker {
    const config: Config
    var state: State
    var lastFailTime: Instant
    var lastStateChange: int
    var failureCount: nat
    var successCount: nat
    var halfOpenRequestCount: nat
    var consecutiveFailures: nat
    var totalRequests: nat
    var totalFailures: nat
    var totalSuccesses: nat
    var lastRequestTime: Instant
    var stateTransitions: map<State, nat>

    function View(): Breaker
      reads this
    {
      Breaker(state, lastFailTime, lastStateChange, lastRequestTime,
              failureCount, successCount, halfOpenRequestCount, consecutiveFailures,
              totalRequests, totalFailures, totalSuccesses,
              Entries(stateTransitions, Open), Entries(stateTransitions, HalfOpen), Entries(stateTransitions, Closed))
    }

    ghost predicate Valid()
      reads this
    {
      config.consecutiveSuccesses != 0 && (config.Sound() ==> Inv(config, View()))
    }

    constructor (c: Option<Config>, now: int)
      ensures Valid() && View() == Fresh(now)
      ensures config == if c.None? then DEFAULT_CONFIG else c.value.WithDefaults()
      ensures c.Some? ==>
                && config.failureThreshold == c.value.failureThreshold && config.failureRate == c.value.failureRate
                && config.adaptiveThresholds == c.value.adaptiveThresholds
                && config.recoveryTimeout
                     == (if c.value.recoveryTimeout != 0 then c.value.recoveryTimeout else 30_000_000_000)
                && config.consecutiveSuccesses
                     == (if c.value.consecutiveSuccesses != 0 then c.value.consecutiveSuccesses else 3)
                && config.halfOpenMaxRequests
                     == (if c.value.halfOpenMaxRequests != 0 then c.value.halfOpenMaxRequests else 2)
                && config.resetTimeout == (if c.value.resetTimeout != 0 then c.value.resetTimeout else 60_000_000_000)
    {
      config := (if c.None? then DEFAULT_CONFIG else c.value).WithDefaults();
      state, lastStateChange, lastFailTime, lastRequestTime := Closed, now, Never, Never;
      failureCount, successCount, halfOpenRequestCount, consecutiveFailures := 0, 0, 0, 0;
      totalRequests, totalFailures, totalSuccesses := 0, 0, 0;
      stateTransitions := map[];
    }

    method CanExecute(now: int) returns (ok: bool)
      requires Valid()
      modifies this
      ensures Valid()
      ensures ok == Admits(config, old(View()), now)
      ensures View() == Asked(config, old(View()), now)
    {
      lastRequestTime := At(now);
      totalRequests := totalRequests + 1;
      match state
      case Closed =>
        if config.resetTimeout > 0 && (lastFailTime == Never || now - lastFailTime.time > config.resetTimeout) {
          ResetFailureCount();
        }
        ok := true;
      case Open =>
        ok := now - lastStateChange >= config.recoveryTimeout;
        if ok {
          TransitionToHalfOpen(now);
          halfOpenRequestCount := halfOpenRequestCount + 1;
        }
      case HalfOpen =>
        ok := halfOpenRequestCount < config.halfOpenMaxRequests;
        if ok {
          halfOpenRequestCount := halfOpenRequestCount + 1;
        }
    }

    method RecordSuccess(now: int)
      requires Valid()
      modifies this
      ensures Valid() && View() == Succeeded(config, old(View()), now)
    {
      totalSuccesses := totalSuccesses + 1;
      consecutiveFailures := 0;
      match state
      case Closed =>
        var trips := ShouldOpenCircuit();
        if trips { TransitionToOpen(now); }
      case HalfOpen =>
        successCount := successCount + 1;
        if successCount >= config.consecutiveSuccesses { TransitionToClosed(now); }
      case Open =>
        TransitionToHalfOpen(now);
    }

    method RecordFailure(now: int)
      requires Valid()
      modifies this
      ensures Valid() && View() == Failed(config, old(View()), now)
    {
      failureCount := failureCount + 1;
      totalFailures := totalFailures + 1;
      consecutiveFailures := consecutiveFailures + 1;
      lastFailTime := At(now);
      match state
      case Closed =>
        var trips := ShouldOpenCircuit();
        if trips { TransitionToOpen(now); }
      case HalfOpen =>
        TransitionToOpen(now);
      case Open =>
    }

    method Reset(now: int)
      requires Valid()
      modifies this
      ensures Valid() && View() == Fresh(now)
    {
      ClearTransitions();
      state := Closed;
      failureCount, successCount, halfOpenRequestCount, consecutiveFailures := 0, 0, 0, 0;
      totalRequests, totalFailures, totalSuccesses := 0, 0, 0;
      lastStateChange, lastFailTime, lastRequestTime := now, Never, Never;
    }

    method ClearTransitions()
      modifies `stateTransitions
      ensures forall s :: Entries(stateTransitions, s) == 0
    {
      stateTransitions := map s | s in stateTransitions :: 0;
    }

    method ForceOpen(now: int)
      requires Valid()
      modifies this
      ensures Valid() && View() == ToOpen(old(View()), now)
    {
      TransitionToOpen(now);
    }

    method ForceClose(now: int)
      requires Valid()
      modifies this
      ensures Valid() && View() == ToClosed(old(View()), now)
    {
      TransitionToClosed(now);
    }

    /** In range whenever the limits make sense and no more successes were recorded than requests were counted. With
        a zero threshold it is not a number as soon as a request was counted while closed. */
    method GetHealthScore() returns (score: Score)
      requires Valid()
      ensures score == HealthScore(config, View())
      ensures config.Sound() && totalSuccesses <= totalRequests ==> score.InUnit()
      ensures score.Number? <==> !(state == Closed && totalRequests > 0 && config.failureThreshold == 0)
    {
      if config.Sound() && totalSuccesses <= totalRequests {
        HealthScoreInRange(config, View());
      }
      match state
      case Closed =>
        if totalRequests == 0 { return Number(1.0); }
        if config.failureThreshold == 0 {
          return if consecutiveFailures == 0 || totalSuccesses == 0 then NaN else MinusInfinity;
        }
        var successRate := totalSuccesses as real / totalRequests as real;
        var failurePenalty := consecutiveFailures as real / config.failureThreshold as real;
        score := Number(successRate * (1.0 - failurePenalty * 0.5));
      case HalfOpen =>
        if successCount == 0 { return Number(0.3); }
        score := Number(0.3 + 0.4 * successCount as real / config.consecutiveSuccesses as real);
      case Open =>
        score := Number(0.0);
    }

    method ShouldOpenCircuit() returns (trips: bool)
      ensures trips == Trips(config, View())
    {
      if failureCount >= config.failureThreshold { return true; }
      if config.failureRate > 0.0 && totalRequests >= config.minRequestsThreshold {
        if AtLeast(totalFailures, totalRequests, config.failureRate) { return true; }
      }
      if config.adaptiveThresholds {
        if totalRequests < config.requestVolumeThreshold { return false; }
        var adjusted := config.failureThreshold;
        if totalRequests > config.requestVolumeThreshold * 2 { adjusted := TwoThirds(adjusted); }
        return Concentrated(consecutiveFailures, adjusted);
      }
      return false;
    }

    method TransitionToOpen(now: int)
      modifies `state, `lastStateChange, `stateTransitions
      ensures View() == ToOpen(old(View()), now)
    {
      if state != Open {
        state := Open;
        lastStateChange := now;
        stateTransitions := stateTransitions[Open := Entries(stateTransitions, Open) + 1];
      }
    }

    method TransitionToHalfOpen(now: int)
      modifies `state, `lastStateChange, `stateTransitions, `successCount, `halfOpenRequestCount
      ensures View() == ToHalfOpen(old(View()), now)
    {
      if state != HalfOpen {
        state := HalfOpen;
        lastStateChange := now;
        successCount := 0;
        halfOpenRequestCount := 0;
        stateTransitions := stateTransitions[HalfOpen := Entries(stateTransitions, HalfOpen) + 1];
      }
    }

    method TransitionToClosed(now: int)
      modifies `state, `lastStateChange, `stateTransitions, `successCount, `halfOpenRequestCount
      modifies `failureCount, `consecutiveFailures
      ensures View() == ToClosed(old(View()), now)
    {
      if state != Closed {
        state := Closed;
        lastStateChange := now;
        ResetFailureCount();
        successCount := 0;
        halfOpenRequestCount := 0;
        stateTransitions := stateTransitions[Closed := Entries(stateTransitions, Closed) + 1];
      }
    }

    method ResetFailureCount()
      modifies `failureCount, `consecutiveFailures
      ensures failureCount == 0 && consecutiveFailures == 0
    {
      failureCount := 0;
      consecutiveFailures := 0;
    }
  }
}
