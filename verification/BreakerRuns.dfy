/** Whole runs of the circuit breaker: many clients that each record once per admission, and the serial
    client that has at most one request out. */
module BreakerRuns {
  import opened CircuitBreaker

  /** The breaker with the clients' side: requests admitted and not yet recorded, and requests refused. */
  datatype Sys = Sys(b: Breaker, inFlight: nat, refused: nat, now: int)

  datatype Event =
    | Ask(at: int) | Succeed(at: int) | Fail(at: int)
    | Reset(at: int) | ForceOpen(at: int) | ForceClose(at: int)

  ghost predicate Enabled(s: Sys, e: Event) {
    && s.now <= e.at
    && (e.Succeed? || e.Fail? ==> s.inFlight > 0)
    && (e.Reset? ==> s.inFlight == 0)
  }

  ghost predicate Admitted(c: Config, s: Sys, e: Event) {
    e.Ask? && Admits(c, s.b, e.at)
  }

  ghost function Next(c: Config, s: Sys, e: Event): Sys
    requires Enabled(s, e)
  {
    match e
    case Ask(at) =>
      var b := Asked(c, s.b, at);
      if Admits(c, s.b, at) then Sys(b, s.inFlight + 1, s.refused, at) else Sys(b, s.inFlight, s.refused + 1, at)
    case Succeed(at) => Sys(Succeeded(c, s.b, at), s.inFlight - 1, s.refused, at)
    case Fail(at) => Sys(Failed(c, s.b, at), s.inFlight - 1, s.refused, at)
    case Reset(at) => Sys(Fresh(at), 0, 0, at)
    case ForceOpen(at) => Sys(ToOpen(s.b, at), s.inFlight, s.refused, at)
    case ForceClose(at) => Sys(ToClosed(s.b, at), s.inFlight, s.refused, at)
  }

  /** states[i + 1] is states[i] after events[i]. */
  ghost predicate Trace(c: Config, states: seq<Sys>, events: seq<Event>) {
    && |states| == |events| + 1
    && forall i :: 0 <= i < |events| ==>
         Enabled(states[i], events[i]) && states[i + 1] == Next(c, states[i], events[i])
  }

  ghost predicate Begins(c: Config, states: seq<Sys>, events: seq<Event>) {
    Trace(c, states, events) && exists now: int :: states[0] == Sys(Fresh(now), 0, 0, now)
  }

  // Any number of clients.

  /** Every request counted is recorded as a success or a failure, refused, or still in flight. */
  ghost predicate Accounted(s: Sys) {
    s.b.totalRequests == s.b.totalSuccesses + s.b.totalFailures + s.inFlight + s.refused
  }

  lemma ManyClients(c: Config, states: seq<Sys>, events: seq<Event>, i: nat)
    requires c.Sound() && Begins(c, states, events) && i < |states|
    ensures Inv(c, states[i].b) && Accounted(states[i])
    ensures HealthScore(c, states[i].b).InUnit()
  {
    TraceKeeps(c, states, events, i);
    HealthScoreInRange(c, states[i].b);
  }

  lemma {:induction false} TraceKeeps(c: Config, states: seq<Sys>, events: seq<Event>, i: nat)
    requires c.Sound() && Begins(c, states, events) && i < |states|
    ensures Inv(c, states[i].b) && Accounted(states[i])
  {
    if i > 0 {
      var k := i - 1;
      TraceKeeps(c, states, events, k);
      assert Enabled(states[k], events[k]) && states[k + 1] == Next(c, states[k], events[k]);
      StepKeeps(c, states[k], events[k]);
    }
  }

  lemma StepKeeps(c: Config, s: Sys, e: Event)
    requires c.Sound() && Enabled(s, e) && Inv(c, s.b) && Accounted(s)
    ensures Inv(c, Next(c, s, e).b) && Accounted(Next(c, s, e))
  {
    CallsKeepInv(c, s.b, e.at);
    AccountedStep(c, s, e);
  }

  lemma AccountedStep(c: Config, s: Sys, e: Event)
    requires Enabled(s, e) && Accounted(s)
    ensures Accounted(Next(c, s, e))
  {
  }

  ghost function Admissions(c: Config, states: seq<Sys>, events: seq<Event>, lo: nat, hi: nat): nat
    requires |states| == |events| + 1 && lo <= hi <= |events|
  {
    if lo == hi then 0
    else Admissions(c, states, events, lo, hi - 1) + if Admitted(c, states[hi - 1], events[hi - 1]) then 1 else 0
  }

  /** events[lo..hi] is (part of) one half-open epoch: event lo enters HALF_OPEN and none leaves it. */
  ghost predicate Epoch(states: seq<Sys>, events: seq<Event>, lo: nat, hi: nat)
    requires |states| == |events| + 1
  {
    && lo < hi <= |events| && states[lo].b.state != HalfOpen
    && forall k :: lo < k <= hi ==> states[k].b.state == HalfOpen
  }

  /** In a half-open epoch halfOpenRequestCount counts the admissions, the one that opened it included. */
  lemma {:induction false} EpochCount(c: Config, states: seq<Sys>, events: seq<Event>, lo: nat, hi: nat)
    requires Trace(c, states, events) && Epoch(states, events, lo, hi)
    ensures Admissions(c, states, events, lo, hi) == states[hi].b.halfOpenRequestCount
    decreases hi
  {
    var k := hi - 1;
    assert Enabled(states[k], events[k]) && states[k + 1] == Next(c, states[k], events[k]);
    if k == lo {
      assert Admissions(c, states, events, lo, lo) == 0;
    } else {
      EpochCount(c, states, events, lo, k);
    }
  }

  /** Each half-open epoch admits at most HalfOpenMaxRequests, however many clients there are. */
  lemma EpochBound(c: Config, states: seq<Sys>, events: seq<Event>, lo: nat, hi: nat)
    requires c.Sound() && Begins(c, states, events) && Epoch(states, events, lo, hi)
    ensures Admissions(c, states, events, lo, hi) <= c.halfOpenMaxRequests
  {
    EpochCount(c, states, events, lo, hi);
    ManyClients(c, states, events, hi);
  }

  /** Without ForceClose the state history balances: every opening but the current one was followed by a
      half-opening, and every closing by one of those. */
  lemma {:induction false} EntriesBalance(c: Config, states: seq<Sys>, events: seq<Event>, i: nat)
    requires Begins(c, states, events) && i < |states|
    requires forall k :: 0 <= k < |events| ==> !events[k].ForceClose?
    ensures var b := states[i].b;
            && b.openings == b.halfOpenings + (if b.state == Open then 1 else 0)
            && b.closings + (if b.state == HalfOpen then 1 else 0) <= b.halfOpenings
  {
    if i > 0 {
      EntriesBalance(c, states, events, i - 1);
      var k := i - 1;
      assert !events[k].ForceClose? && Enabled(states[k], events[k]);
      assert states[k + 1] == Next(c, states[k], events[k]);
    }
  }

  // The serial client: one request at a time, no Reset and no Force.

  ghost predicate Serial(states: seq<Sys>, events: seq<Event>)
    requires |states| == |events| + 1
  {
    forall i :: 0 <= i < |events| ==>
      && (events[i].Ask? || events[i].Succeed? || events[i].Fail?)
      && (events[i].Ask? ==> states[i].inFlight == 0)
  }

  ghost predicate SerialInv(s: Sys) {
    && s.inFlight <= 1
    && (s.b.state == Open ==> s.inFlight == 0)
    && (s.b.state == HalfOpen ==> s.b.successCount + s.inFlight == s.b.halfOpenRequestCount)
  }

  lemma {:induction false} SerialRuns(c: Config, states: seq<Sys>, events: seq<Event>, i: nat)
    requires Begins(c, states, events) && Serial(states, events) && i < |states|
    ensures SerialInv(states[i])
  {
    if i > 0 {
      SerialRuns(c, states, events, i - 1);
      var k := i - 1;
      assert events[k].Ask? ==> states[k].inFlight == 0;
      assert Enabled(states[k], events[k]) && states[k + 1] == Next(c, states[k], events[k]);
    }
  }

  /** Nothing is in flight while the circuit is open, so the exit a late success offers is never taken. */
  lemma NoLateSuccess(c: Config, states: seq<Sys>, events: seq<Event>, i: nat)
    requires Begins(c, states, events) && Serial(states, events) && i < |events|
    ensures states[i].b.state == Open ==> states[i].inFlight == 0 && events[i].Ask?
  {
    SerialRuns(c, states, events, i);
    assert Enabled(states[i], events[i]);
  }

  ghost predicate Opening(states: seq<Sys>, i: nat)
    requires i + 1 < |states|
  {
    states[i].b.state != Open && states[i + 1].b.state == Open
  }

  /** Until RecoveryTimeout after the opening the circuit is still open from it. */
  lemma {:induction false} OpenUntilTimeout(c: Config, states: seq<Sys>, events: seq<Event>, i: nat, j: nat)
    requires Begins(c, states, events) && Serial(states, events)
    requires i < j < |states| && Opening(states, i)
    ensures states[j].now >= events[i].at
    ensures (states[j].b.state == Open && states[j].b.lastStateChange == events[i].at)
            || states[j].now - events[i].at >= c.recoveryTimeout
    decreases j
  {
    assert Enabled(states[j - 1], events[j - 1]) && states[j - 1 + 1] == Next(c, states[j - 1], events[j - 1]);
    if j > i + 1 {
      OpenUntilTimeout(c, states, events, i, j - 1);
      NoLateSuccess(c, states, events, j - 1);
    }
  }

  /** Every admission after an opening comes at least RecoveryTimeout after it. */
  lemma AdmissionWaits(c: Config, states: seq<Sys>, events: seq<Event>, i: nat, j: nat)
    requires Begins(c, states, events) && Serial(states, events)
    requires i < j < |events| && Opening(states, i) && Admitted(c, states[j], events[j])
    ensures events[j].at - events[i].at >= c.recoveryTimeout
  {
    OpenUntilTimeout(c, states, events, i, j);
    assert Enabled(states[j], events[j]);
  }

  /** With two clients that fails: a success recorded after the opening half-opens the circuit at once. */
  lemma LateSuccessSkipsTimeout(c: Config, now: int) returns (states: seq<Sys>, events: seq<Event>)
    requires c.failureThreshold == 1 && c.Sound() && c.recoveryTimeout > 0
    requires !c.adaptiveThresholds && c.failureRate <= 0.0
    ensures Begins(c, states, events) && |events| == 5
    ensures Opening(states, 2) && Admitted(c, states[4], events[4])
    ensures events[4].at - events[2].at < c.recoveryTimeout
  {
    events := [Ask(now), Ask(now), Fail(now), Succeed(now), Ask(now)];
    var s0 := Sys(Fresh(now), 0, 0, now);
    var s1 := Next(c, s0, events[0]);
    var s2 := Next(c, s1, events[1]);
    var s3 := Next(c, s2, events[2]);
    var s4 := Next(c, s3, events[3]);
    states := [s0, s1, s2, s3, s4, Next(c, s4, events[4])];
  }

  // Recovery.

  /** With ConsecutiveSuccesses above HalfOpenMaxRequests an opened breaker never closes again, whatever
      the serial client's outcomes and however long it waits. */
  lemma {:induction false} NeverCloses(c: Config, states: seq<Sys>, events: seq<Event>, i: nat, j: nat)
    requires c.Sound() && c.consecutiveSuccesses > c.halfOpenMaxRequests
    requires Begins(c, states, events) && Serial(states, events)
    requires i <= j < |states| && states[i].b.state != Closed
    ensures states[j].b.state != Closed
    decreases j
  {
    if i < j {
      var k := j - 1;
      NeverCloses(c, states, events, i, k);
      SerialRuns(c, states, events, k);
      ManyClients(c, states, events, k);
      assert events[k].Ask? || events[k].Succeed? || events[k].Fail?;
      assert Enabled(states[k], events[k]) && states[k + 1] == Next(c, states[k], events[k]);
    }
  }

  /** One admission that succeeds. */
  ghost function Round(c: Config, s: Sys, at: int): Sys
    requires s.now <= at
  {
    var a := Next(c, s, Ask(at));
    if Admits(c, s.b, at) then Next(c, a, Succeed(at)) else a
  }

  ghost predicate Ordered(now: int, times: seq<int>) {
    forall k :: 0 <= k < |times| ==> now <= times[k] && forall m :: k <= m < |times| ==> times[k] <= times[m]
  }

  /** A serial client asks at each time and every admitted request succeeds. */
  ghost function Rounds(c: Config, s: Sys, times: seq<int>): Sys
    requires Ordered(s.now, times)
    ensures times != [] ==> Rounds(c, s, times).now == times[|times| - 1]
    ensures times == [] ==> Rounds(c, s, times) == s
  {
    if times == [] then s else Round(c, Rounds(c, s, times[..|times| - 1]), times[|times| - 1])
  }

  /** An open breaker whose timeout has passed when the client next asks. */
  ghost predicate Due(c: Config, s: Sys, times: seq<int>) {
    && s.b.state == Open && s.inFlight == 0 && Ordered(s.now, times)
    && times != [] && times[0] - s.b.lastStateChange >= c.recoveryTimeout
  }

  /** While both limits allow, each round is admitted and counts. */
  lemma {:induction false} RoundsCount(c: Config, s: Sys, times: seq<int>)
    requires c.Probes() && Due(c, s, times)
    requires |times| < c.consecutiveSuccesses && |times| <= c.halfOpenMaxRequests
    ensures var t := Rounds(c, s, times);
            && t.b.state == HalfOpen && t.inFlight == 0 && t.refused == s.refused
            && t.b.successCount == |times| == t.b.halfOpenRequestCount
  {
    var n := |times| - 1;
    if n == 0 {
      assert times[..n] == [];
    } else {
      RoundsCount(c, s, times[..n]);
    }
  }

  /** When ConsecutiveSuccesses <= HalfOpenMaxRequests, exactly ConsecutiveSuccesses successful admissions
      close the breaker: none is refused, and one fewer leaves it HALF_OPEN. */
  lemma RecoversExactly(c: Config, s: Sys, times: seq<int>)
    requires c.Probes() && c.consecutiveSuccesses <= c.halfOpenMaxRequests
    requires Due(c, s, times) && |times| == c.consecutiveSuccesses
    ensures Rounds(c, s, times).b.state == Closed && Rounds(c, s, times).refused == s.refused
    ensures forall k :: 0 < k < |times| ==> Rounds(c, s, times[..k]).b.state == HalfOpen
  {
    LastRoundCloses(c, s, times);
    forall k | 0 < k < |times| ensures Rounds(c, s, times[..k]).b.state == HalfOpen {
      RoundsCount(c, s, times[..k]);
    }
  }

  lemma LastRoundCloses(c: Config, s: Sys, times: seq<int>)
    requires c.Probes() && c.consecutiveSuccesses <= c.halfOpenMaxRequests
    requires Due(c, s, times) && |times| == c.consecutiveSuccesses
    ensures Rounds(c, s, times).b.state == Closed && Rounds(c, s, times).refused == s.refused
  {
    var n := |times| - 1;
    if n == 0 {
      assert times[..n] == [];
    } else {
      RoundsCount(c, s, times[..n]);
    }
  }

  /** Half-open with its admissions used up and none of them outstanding. */
  ghost predicate Wedged(c: Config, s: Sys) {
    s.b.state == HalfOpen && s.b.halfOpenRequestCount >= c.halfOpenMaxRequests && s.inFlight == 0
  }

  /** Otherwise HalfOpenMaxRequests successes use up the admissions without closing it. */
  lemma RecoveryWedges(c: Config, s: Sys, times: seq<int>)
    requires c.Probes() && c.consecutiveSuccesses > c.halfOpenMaxRequests
    requires Due(c, s, times) && |times| == c.halfOpenMaxRequests
    ensures Wedged(c, Rounds(c, s, times))
  {
    RoundsCount(c, s, times);
  }

  /** However long the client goes on, it does not close. */
  lemma {:induction false} RoundsStayHalfOpen(c: Config, s: Sys, times: seq<int>)
    requires c.Probes() && c.consecutiveSuccesses > c.halfOpenMaxRequests && Due(c, s, times)
    ensures Rounds(c, s, times).b.state == HalfOpen && Rounds(c, s, times).inFlight == 0
    ensures |times| >= c.halfOpenMaxRequests ==> Wedged(c, Rounds(c, s, times))
  {
    if |times| <= c.halfOpenMaxRequests {
      RoundsCount(c, s, times);
    } else {
      RoundsStayHalfOpen(c, s, times[..|times| - 1]);
    }
  }

  /** A serial client whose requests all succeed can close an opened breaker exactly when ConsecutiveSuccesses is
      at most HalfOpenMaxRequests. */
  lemma SerialRecoverableExactly(c: Config, s: Sys, at: int)
    requires c.Probes() && s.b.state == Open && s.inFlight == 0 && s.now <= at
    requires at - s.b.lastStateChange >= c.recoveryTimeout
    ensures (exists times: seq<int> :: Due(c, s, times) && Rounds(c, s, times).b.state == Closed)
            <==> c.consecutiveSuccesses <= c.halfOpenMaxRequests
  {
    if c.consecutiveSuccesses <= c.halfOpenMaxRequests {
      var times := seq(c.consecutiveSuccesses, _ => at);
      LastRoundCloses(c, s, times);
    } else {
      forall times: seq<int> | Due(c, s, times) ensures Rounds(c, s, times).b.state != Closed {
        RoundsStayHalfOpen(c, s, times);
      }
    }
  }

  /** A wedged breaker refuses every request of every client at every later time, until Reset or Force. */
  lemma {:induction false} WedgedForever(c: Config, states: seq<Sys>, events: seq<Event>, i: nat)
    requires Trace(c, states, events) && Wedged(c, states[0]) && i < |states|
    requires forall k :: 0 <= k < |events| ==> events[k].Ask? || events[k].Succeed? || events[k].Fail?
    ensures Wedged(c, states[i])
    ensures i < |events| ==> events[i].Ask? && !Admitted(c, states[i], events[i])
  {
    if i > 0 {
      WedgedForever(c, states, events, i - 1);
      assert states[i - 1 + 1] == Next(c, states[i - 1], events[i - 1]);
    }
    if i < |events| {
      assert Enabled(states[i], events[i]);
    }
  }

  /** The configuration NewErrorRecovery builds leaves HalfOpenMaxRequests unset. */
  function RecoveryConfig(failureThreshold: int, recoveryTimeout: int, consecutiveSuccesses: int): Config {
    Config(failureThreshold, 0.0, 0, recoveryTimeout, consecutiveSuccesses, 0, 0, false, 0).WithDefaults()
  }

  /** The defaults of NewErrorRecovery, and every other choice of at least three successes, wedge after two. */
  lemma DefaultRecoveryWedges(failureThreshold: int, recoveryTimeout: int, successes: int, s: Sys, times: seq<int>)
    requires successes == 0 || successes >= 3
    requires Due(RecoveryConfig(failureThreshold, recoveryTimeout, successes), s, times) && |times| == 2
    ensures var c := RecoveryConfig(failureThreshold, recoveryTimeout, successes);
            c.halfOpenMaxRequests == 2 < c.consecutiveSuccesses && Wedged(c, Rounds(c, s, times))
  {
    RecoveryWedges(RecoveryConfig(failureThreshold, recoveryTimeout, successes), s, times);
  }

  /** NewEnhancedEngine sets none of the breaker's limits. With no threshold, and only then, a first operation that
      succeeds opens the circuit; and after the timeout two more successes leave it refusing everything. */
  lemma EngineStalls(failureThreshold: int, recoveryTimeout: int, successes: int, now: int, at: int, times: seq<int>)
    requires now <= at && (successes == 0 || successes >= 3)
    ensures var c := RecoveryConfig(failureThreshold, recoveryTimeout, successes);
            var first := Round(c, Sys(Fresh(now), 0, 0, now), at);
            && (first.b.state == Open <==> failureThreshold <= 0)
            && (Due(c, first, times) && |times| == 2 ==> Wedged(c, Rounds(c, first, times)))
  {
    var c := RecoveryConfig(failureThreshold, recoveryTimeout, successes);
    var first := Round(c, Sys(Fresh(now), 0, 0, now), at);
    SuccessTripsExactly(c, Asked(c, Fresh(now), at), at);
    if Due(c, first, times) && |times| == 2 {
      DefaultRecoveryWedges(failureThreshold, recoveryTimeout, successes, first, times);
    }
  }
}
