/** Exact conditions for what the breaker's clients can bring about. */
module BreakerLimits {
  import opened CircuitBreaker
  import opened BreakerRuns

  ghost predicate Path(c: Config, s: Sys, events: seq<Event>, t: Sys)
    decreases |events|
  {
    if events == [] then s == t
    else Enabled(s, events[0]) && Path(c, Next(c, s, events[0]), events[1..], t)
  }

  /** Requests and their outcomes; failures only where they are allowed. */
  ghost predicate Call(e: Event, failures: bool) { e.Ask? || e.Succeed? || (failures && e.Fail?) }

  ghost predicate Calls(events: seq<Event>, failures: bool) {
    forall k :: 0 <= k < |events| ==> Call(events[k], failures)
  }

  lemma {:induction false} PathMovesOn(c: Config, s: Sys, events: seq<Event>, t: Sys)
    requires Path(c, s, events, t)
    ensures s.now <= t.now
    decreases |events|
  {
    if events != [] {
      PathMovesOn(c, Next(c, s, events[0]), events[1..], t);
    }
  }

  // Admission before the timeout.

  /** Some continuation admits a request less than RecoveryTimeout after this opening. */
  ghost predicate AdmitsEarly(c: Config, s: Sys) {
    exists events: seq<Event>, t: Sys, at: int ::
      && Calls(events, true) && Path(c, s, events, t)
      && t.now <= at && Admits(c, t.b, at) && at - s.b.lastStateChange < c.recoveryTimeout
  }

  /** With nothing in flight an open breaker sits until its timeout. */
  lemma {:induction false} Sits(c: Config, s: Sys, events: seq<Event>, t: Sys)
    requires s.b.state == Open && s.inFlight == 0 && Calls(events, true) && Path(c, s, events, t)
    requires t.now - s.b.lastStateChange < c.recoveryTimeout
    ensures t.b.state == Open && t.inFlight == 0 && t.b.lastStateChange == s.b.lastStateChange
    decreases |events|
  {
    if events != [] {
      assert Call(events[0], true);
      PathMovesOn(c, Next(c, s, events[0]), events[1..], t);
      Sits(c, Next(c, s, events[0]), events[1..], t);
    }
  }

  /** From an open breaker before its timeout, a request can be admitted before the timeout exactly when some
      request is still in flight: its success half-opens the breaker at once. */
  lemma EarlyAdmissionExactly(c: Config, s: Sys)
    requires c.Probes() && s.b.state == Open && s.now - s.b.lastStateChange < c.recoveryTimeout
    ensures AdmitsEarly(c, s) <==> s.inFlight > 0
  {
    if s.inFlight > 0 {
      var late := [Succeed(s.now)];
      var t := Next(c, s, late[0]);
      assert late[1..] == [] && Path(c, t, [], t);
      assert Path(c, s, late, t) && Admits(c, t.b, t.now);
    } else if AdmitsEarly(c, s) {
      var events: seq<Event>, t: Sys, at: int :|
        && Calls(events, true) && Path(c, s, events, t)
        && t.now <= at && Admits(c, t.b, at) && at - s.b.lastStateChange < c.recoveryTimeout;
      Sits(c, s, events, t);
    }
  }

  // Closing again.

  ghost predicate Closes(c: Config, s: Sys, failures: bool) {
    exists events: seq<Event>, t: Sys :: Calls(events, failures) && Path(c, s, events, t) && t.b.state == Closed
  }

  lemma Already(c: Config, s: Sys, failures: bool)
    requires s.b.state == Closed
    ensures Closes(c, s, failures)
  {
    assert Calls([], failures) && Path(c, s, [], s);
  }

  lemma Before(c: Config, s: Sys, e: Event, failures: bool)
    requires Enabled(s, e) && Call(e, failures) && Closes(c, Next(c, s, e), failures)
    ensures Closes(c, s, failures)
  {
    var events: seq<Event>, t: Sys :|
      Calls(events, failures) && Path(c, Next(c, s, e), events, t) && t.b.state == Closed;
    var more := [e] + events;
    assert more[1..] == events;
    assert Calls(more, failures) && Path(c, s, more, t);
  }

  /** Enough requests are in flight. */
  lemma {:induction false} SuccessesClose(c: Config, s: Sys, failures: bool)
    requires s.b.state == HalfOpen && s.b.successCount < c.consecutiveSuccesses <= s.b.successCount + s.inFlight
    ensures Closes(c, s, failures)
    decreases c.consecutiveSuccesses - s.b.successCount
  {
    var t := Next(c, s, Succeed(s.now));
    if t.b.state == Closed {
      Already(c, t, failures);
    } else {
      SuccessesClose(c, t, failures);
    }
    Before(c, s, Succeed(s.now), failures);
  }

  /** Enough requests are in flight or can still be admitted. */
  lemma {:induction false} ProbesClose(c: Config, s: Sys, failures: bool)
    requires s.b.state == HalfOpen && s.b.successCount < c.consecutiveSuccesses
    requires s.b.halfOpenRequestCount <= c.halfOpenMaxRequests
    requires c.consecutiveSuccesses
             <= s.b.successCount + s.inFlight + c.halfOpenMaxRequests - s.b.halfOpenRequestCount
    ensures Closes(c, s, failures)
    decreases c.halfOpenMaxRequests - s.b.halfOpenRequestCount
  {
    if c.consecutiveSuccesses <= s.b.successCount + s.inFlight {
      SuccessesClose(c, s, failures);
    } else {
      ProbesClose(c, Next(c, s, Ask(s.now)), failures);
      Before(c, s, Ask(s.now), failures);
    }
  }

  /** The first time at which an open breaker may be asked again. */
  ghost function DueAt(c: Config, s: Sys): int {
    if s.now - s.b.lastStateChange >= c.recoveryTimeout then s.now else s.b.lastStateChange + c.recoveryTimeout
  }

  lemma DueCloses(c: Config, s: Sys, failures: bool)
    requires c.Probes() && s.b.state == Open && c.consecutiveSuccesses <= c.halfOpenMaxRequests + s.inFlight
    ensures Closes(c, s, failures)
  {
    ProbesClose(c, Next(c, s, Ask(DueAt(c, s))), failures);
    Before(c, s, Ask(DueAt(c, s)), failures);
  }

  /** Two probes of which one fails leave the breaker open with one more request in flight. */
  lemma {:induction false} FailuresGather(c: Config, s: Sys)
    requires c.Probes() && s.b.state == Open && c.halfOpenMaxRequests >= 2
    ensures Closes(c, s, true)
    decreases c.consecutiveSuccesses - s.inFlight
  {
    if c.consecutiveSuccesses <= c.halfOpenMaxRequests + s.inFlight {
      DueCloses(c, s, true);
    } else {
      var at := DueAt(c, s);
      var s1 := Next(c, s, Ask(at));
      var s2 := Next(c, s1, Ask(at));
      FailuresGather(c, Next(c, s2, Fail(at)));
      Before(c, s2, Fail(at), true);
      Before(c, s1, Ask(at), true);
      Before(c, s, Ask(at), true);
    }
  }

  /** The successes an epoch can still see are those in flight at the opening and those it admits. */
  ghost predicate Budgeted(c: Config, s: Sys, f: nat) {
    && s.b.state != Closed
    && (s.b.state == Open ==> s.inFlight <= f)
    && (s.b.state == HalfOpen ==>
          && s.b.halfOpenRequestCount <= c.halfOpenMaxRequests
          && s.b.successCount + s.inFlight <= f + s.b.halfOpenRequestCount)
  }

  lemma {:induction false} BudgetHolds(c: Config, s: Sys, events: seq<Event>, t: Sys, f: nat, failures: bool)
    requires c.Probes() && c.consecutiveSuccesses > c.halfOpenMaxRequests + f
    requires failures ==> c.halfOpenMaxRequests == 1
    requires Budgeted(c, s, f) && Calls(events, failures) && Path(c, s, events, t)
    ensures Budgeted(c, t, f)
    decreases |events|
  {
    if events != [] {
      assert Call(events[0], failures);
      BudgetHolds(c, Next(c, s, events[0]), events[1..], t, f, failures);
    }
  }

  lemma BudgetForbids(c: Config, s: Sys, failures: bool)
    requires c.Probes() && s.b.state == Open && c.consecutiveSuccesses > c.halfOpenMaxRequests + s.inFlight
    requires failures ==> c.halfOpenMaxRequests == 1
    ensures !Closes(c, s, failures)
  {
    forall events: seq<Event>, t: Sys | Calls(events, failures) && Path(c, s, events, t) ensures t.b.state != Closed {
      BudgetHolds(c, s, events, t, s.inFlight, failures);
    }
  }

  /** Any number of clients can close an open breaker by successes alone exactly when ConsecutiveSuccesses is at
      most HalfOpenMaxRequests plus the requests in flight. */
  lemma RecoverableExactly(c: Config, s: Sys)
    requires c.Probes() && s.b.state == Open
    ensures Closes(c, s, false) <==> c.consecutiveSuccesses <= c.halfOpenMaxRequests + s.inFlight
  {
    if c.consecutiveSuccesses <= c.halfOpenMaxRequests + s.inFlight {
      DueCloses(c, s, false);
    } else {
      BudgetForbids(c, s, false);
    }
  }

  /** With failures allowed they can close it exactly when that holds or two probes are admitted at a time: then
      failed epochs gather requests in flight. */
  lemma ClosableExactly(c: Config, s: Sys)
    requires c.Probes() && s.b.state == Open
    ensures Closes(c, s, true) <==>
              c.consecutiveSuccesses <= c.halfOpenMaxRequests + s.inFlight || c.halfOpenMaxRequests >= 2
  {
    if c.consecutiveSuccesses <= c.halfOpenMaxRequests + s.inFlight {
      DueCloses(c, s, true);
    } else if c.halfOpenMaxRequests >= 2 {
      FailuresGather(c, s);
    } else {
      BudgetForbids(c, s, true);
    }
  }

  // Opening on a success.

  lemma {:induction false} ClosedBelowThreshold(c: Config, states: seq<Sys>, events: seq<Event>, i: nat)
    requires c.failureThreshold >= 1 && Begins(c, states, events) && i < |states|
    ensures states[i].b.state == Closed ==> states[i].b.failureCount < c.failureThreshold
  {
    if i > 0 {
      var k := i - 1;
      ClosedBelowThreshold(c, states, events, k);
      assert Enabled(states[k], events[k]) && states[k + 1] == Next(c, states[k], events[k]);
    }
  }

  /** Event i records a success that opens a closed breaker. */
  ghost predicate SuccessOpens(c: Config, states: seq<Sys>, events: seq<Event>, i: nat) {
    && Begins(c, states, events) && i < |events| && events[i].Succeed?
    && states[i].b.state == Closed && states[i + 1].b.state == Open
  }

  /** With the rate and adaptive rules off, some run of some clients has a success that opens the closed breaker
      exactly when FailureThreshold is zero or less. */
  lemma SuccessOpensExactly(c: Config)
    requires c.failureRate <= 0.0 && !c.adaptiveThresholds
    ensures (exists states: seq<Sys>, events: seq<Event>, i: nat :: SuccessOpens(c, states, events, i))
            <==> c.failureThreshold <= 0
  {
    if c.failureThreshold <= 0 {
      var s0 := Sys(Fresh(0), 0, 0, 0);
      var s1 := Next(c, s0, Ask(0));
      assert SuccessOpens(c, [s0, s1, Next(c, s1, Succeed(0))], [Ask(0), Succeed(0)], 1);
    } else {
      forall states: seq<Sys>, events: seq<Event>, i: nat ensures !SuccessOpens(c, states, events, i) {
        if SuccessOpens(c, states, events, i) {
          ClosedBelowThreshold(c, states, events, i);
          assert Enabled(states[i], events[i]) && states[i + 1] == Next(c, states[i], events[i]);
          SuccessTripsExactly(c, states[i].b, events[i].at);
        }
      }
    }
  }
}
