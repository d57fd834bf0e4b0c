/** The breaker's counters and its decision to open, in terms of what happened: the events of a run and their times. */
module BreakerHistory {
  import opened CircuitBreaker
  import opened BreakerRuns
  import opened Ratios
  import BreakerLimits

  ghost function Fails(events: seq<Event>, lo: nat, hi: nat): nat
    requires lo <= hi <= |events|
  {
    if lo == hi then 0 else Fails(events, lo, hi - 1) + if events[hi - 1].Fail? then 1 else 0
  }

  ghost function Asks(events: seq<Event>, lo: nat, hi: nat): nat
    requires lo <= hi <= |events|
  {
    if lo == hi then 0 else Asks(events, lo, hi - 1) + if events[hi - 1].Ask? then 1 else 0
  }

  /** Every failure before event i is more than `window` before `at`. */
  ghost predicate Quiet(events: seq<Event>, i: nat, at: int, window: int)
    requires i <= |events|
  {
    forall k :: 0 <= k < i && events[k].Fail? ==> at - events[k].at > window
  }

  /** Event i makes the breaker forget its failures: a reset, a closing, or a request to a closed breaker more than
      ResetTimeout after the last failure. */
  ghost predicate Forgets(c: Config, states: seq<Sys>, events: seq<Event>, i: nat)
    requires |states| == |events| + 1 && i < |events|
  {
    || events[i].Reset?
    || (states[i].b.state != Closed && states[i + 1].b.state == Closed)
    || (events[i].Ask? && states[i].b.state == Closed && c.resetTimeout > 0
        && Quiet(events, i, events[i].at, c.resetTimeout))
  }

  /** Just after the latest event before i that made it forget. */
  ghost function Since(c: Config, states: seq<Sys>, events: seq<Event>, i: nat): (k: nat)
    requires |states| == |events| + 1 && i <= |events|
    ensures k <= i
  {
    if i == 0 then 0 else if Forgets(c, states, events, i - 1) then i else Since(c, states, events, i - 1)
  }

  /** Just after the latest success before i. */
  ghost function SinceSuccess(events: seq<Event>, i: nat): (k: nat)
    requires i <= |events|
    ensures k <= i
  {
    if i == 0 then 0 else if events[i - 1].Succeed? then i else SinceSuccess(events, i - 1)
  }

  /** Just after the latest reset before i. */
  ghost function SinceReset(events: seq<Event>, i: nat): (k: nat)
    requires i <= |events|
    ensures k <= i
  {
    if i == 0 then 0 else if events[i - 1].Reset? then i else SinceReset(events, i - 1)
  }

  /** The failures that still count. */
  ghost function Standing(c: Config, states: seq<Sys>, events: seq<Event>, i: nat): nat
    requires |states| == |events| + 1 && i <= |events|
  {
    Fails(events, Since(c, states, events, i), i)
  }

  /** Those of them since the latest success. */
  ghost function Streak(c: Config, states: seq<Sys>, events: seq<Event>, i: nat): nat
    requires |states| == |events| + 1 && i <= |events|
  {
    Fails(events, Max(Since(c, states, events, i), SinceSuccess(events, i)), i)
  }

  function Max(x: nat, y: nat): nat { if x < y then y else x }

  /** The last failure, if there was one since the latest reset. */
  ghost predicate LastFailure(events: seq<Event>, i: nat, last: Instant)
    requires i <= |events|
  {
    && (last == Never ==> Fails(events, SinceReset(events, i), i) == 0)
    && (last.At? ==>
          && (exists k :: 0 <= k < i && events[k].Fail? && events[k].at == last.time)
          && (forall k :: 0 <= k < i && events[k].Fail? ==> events[k].at <= last.time))
  }

  /** The last request since the latest reset. */
  ghost predicate LastRequest(events: seq<Event>, i: nat, last: Instant)
    requires i <= |events|
  {
    && (last == Never ==> Asks(events, SinceReset(events, i), i) == 0)
    && (last.At? ==>
          && (exists k :: 0 <= k < i && events[k].Ask? && events[k].at == last.time)
          && (forall k :: 0 <= k < i && events[k].Ask? ==> events[k].at <= last.time))
  }

  /** The counters mean this. */
  ghost predicate Counted(c: Config, states: seq<Sys>, events: seq<Event>, i: nat)
    requires |states| == |events| + 1 && i <= |events|
  {
    var b := states[i].b;
    && b.failureCount == Standing(c, states, events, i)
    && b.consecutiveFailures == Streak(c, states, events, i)
    && b.totalFailures == Fails(events, SinceReset(events, i), i)
    && b.totalRequests == Asks(events, SinceReset(events, i), i)
    && LastFailure(events, i, b.lastFailTime)
    && LastRequest(events, i, b.lastRequestTime)
    && forall k :: 0 <= k < i ==> events[k].at <= states[i].now
  }

  // How each count moves with one event.

  lemma StandingMoves(c: Config, states: seq<Sys>, events: seq<Event>, i: nat)
    requires |states| == |events| + 1 && i < |events|
    ensures Standing(c, states, events, i + 1)
            == if Forgets(c, states, events, i) then 0
               else Standing(c, states, events, i) + if events[i].Fail? then 1 else 0
  {
  }

  lemma StreakMoves(c: Config, states: seq<Sys>, events: seq<Event>, i: nat)
    requires |states| == |events| + 1 && i < |events|
    ensures Streak(c, states, events, i + 1)
            == if Forgets(c, states, events, i) || events[i].Succeed? then 0
               else Streak(c, states, events, i) + if events[i].Fail? then 1 else 0
  {
  }

  lemma TotalsMove(events: seq<Event>, i: nat)
    requires i < |events|
    ensures Fails(events, SinceReset(events, i + 1), i + 1)
            == if events[i].Reset? then 0
               else Fails(events, SinceReset(events, i), i) + if events[i].Fail? then 1 else 0
    ensures Asks(events, SinceReset(events, i + 1), i + 1)
            == if events[i].Reset? then 0
               else Asks(events, SinceReset(events, i), i) + if events[i].Ask? then 1 else 0
  {
  }

  lemma {:induction false} FailsFewer(events: seq<Event>, lo: nat, mid: nat, hi: nat)
    requires lo <= mid <= hi <= |events|
    ensures Fails(events, mid, hi) <= Fails(events, lo, hi)
    decreases hi
  {
    if mid < hi {
      FailsFewer(events, lo, mid, hi - 1);
    }
  }

  lemma {:induction false} SinceIsLater(c: Config, states: seq<Sys>, events: seq<Event>, i: nat)
    requires |states| == |events| + 1 && i <= |events|
    ensures SinceReset(events, i) <= Since(c, states, events, i)
  {
    if i > 0 {
      SinceIsLater(c, states, events, i - 1);
    }
  }

  /** Where none failed since the latest reset, none counts. */
  lemma NothingStands(c: Config, states: seq<Sys>, events: seq<Event>, i: nat)
    requires |states| == |events| + 1 && i <= |events| && Fails(events, SinceReset(events, i), i) == 0
    ensures Standing(c, states, events, i) == 0 && Streak(c, states, events, i) == 0
  {
    SinceIsLater(c, states, events, i);
    var k := Since(c, states, events, i);
    FailsFewer(events, SinceReset(events, i), k, i);
    FailsFewer(events, SinceReset(events, i), Max(k, SinceSuccess(events, i)), i);
  }

  /** The test on the last failure time is the test on all failures. */
  lemma ForgivesWhenQuiet(c: Config, b: Breaker, events: seq<Event>, i: nat, at: int)
    requires i <= |events| && LastFailure(events, i, b.lastFailTime) && b.lastFailTime.At? && c.resetTimeout > 0
    ensures Forgives(c, b, at) <==> Quiet(events, i, at, c.resetTimeout)
  {
    var k :| 0 <= k < i && events[k].Fail? && events[k].at == b.lastFailTime.time;
  }

  lemma LastFailureMoves(c: Config, s: Sys, events: seq<Event>, i: nat)
    requires i < |events| && LastFailure(events, i, s.b.lastFailTime) && Enabled(s, events[i])
    requires forall k :: 0 <= k < i ==> events[k].at <= s.now
    ensures LastFailure(events, i + 1, Next(c, s, events[i]).b.lastFailTime)
  {
    TotalsMove(events, i);
    var last := Next(c, s, events[i]).b.lastFailTime;
    if events[i].Fail? {
      assert last == At(events[i].at);
    } else if last.At? {
      assert last == s.b.lastFailTime;
      var k :| 0 <= k < i && events[k].Fail? && events[k].at == last.time;
    }
  }

  lemma LastRequestMoves(c: Config, s: Sys, events: seq<Event>, i: nat)
    requires i < |events| && LastRequest(events, i, s.b.lastRequestTime) && Enabled(s, events[i])
    requires forall k :: 0 <= k < i ==> events[k].at <= s.now
    ensures LastRequest(events, i + 1, Next(c, s, events[i]).b.lastRequestTime)
  {
    TotalsMove(events, i);
    var last := Next(c, s, events[i]).b.lastRequestTime;
    if events[i].Ask? {
      assert last == At(events[i].at);
    } else if last.At? {
      assert last == s.b.lastRequestTime;
      var k :| 0 <= k < i && events[k].Ask? && events[k].at == last.time;
    }
  }

  /** What one event does to the counters, by kind. */
  lemma CountersMove(c: Config, s: Sys, e: Event)
    requires Enabled(s, e)
    ensures var b, n := s.b, Next(c, s, e).b;
            && (e.Reset? || (b.state != Closed && n.state == Closed) ==>
                  n.failureCount == 0 && n.consecutiveFailures == 0)
            && (e.Ask? ==>
                  if b.state == Closed && Forgives(c, b, e.at) then n.failureCount == 0 && n.consecutiveFailures == 0
                  else n.failureCount == b.failureCount && n.consecutiveFailures == b.consecutiveFailures)
            && (e.Succeed? && !(b.state != Closed && n.state == Closed) ==>
                  n.failureCount == b.failureCount && n.consecutiveFailures == 0)
            && (e.Fail? ==>
                  && n.failureCount == b.failureCount + 1 && n.consecutiveFailures == b.consecutiveFailures + 1
                  && !(b.state != Closed && n.state == Closed))
            && (e.ForceOpen? || (e.ForceClose? && b.state == Closed) ==>
                  n.failureCount == b.failureCount && n.consecutiveFailures == b.consecutiveFailures)
  {
  }

  lemma TotalsKept(c: Config, s: Sys, e: Event)
    requires Enabled(s, e)
    ensures var b, n := s.b, Next(c, s, e).b;
            && n.totalFailures == (if e.Reset? then 0 else b.totalFailures + if e.Fail? then 1 else 0)
            && n.totalRequests == (if e.Reset? then 0 else b.totalRequests + if e.Ask? then 1 else 0)
            && Next(c, s, e).now == e.at
  {
  }

  lemma CountedMoves(c: Config, states: seq<Sys>, events: seq<Event>, i: nat)
    requires Trace(c, states, events) && i < |events| && Counted(c, states, events, i)
    ensures Counted(c, states, events, i + 1)
  {
    var b := states[i].b;
    assert Enabled(states[i], events[i]) && states[i + 1] == Next(c, states[i], events[i]);
    StandingMoves(c, states, events, i);
    StreakMoves(c, states, events, i);
    TotalsMove(events, i);
    CountersMove(c, states[i], events[i]);
    TotalsKept(c, states[i], events[i]);
    LastFailureMoves(c, states[i], events, i);
    LastRequestMoves(c, states[i], events, i);
    if b.lastFailTime == Never {
      NothingStands(c, states, events, i);
    } else if c.resetTimeout > 0 {
      ForgivesWhenQuiet(c, b, events, i, events[i].at);
    }
  }

  /** In every state of every run failureCount is the number of failures since the latest reset, closing, or request
      to a closed breaker more than ResetTimeout after the last failure; consecutiveFailures the number of those since
      the latest success; and the totals count since the latest reset; and the two times are those of the last
      failure and of the last request. */
  lemma {:induction false} CountersMean(c: Config, states: seq<Sys>, events: seq<Event>, i: nat)
    requires Begins(c, states, events) && i <= |events|
    ensures Counted(c, states, events, i)
  {
    if i > 0 {
      CountersMean(c, states, events, i - 1);
      CountedMoves(c, states, events, i - 1);
    }
  }

  // When a closed breaker opens.

  /** The threshold of the adaptive rule: two thirds under heavy traffic. */
  ghost function Adapted(c: Config, requests: nat): int {
    if requests > c.requestVolumeThreshold * 2 then c.failureThreshold * 2 / 3 else c.failureThreshold
  }

  /** The three rules: failures that count, the failure rate, and the streak. */
  ghost predicate Rules(c: Config, standing: nat, streak: nat, failures: nat, requests: nat) {
    || standing >= c.failureThreshold
    || (c.failureRate > 0.0 && requests >= c.minRequestsThreshold
        && failures as real >= c.failureRate * requests as real)
    || (c.adaptiveThresholds && requests >= c.requestVolumeThreshold
        && if Adapted(c, requests) == 0 then streak > 0 else 5 * streak >= 4 * Adapted(c, requests))
  }

  /** The rules call for opening, on the history up to event i. */
  ghost predicate Warranted(c: Config, states: seq<Sys>, events: seq<Event>, i: nat)
    requires |states| == |events| + 1 && i <= |events|
  {
    Rules(c, Standing(c, states, events, i), Streak(c, states, events, i),
          Fails(events, SinceReset(events, i), i), Asks(events, SinceReset(events, i), i))
  }

  lemma QuotientAtLeast(x: real, w: real, rate: real)
    requires w > 0.0
    ensures x / w >= rate <==> x >= rate * w
  {
    var q := x / w;
    assert q * w == x;
    if q >= rate {
      assert (q - rate) * w >= 0.0;
    } else {
      assert (rate - q) * w > 0.0;
    }
  }

  lemma ConcentratedByProduct(streak: nat, threshold: int)
    requires threshold >= 0
    ensures Concentrated(streak, threshold) <==> if threshold == 0 then streak > 0 else 5 * streak >= 4 * threshold
  {
    if threshold > 0 {
      QuotientAtLeast(streak as real, threshold as real, 0.8);
      FourFifths(streak, threshold);
    }
  }

  lemma FourFifths(x: int, y: int)
    ensures x as real >= 0.8 * y as real <==> 5 * x >= 4 * y
  {
    assert (5 * x) as real == 5.0 * x as real && (4 * y) as real == 4.0 * y as real;
  }

  lemma TripsOnCounts(c: Config, b: Breaker)
    requires b.totalRequests > 0
    ensures Trips(c, b) <==> Rules(c, b.failureCount, b.consecutiveFailures, b.totalFailures, b.totalRequests)
  {
    QuotientAtLeast(b.totalFailures as real, b.totalRequests as real, c.failureRate);
    if c.failureThreshold >= 0 {
      ConcentratedByProduct(b.consecutiveFailures, Adapted(c, b.totalRequests));
    }
  }

  /** An outcome comes after its request. */
  lemma SomeRequest(c: Config, states: seq<Sys>, events: seq<Event>, i: nat)
    requires Begins(c, states, events) && i < |events| && (events[i].Succeed? || events[i].Fail?)
    ensures states[i + 1].b.totalRequests > 0
  {
    TraceAccounts(c, states, events, i);
    assert Enabled(states[i], events[i]) && states[i + 1] == Next(c, states[i], events[i]);
  }

  lemma {:induction false} TraceAccounts(c: Config, states: seq<Sys>, events: seq<Event>, i: nat)
    requires Begins(c, states, events) && i < |states|
    ensures Accounted(states[i])
  {
    if i > 0 {
      TraceAccounts(c, states, events, i - 1);
      assert Enabled(states[i - 1], events[i - 1]) && states[i - 1 + 1] == Next(c, states[i - 1], events[i - 1]);
      AccountedStep(c, states[i - 1], events[i - 1]);
    }
  }

  /** An outcome recorded while closed opens the breaker exactly when the history up to and including it calls for
      it: enough failures that still count, or failures enough for the rate, or a long enough streak. */
  lemma OpensExactly(c: Config, states: seq<Sys>, events: seq<Event>, i: nat)
    requires Begins(c, states, events) && i < |events|
    requires states[i].b.state == Closed && (events[i].Succeed? || events[i].Fail?)
    ensures states[i + 1].b.state == Open <==> Warranted(c, states, events, i + 1)
  {
    SomeRequest(c, states, events, i);
    assert Enabled(states[i], events[i]) && states[i + 1] == Next(c, states[i], events[i]);
    OutcomeOpens(c, states[i], events[i]);
    TripsOnHistory(c, states, events, i + 1);
  }

  lemma TripsOnHistory(c: Config, states: seq<Sys>, events: seq<Event>, i: nat)
    requires Begins(c, states, events) && i <= |events| && states[i].b.totalRequests > 0
    ensures Trips(c, states[i].b) <==> Warranted(c, states, events, i)
  {
    CountersMean(c, states, events, i);
    TripsOnCounts(c, states[i].b);
  }

  /** Opening leaves the counters as they are, so the rules can be read off the state after it. */
  lemma OutcomeOpens(c: Config, s: Sys, e: Event)
    requires Enabled(s, e) && s.b.state == Closed && (e.Succeed? || e.Fail?)
    ensures Next(c, s, e).b.state == Open <==> Trips(c, Next(c, s, e).b)
  {
  }

  /** With the rate and adaptive rules off, and a positive threshold, it opens exactly at the FailureThreshold-th
      failure that still counts. */
  lemma OpensAtThreshold(c: Config, states: seq<Sys>, events: seq<Event>, i: nat)
    requires c.failureThreshold >= 1 && c.failureRate <= 0.0 && !c.adaptiveThresholds
    requires Begins(c, states, events) && i < |events|
    requires states[i].b.state == Closed && !events[i].ForceOpen?
    ensures states[i + 1].b.state == Open <==>
              events[i].Fail? && Standing(c, states, events, i + 1) == c.failureThreshold
  {
    CountersMean(c, states, events, i);
    BreakerLimits.ClosedBelowThreshold(c, states, events, i);
    StandingMoves(c, states, events, i);
    assert Enabled(states[i], events[i]) && states[i + 1] == Next(c, states[i], events[i]);
    if events[i].Succeed? || events[i].Fail? {
      OpensExactly(c, states, events, i);
    }
  }
}
