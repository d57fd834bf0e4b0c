/** ErrorRateMonitor: the error-rate circuit of the worker pool. */
module ErrorRate {
  import opened Ratios

  const MIN_RECORDS: nat := 10

  /** window and threshold, fixed at construction. */
  datatype Limits = Limits(window: int, threshold: real) {
    ghost predicate Sensible() { threshold >= 0.0 }
  }

  datatype Monitor = Monitor(errors: nat, successes: nat, lastReset: int, open: bool) {
    function Total(): nat { errors + successes }
  }

  function Fresh(start: int): Monitor { Monitor(0, 0, start, false) }

  /** One RecordError (failed) or RecordSuccess, at time `at`. */
  function Record(lim: Limits, m: Monitor, at: int, failed: bool): Monitor {
    var w := if at - m.lastReset > lim.window then Fresh(at) else m;
    var c := if failed then w.(errors := w.errors + 1) else w.(successes := w.successes + 1);
    if c.Total() < MIN_RECORDS then c
    else if AtLeast(c.errors, c.Total(), lim.threshold) then c.(open := true)
    else if !AtLeast(c.errors, c.Total(), lim.threshold / 2.0) then c.(open := false)
    else c
  }

  class ErrorRateMonitor {
    const limits: Limits
    var errorCount: nat
    var successCount: nat
    var lastReset: int
    var circuitOpen: bool
    ghost const start: int
    ghost var history: seq<Outcome>

    ghost function View(): Monitor
      reads this
    {
      Monitor(errorCount, successCount, lastReset, circuitOpen)
    }

    /** The fields are those a replay of every record so far leaves. */
    ghost predicate Valid()
      reads this
    {
      View() == Replay(limits, start, history)
    }

    constructor (window: int, threshold: real, now: int)
      ensures Valid() && limits == Limits(window, threshold)
      ensures start == now && history == []
    {
      limits := Limits(window, threshold);
      errorCount, successCount, lastReset, circuitOpen := 0, 0, now, false;
      start := now;
      history := [];
    }

    method RecordError(now: int)
      requires Valid()
      modifies this
      ensures Valid() && history == old(history) + [Outcome(now, true)]
      ensures View() == Record(limits, old(View()), now, true)
    {
      CheckWindow(now);
      errorCount := errorCount + 1;
      UpdateCircuitState();
      history := history + [Outcome(now, true)];
      assert history[..|history| - 1] == old(history);
    }

    method RecordSuccess(now: int)
      requires Valid()
      modifies this
      ensures Valid() && history == old(history) + [Outcome(now, false)]
      ensures View() == Record(limits, old(View()), now, false)
    {
      CheckWindow(now);
      successCount := successCount + 1;
      UpdateCircuitState();
      history := history + [Outcome(now, false)];
      assert history[..|history| - 1] == old(history);
    }

    /** Open exactly when the records of the current window have latched the circuit. */
    method IsOpen() returns (open: bool)
      requires Valid()
      ensures open == View().open
      ensures limits.Sensible() ==> (open <==> Latched(limits.threshold, CurrentWindow(limits, start, history)))
    {
      if limits.Sensible() {
        ReplayMeaning(limits, start, history);
      }
      open := circuitOpen;
    }

    method CheckWindow(now: int)
      modifies `errorCount, `successCount, `lastReset, `circuitOpen
      ensures View() == if now - old(lastReset) > limits.window then Fresh(now) else old(View())
    {
      if now - lastReset > limits.window {
        errorCount := 0;
        successCount := 0;
        lastReset := now;
        circuitOpen := false;
      }
    }

    method UpdateCircuitState()
      modifies `circuitOpen
      ensures errorCount + successCount < MIN_RECORDS ==> circuitOpen == old(circuitOpen)
      ensures errorCount + successCount >= MIN_RECORDS ==>
                var total := errorCount + successCount;
                circuitOpen == (AtLeast(errorCount, total, limits.threshold)
                                || (old(circuitOpen) && AtLeast(errorCount, total, limits.threshold / 2.0)))
    {
      var total := errorCount + successCount;
      if total < MIN_RECORDS {
        return;
      }
      var errorRate := errorCount as real / total as real;
      if errorRate >= limits.threshold {
        circuitOpen := true;
      } else if errorRate < limits.threshold * 0.5 {
        circuitOpen := false;
      }
    }
  }

  // What the counters mean, in terms of the records that arrived.

  datatype Outcome = Outcome(at: int, failed: bool)

  ghost function Replay(lim: Limits, start: int, h: seq<Outcome>): Monitor {
    if h == [] then Fresh(start)
    else Record(lim, Replay(lim, start, h[..|h| - 1]), h[|h| - 1].at, h[|h| - 1].failed)
  }

  ghost function Failures(h: seq<Outcome>): nat {
    if h == [] then 0 else Failures(h[..|h| - 1]) + (if h[|h| - 1].failed then 1 else 0)
  }

  /** When the current window began: a record more than `window` after the beginning begins a new one. */
  ghost function WindowBegan(lim: Limits, start: int, h: seq<Outcome>): int {
    if h == [] then start
    else
      var before := WindowBegan(lim, start, h[..|h| - 1]);
      if h[|h| - 1].at - before > lim.window then h[|h| - 1].at else before
  }

  /** The records of the current window: the longest suffix no later record cut off. */
  ghost function CurrentWindow(lim: Limits, start: int, h: seq<Outcome>): seq<Outcome> {
    if h == [] then []
    else if h[|h| - 1].at - WindowBegan(lim, start, h[..|h| - 1]) > lim.window then [h[|h| - 1]]
    else CurrentWindow(lim, start, h[..|h| - 1]) + [h[|h| - 1]]
  }

  ghost predicate RateAtLeast(w: seq<Outcome>, rate: real) {
    AtLeast(Failures(w), |w|, rate)
  }

  /** At some point of the window, with ten records in, the error rate reached the threshold,
      and it has not been below half the threshold since. */
  ghost predicate LatchedAt(threshold: real, w: seq<Outcome>, k: nat) {
    && 10 <= k <= |w|
    && RateAtLeast(w[..k], threshold)
    && forall m :: k <= m <= |w| ==> RateAtLeast(w[..m], threshold / 2.0)
  }

  ghost predicate Latched(threshold: real, w: seq<Outcome>) {
    exists k: nat :: LatchedAt(threshold, w, k)
  }

  lemma HalfRate(w: seq<Outcome>, threshold: real)
    requires threshold >= 0.0 && RateAtLeast(w, threshold)
    ensures RateAtLeast(w, threshold / 2.0)
  {
  }

  /** How one more record in the window changes the latch. */
  lemma {:induction false} LatchedSnoc(threshold: real, w: seq<Outcome>, r: Outcome)
    requires threshold >= 0.0
    ensures Latched(threshold, w + [r]) <==>
              && |w| + 1 >= 10
              && (RateAtLeast(w + [r], threshold)
                  || (Latched(threshold, w) && RateAtLeast(w + [r], threshold / 2.0)))
  {
    var v := w + [r];
    assert v[..|v|] == v;
    assert forall m :: 0 <= m <= |w| ==> v[..m] == w[..m];
    if Latched(threshold, v) {
      var k: nat :| LatchedAt(threshold, v, k);
      assert RateAtLeast(v[..|v|], threshold / 2.0);
      if k <= |w| {
        assert LatchedAt(threshold, w, k);
      }
    }
    if |v| >= 10 && RateAtLeast(v, threshold) {
      HalfRate(v, threshold);
      assert LatchedAt(threshold, v, |v|);
    } else if Latched(threshold, w) && RateAtLeast(v, threshold / 2.0) {
      var k: nat :| LatchedAt(threshold, w, k);
      assert LatchedAt(threshold, v, k);
    }
  }

  /** The monitor computes its history's meaning: the counters count the current window's records, and
      the circuit is open exactly when that window is latched. */
  lemma {:induction false} ReplayMeaning(lim: Limits, start: int, h: seq<Outcome>)
    requires lim.Sensible()
    ensures var m, w := Replay(lim, start, h), CurrentWindow(lim, start, h);
            && m.errors == Failures(w)
            && m.Total() == |w|
            && m.lastReset == WindowBegan(lim, start, h)
            && (m.open <==> Latched(lim.threshold, w))
  {
    if h != [] {
      var h', r := h[..|h| - 1], h[|h| - 1];
      ReplayMeaning(lim, start, h');
      var m := Replay(lim, start, h');
      if r.at - m.lastReset > lim.window {
        NoneLatched(lim.threshold);
        RecordMeans(lim, m, r, []);
        assert [] + [r] == [r];
      } else {
        RecordMeans(lim, m, r, CurrentWindow(lim, start, h'));
      }
    }
  }

  /** The counters and the flag are those of the window w. */
  ghost predicate Means(lim: Limits, m: Monitor, w: seq<Outcome>) {
    m.errors == Failures(w) && m.Total() == |w| && (m.open <==> Latched(lim.threshold, w))
  }

  lemma NoneLatched(threshold: real)
    ensures !Latched(threshold, [])
  {
  }

  lemma RecordMeans(lim: Limits, m: Monitor, r: Outcome, w: seq<Outcome>)
    requires lim.Sensible() && Means(lim, if r.at - m.lastReset > lim.window then Fresh(r.at) else m, w)
    ensures Means(lim, Record(lim, m, r.at, r.failed), w + [r])
  {
    assert (w + [r])[..|w|] == w;
    LatchedSnoc(lim.threshold, w, r);
  }

  /** Open circuits have seen ten records and at least half the threshold rate; a record that leaves ten
      records at the threshold rate leaves the circuit open. */
  lemma OpenEvidence(lim: Limits, start: int, h: seq<Outcome>)
    requires lim.Sensible()
    ensures var m, w := Replay(lim, start, h), CurrentWindow(lim, start, h);
            && (m.open ==> |w| >= 10 && RateAtLeast(w, lim.threshold / 2.0))
            && (|w| >= 10 && RateAtLeast(w, lim.threshold) ==> m.open)
  {
    ReplayMeaning(lim, start, h);
    var w := CurrentWindow(lim, start, h);
    assert w[..|w|] == w;
    if Latched(lim.threshold, w) {
      var k: nat :| LatchedAt(lim.threshold, w, k);
    }
    if |w| >= 10 && RateAtLeast(w, lim.threshold) {
      HalfRate(w, lim.threshold);
      assert LatchedAt(lim.threshold, w, |w|);
    }
  }

  /** A record that arrives after the window has passed closes the circuit, whatever it reports. */
  lemma LateRecordCloses(lim: Limits, m: Monitor, at: int, failed: bool)
    requires at - m.lastReset > lim.window
    ensures var n := Record(lim, m, at, failed); !n.open && n.Total() == 1 && n.lastReset == at
  {
  }
}
