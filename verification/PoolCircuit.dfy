/** The error-rate circuit inside the worker pool: what it means, and when it can still close. */
module PoolCircuit {
  import opened WorkerPool
  import ErrorRate

  ghost predicate Idle(s: Pool) {
    s.queue == [] && Settled(s) && forall i :: 0 <= i < |s.submitters| ==> s.submitters[i] == Away
  }

  lemma OnlyRecordsReachMonitor(c: Config, s: Pool, step: Step)
    requires Enabled(s, step)
    ensures step.Record? || Next(c, s, step).monitor == s.monitor
  {
  }

  /** The outcomes the workers record along a run, with their times. */
  ghost function Outcomes(c: Config, s: Pool, steps: seq<Step>, t: Pool): seq<ErrorRate.Outcome>
    requires Run(c, s, steps, t)
    decreases |steps|
  {
    if steps == [] then []
    else (if steps[0].Record? then [ErrorRate.Outcome(s.now, !s.workers[steps[0].w].ok)] else [])
         + Outcomes(c, Next(c, s, steps[0]), steps[1..], t)
  }

  /** The pool feeds its monitor exactly those outcomes. */
  lemma {:induction false} RunReplays(
      c: Config, s: Pool, steps: seq<Step>, t: Pool, start: int, h: seq<ErrorRate.Outcome>)
    requires Run(c, s, steps, t) && s.monitor == ErrorRate.Replay(c.limits, start, h)
    ensures t.monitor == ErrorRate.Replay(c.limits, start, h + Outcomes(c, s, steps, t))
    decreases |steps|
  {
    if steps == [] {
      assert h + [] == h;
    } else {
      var u := Next(c, s, steps[0]);
      OnlyRecordsReachMonitor(c, s, steps[0]);
      var first: seq<ErrorRate.Outcome> :=
        if steps[0].Record? then [ErrorRate.Outcome(s.now, !s.workers[steps[0].w].ok)] else [];
      assert first != [] ==> (h + first)[..|h|] == h;
      assert first == [] ==> h + first == h;
      RunReplays(c, u, steps[1..], t, start, h + first);
      assert h + first + Outcomes(c, u, steps[1..], t) == h + Outcomes(c, s, steps, t);
    }
  }

  /** In every interleaving the circuit is open exactly when the outcomes of the current window have latched
      it, and then it stands on at least ten of them at half the threshold rate or more. */
  lemma CircuitMeaning(c: Config, n: nat, now: int, steps: seq<Step>, s: Pool)
    requires Run(c, Init(n, now), steps, s) && c.limits.Sensible()
    ensures var w := ErrorRate.CurrentWindow(c.limits, now, Outcomes(c, Init(n, now), steps, s));
            && (s.monitor.open <==> ErrorRate.Latched(c.limits.threshold, w))
            && (s.monitor.open ==> |w| >= 10 && ErrorRate.RateAtLeast(w, c.limits.threshold / 2.0))
  {
    var h := Outcomes(c, Init(n, now), steps, s);
    RunReplays(c, Init(n, now), steps, s, now, []);
    assert [] + h == h;
    ErrorRate.OpenEvidence(c.limits, now, h);
    ErrorRate.ReplayMeaning(c.limits, now, h);
  }

  /** Idle and open, and so it stays. */
  ghost predicate StaysOpen(s: Pool, t: Pool) {
    t.monitor == s.monitor && Idle(t) && t.accepted == s.accepted
  }

  lemma IdleWorkersStep(c: Config, s: Pool, step: Step)
    requires Idle(s) && Enabled(s, step) && ByWorker(step)
    ensures StaysOpen(s, Next(c, s, step))
  {
  }

  lemma OpenCircuitStep(c: Config, s: Pool, step: Step)
    requires s.monitor.open && Idle(s) && Enabled(s, step)
    ensures StaysOpen(s, Next(c, s, step)) && !step.SubmitEnqueue?
  {
    if ByWorker(step) {
      IdleWorkersStep(c, s, step);
    }
  }

  /** Only records change the circuit, and only admitted jobs cause records: once it is open with no job
      queued, held or mid-Submit, it stays open and no later Submit enqueues, at any later time. */
  lemma {:induction false} OpenCircuitSticks(c: Config, s: Pool, steps: seq<Step>, t: Pool)
    requires s.monitor.open && Idle(s) && Run(c, s, steps, t)
    ensures t.monitor == s.monitor && Idle(t) && t.accepted == s.accepted
    ensures forall k :: 0 <= k < |steps| ==> !steps[k].SubmitEnqueue?
    decreases |steps|
  {
    if steps != [] {
      OpenCircuitStep(c, s, steps[0]);
      OpenCircuitSticks(c, Next(c, s, steps[0]), steps[1..], t);
      assert forall k :: 0 < k < |steps| ==> steps[k] == steps[1..][k - 1];
    }
  }

  // When an open circuit can still close.

  /** The worker holds, or has just sent, a result that will reach the monitor unless it is cancelled. */
  ghost predicate Reporting(p: Worker) {
    || p.Limiting? || p.Running? || p.Ran? || p.Recording?
    || ((p.Sent? || p.Counting?) && !p.limited)
  }

  /** A record is still to come, or a job that can lead to one. */
  ghost predicate Closable(s: Pool) {
    || (exists w :: 0 <= w < |s.workers| && Reporting(s.workers[w]))
    || (!s.ctxDone && HasWork(s))
  }

  /** A job is queued, taken or about to be enqueued. */
  ghost predicate HasWork(s: Pool) {
    || s.queue != []
    || (exists w :: 0 <= w < |s.workers| && s.workers[w].Took?)
    || (exists i :: 0 <= i < |s.submitters| && s.submitters[i].Checked?)
  }

  ghost predicate Closes(c: Config, s: Pool) { exists t :: Reaches(c, s, t) && !t.monitor.open }

  lemma Via(c: Config, s: Pool, step: Step)
    requires Enabled(s, step) && Closes(c, Next(c, s, step))
    ensures Closes(c, s)
  {
    var t :| Reaches(c, Next(c, s, step), t) && !t.monitor.open;
    var steps: seq<Step> :| Run(c, Next(c, s, step), steps, t);
    assert ([step] + steps)[1..] == steps;
    assert Run(c, s, [step] + steps, t);
  }

  /** A record closes the circuit if it falls after the window. */
  lemma RecordingCloses(c: Config, s: Pool, w: nat)
    requires w < |s.workers| && s.workers[w].Recording?
    ensures Closes(c, s)
  {
    var late := c.limits.window + s.monitor.lastReset + 1 - s.now;
    var elapsed: nat := if late < 0 then 0 else late;
    var u := Next(c, s, Tick(elapsed));
    ErrorRate.LateRecordCloses(c.limits, s.monitor, u.now, !s.workers[w].ok);
    var t := Next(c, u, Record(w));
    assert Run(c, t, [], t);
    Via(c, u, Record(w));
    Via(c, s, Tick(elapsed));
  }

  lemma CountingCloses(c: Config, s: Pool, w: nat)
    requires w < |s.workers| && s.workers[w].Counting? && !s.workers[w].limited
    ensures Closes(c, s)
  {
    RecordingCloses(c, Next(c, s, Count(w)), w);
    Via(c, s, Count(w));
  }

  lemma SentCloses(c: Config, s: Pool, w: nat)
    requires w < |s.workers| && s.workers[w].Sent? && !s.workers[w].limited
    ensures Closes(c, s)
  {
    CountingCloses(c, Next(c, s, Release(w)), w);
    Via(c, s, Release(w));
  }

  lemma RanCloses(c: Config, s: Pool, w: nat)
    requires w < |s.workers| && s.workers[w].Ran? && |s.results| <= MAX_QUEUE_SIZE
    ensures Closes(c, s)
  {
    var u := if |s.results| == MAX_QUEUE_SIZE then Next(c, s, Receive) else s;
    SentCloses(c, Next(c, u, Send(w)), w);
    Via(c, u, Send(w));
    if u != s {
      Via(c, s, Receive);
    }
  }

  lemma RunningCloses(c: Config, s: Pool, w: nat)
    requires w < |s.workers| && s.workers[w].Running? && |s.results| <= MAX_QUEUE_SIZE
    ensures Closes(c, s)
  {
    RanCloses(c, Next(c, s, Finish(w, true)), w);
    Via(c, s, Finish(w, true));
  }

  lemma LimitingCloses(c: Config, s: Pool, w: nat)
    requires w < |s.workers| && s.workers[w].Limiting? && |s.results| <= MAX_QUEUE_SIZE
    ensures Closes(c, s)
  {
    RunningCloses(c, Next(c, s, Limit(w, true)), w);
    Via(c, s, Limit(w, true));
  }

  lemma ReportingCloses(c: Config, s: Pool, w: nat)
    requires w < |s.workers| && Reporting(s.workers[w]) && |s.results| <= MAX_QUEUE_SIZE
    ensures Closes(c, s)
  {
    var p := s.workers[w];
    if p.Limiting? {
      LimitingCloses(c, s, w);
    } else if p.Running? {
      RunningCloses(c, s, w);
    } else if p.Ran? {
      RanCloses(c, s, w);
    } else if p.Sent? {
      SentCloses(c, s, w);
    } else if p.Counting? {
      CountingCloses(c, s, w);
    } else {
      RecordingCloses(c, s, w);
    }
  }

  lemma TookCloses(c: Config, s: Pool, w: nat)
    requires w < |s.workers| && s.workers[w].Took? && |s.results| <= MAX_QUEUE_SIZE && !s.ctxDone
    ensures Closes(c, s)
  {
    LimitingCloses(c, Next(c, s, TestContext(w)), w);
    Via(c, s, TestContext(w));
  }

  /** The context is live, a job is queued, and worker w is at p. */
  ghost predicate Ready(s: Pool, w: nat, p: Worker) {
    && w < |s.workers| && s.workers[w] == p
    && s.queue != [] && !s.ctxDone && |s.results| <= MAX_QUEUE_SIZE
  }

  lemma WaitingCloses(c: Config, s: Pool, w: nat)
    requires Ready(s, w, Waiting)
    ensures Closes(c, s)
  {
    TookCloses(c, Next(c, s, Take(w)), w);
    Via(c, s, Take(w));
  }

  lemma LimitedCountingCloses(c: Config, s: Pool, w: nat, ok: bool)
    requires Ready(s, w, Counting(ok, true))
    ensures Closes(c, s)
  {
    WaitingCloses(c, Next(c, s, Count(w)), w);
    Via(c, s, Count(w));
  }

  lemma LimitedSentCloses(c: Config, s: Pool, w: nat, job: JobId, ok: bool)
    requires Ready(s, w, Sent(job, ok, true))
    ensures Closes(c, s)
  {
    LimitedCountingCloses(c, Next(c, s, Release(w)), w, ok);
    Via(c, s, Release(w));
  }

  lemma LimitErrorCloses(c: Config, s: Pool, w: nat, job: JobId)
    requires Ready(s, w, LimitError(job))
    ensures Closes(c, s)
  {
    var u := if |s.results| == MAX_QUEUE_SIZE then Next(c, s, Receive) else s;
    LimitedSentCloses(c, Next(c, u, Send(w)), w, job, false);
    Via(c, u, Send(w));
    if u != s {
      Via(c, s, Receive);
    }
  }

  lemma QueuedCloses(c: Config, s: Pool, p: Worker)
    requires Ready(s, 0, p) && !p.Exited? && !p.GivingUp?
    ensures Closes(c, s)
  {
    if Reporting(p) {
      ReportingCloses(c, s, 0);
    } else if p.Took? {
      TookCloses(c, s, 0);
    } else if p.Waiting? {
      WaitingCloses(c, s, 0);
    } else if p.LimitError? {
      LimitErrorCloses(c, s, 0, p.job);
    } else if p.Sent? {
      LimitedSentCloses(c, s, 0, p.job, p.ok);
    } else {
      LimitedCountingCloses(c, s, 0, p.ok);
    }
  }

  lemma CheckedCloses(c: Config, s: Pool, i: nat)
    requires Sized(c, s) && Phased(s) && c.workers >= 1 && !s.ctxDone
    requires i < |s.submitters| && s.submitters[i].Checked?
    ensures Closes(c, s)
  {
    if |s.queue| == MAX_QUEUE_SIZE {
      QueuedCloses(c, s, s.workers[0]);
    } else {
      var t := Next(c, s, SubmitEnqueue(i));
      QueuedCloses(c, t, t.workers[0]);
      Via(c, s, SubmitEnqueue(i));
    }
  }

  lemma ClosableCloses(c: Config, s: Pool)
    requires Sized(c, s) && Phased(s) && c.workers >= 1 && Closable(s)
    ensures Closes(c, s)
  {
    if w :| 0 <= w < |s.workers| && Reporting(s.workers[w]) {
      ReportingCloses(c, s, w);
    } else if w :| 0 <= w < |s.workers| && s.workers[w].Took? {
      TookCloses(c, s, w);
    } else if s.queue != [] {
      QueuedCloses(c, s, s.workers[0]);
    } else {
      var i :| 0 <= i < |s.submitters| && s.submitters[i].Checked?;
      CheckedCloses(c, s, i);
    }
  }

  lemma UpToResultStaysUnclosable(c: Config, s: Pool, step: Step)
    requires !Closable(s) && Enabled(s, step) && UpToResult(step)
    ensures var t := Next(c, s, step); t.monitor == s.monitor && !Closable(t)
  {
  }

  lemma FromResultStaysUnclosable(c: Config, s: Pool, step: Step)
    requires !Closable(s) && Enabled(s, step) && FromResult(step)
    ensures var t := Next(c, s, step); t.monitor == s.monitor && !Closable(t)
  {
  }

  lemma OthersStayUnclosable(c: Config, s: Pool, step: Step)
    requires s.monitor.open && !Closable(s) && Enabled(s, step) && !ByWorker(step)
    ensures var t := Next(c, s, step); t.monitor == s.monitor && !Closable(t)
  {
  }

  lemma {:induction false} UnclosableStays(c: Config, s: Pool, steps: seq<Step>, t: Pool)
    requires s.monitor.open && !Closable(s) && Run(c, s, steps, t)
    ensures t.monitor.open
    decreases |steps|
  {
    if steps != [] {
      if UpToResult(steps[0]) {
        UpToResultStaysUnclosable(c, s, steps[0]);
      } else if FromResult(steps[0]) {
        FromResultStaysUnclosable(c, s, steps[0]);
      } else {
        OthersStayUnclosable(c, s, steps[0]);
      }
      UnclosableStays(c, Next(c, s, steps[0]), steps[1..], t);
    }
  }

  /** An open circuit can still close exactly when some worker is in or past the rate limiter with an outcome for
      the monitor to come, or the context is live and a job is queued, taken or about to be enqueued. */
  lemma CircuitClosesExactly(c: Config, s: Pool)
    requires Reachable(c, s) && c.workers >= 1 && s.monitor.open
    ensures (exists t :: Reaches(c, s, t) && !t.monitor.open) <==> Closable(s)
  {
    ReachableInv(c, s, 0);
    if Closable(s) {
      ClosableCloses(c, s);
    } else {
      forall t | Reaches(c, s, t) ensures t.monitor.open {
        var steps: seq<Step> :| Run(c, s, steps, t);
        UnclosableStays(c, s, steps, t);
      }
    }
  }
}
