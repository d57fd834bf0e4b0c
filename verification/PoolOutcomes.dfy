/** What happened to each job, read off the schedule: the steps of a run alone say which results were sent, in which
    order, and what the monitor was told. */
module PoolOutcomes {
  import opened Folds
  import opened WorkerPool
  import PoolCircuit
  import ErrorRate

  // The schedule. None of these functions looks at a state.

  ghost function Takes(steps: seq<Step>): nat {
    if steps == [] then 0
    else Takes(steps[..|steps| - 1]) + if steps[|steps| - 1].Take? then 1 else 0
  }

  /** The job worker w took last: jobs are taken in the order in which they were accepted. */
  ghost function JobOf(steps: seq<Step>, w: nat): JobId {
    if steps == [] then 0
    else
      var before := steps[..|steps| - 1];
      if steps[|steps| - 1] == Take(w) then Takes(before) else JobOf(before, w)
  }

  datatype Fate = Undecided | Limited | Finished(ok: bool)

  /** What became of the job worker w took last. */
  ghost function FateOf(steps: seq<Step>, w: nat): Fate {
    if steps == [] then Undecided
    else
      var last := steps[|steps| - 1];
      if last == Take(w) || last == Record(w) then Undecided
      else if last == Limit(w, false) then Limited
      else if last.Finish? && last.w == w then Finished(last.ok)
      else FateOf(steps[..|steps| - 1], w)
  }

  ghost predicate Success(f: Fate) { f == Finished(true) }

  /** The results sent, in order. */
  ghost function Emitted(steps: seq<Step>): seq<JobResult> {
    if steps == [] then []
    else
      var before, last := steps[..|steps| - 1], steps[|steps| - 1];
      Emitted(before) + if last.Send? then [JobResult(JobOf(before, last.w), Success(FateOf(before, last.w)))] else []
  }

  /** The jobs decided, by executeJob or by the rate limiter, with whether they succeeded. */
  ghost function Verdicts(steps: seq<Step>): seq<JobResult> {
    if steps == [] then []
    else Verdicts(steps[..|steps| - 1]) + Verdict(steps[..|steps| - 1], steps[|steps| - 1])
  }

  ghost function Verdict(before: seq<Step>, step: Step): seq<JobResult> {
    if step.Finish? then [JobResult(JobOf(before, step.w), step.ok)]
    else if step.Limit? && !step.granted then [JobResult(JobOf(before, step.w), false)]
    else []
  }

  ghost function Clock(now: int, steps: seq<Step>): int {
    if steps == [] then now
    else Clock(now, steps[..|steps| - 1]) + if steps[|steps| - 1].Tick? then steps[|steps| - 1].elapsed else 0
  }

  /** What the monitor is told, and when. */
  ghost function Said(now: int, steps: seq<Step>): seq<ErrorRate.Outcome> {
    if steps == [] then []
    else
      var before, last := steps[..|steps| - 1], steps[|steps| - 1];
      Said(now, before)
      + if last.Record? then [ErrorRate.Outcome(Clock(now, before), !Success(FateOf(before, last.w)))] else []
  }

  lemma Appended(now: int, steps: seq<Step>, step: Step, w: nat)
    ensures var all := steps + [step];
            && Takes(all) == Takes(steps) + (if step.Take? then 1 else 0)
            && JobOf(all, w) == (if step == Take(w) then Takes(steps) else JobOf(steps, w))
            && FateOf(all, w) == FateAfter(FateOf(steps, w), step, w)
            && Clock(now, all) == Clock(now, steps) + (if step.Tick? then step.elapsed else 0)
            && Verdicts(all) == Verdicts(steps) + Verdict(steps, step)
  {
    assert (steps + [step])[..|steps|] == steps;
  }

  ghost function FateAfter(f: Fate, step: Step, w: nat): Fate {
    if step == Take(w) || step == Record(w) then Undecided
    else if step == Limit(w, false) then Limited
    else if step.Finish? && step.w == w then Finished(step.ok)
    else f
  }

  // The pool follows it.

  /** Every step keeps p, a predicate of the state and of the steps that led to it. */
  ghost predicate Inductive(c: Config, p: (Pool, seq<Step>) -> bool) {
    forall s, steps, step :: p(s, steps) && Enabled(s, step) ==> p(Next(c, s, step), steps + [step])
  }

  lemma {:induction false} RunInduction(
      c: Config, p: (Pool, seq<Step>) -> bool, s: Pool, done: seq<Step>, steps: seq<Step>, t: Pool)
    requires Inductive(c, p) && p(s, done) && Run(c, s, steps, t)
    ensures p(t, done + steps)
    decreases |steps|
  {
    if steps == [] {
      assert done + steps == done;
    } else {
      assert p(Next(c, s, steps[0]), done + [steps[0]]);
      RunInduction(c, p, Next(c, s, steps[0]), done + [steps[0]], steps[1..], t);
      assert done + [steps[0]] + steps[1..] == done + steps;
    }
  }

  lemma WholeRun(c: Config, p: (Pool, seq<Step>) -> bool, s: Pool, steps: seq<Step>, t: Pool)
    requires Inductive(c, p) && p(s, []) && Run(c, s, steps, t)
    ensures p(t, steps)
  {
    RunInduction(c, p, s, [], steps, t);
    assert [] + steps == steps;
  }

  /** The queue holds the jobs accepted and not yet taken, in order. */
  ghost predicate Queued(s: Pool, taken: nat) {
    && s.accepted == taken + |s.queue|
    && forall i :: 0 <= i < |s.queue| ==> s.queue[i] == taken + i
  }

  lemma QueuedStep(c: Config, s: Pool, taken: nat, step: Step)
    requires Queued(s, taken) && Enabled(s, step)
    ensures Queued(Next(c, s, step), taken + if step.Take? then 1 else 0)
  {
    if !step.Take? && !step.SubmitEnqueue? {
      QueueUntouched(c, s, step);
    }
  }

  lemma QueueUntouched(c: Config, s: Pool, step: Step)
    requires Enabled(s, step) && !step.Take? && !step.SubmitEnqueue?
    ensures Next(c, s, step).queue == s.queue && Next(c, s, step).accepted == s.accepted
  {
  }

  /** Worker w at p holds this job, and this became of it. */
  ghost predicate Holds(p: Worker, job: JobId, f: Fate) {
    && (p.Took? || p.Limiting? || p.Running? ==> p.job == job && f == Undecided)
    && (p.LimitError? ==> p.job == job && f == Limited)
    && (p.Ran? ==> p.job == job && f == Finished(p.ok))
    && (p.Sent? ==> p.job == job)
    && (p.Sent? || p.Counting? ==> f == if p.limited then Limited else Finished(p.ok))
    && (p.Sent? && p.limited ==> !p.ok)
    && (p.Recording? ==> f == Finished(p.ok))
  }

  lemma UpToResultHolds(c: Config, s: Pool, step: Step, job: JobId, f: Fate)
    requires Enabled(s, step) && UpToResult(step) && Holds(s.workers[step.w], job, f)
    ensures Holds(Next(c, s, step).workers[step.w], if step.Take? then s.queue[0] else job, FateAfter(f, step, step.w))
  {
  }

  lemma FromResultHolds(c: Config, s: Pool, step: Step, job: JobId, f: Fate)
    requires Enabled(s, step) && FromResult(step) && Holds(s.workers[step.w], job, f)
    ensures Holds(Next(c, s, step).workers[step.w], job, FateAfter(f, step, step.w))
  {
  }

  lemma OthersHold(c: Config, s: Pool, step: Step, w: nat)
    requires Enabled(s, step) && w < |Next(c, s, step).workers| && !(ByWorker(step) && step.w == w)
    ensures Next(c, s, step).workers[w] == Waiting || (w < |s.workers| && Next(c, s, step).workers[w] == s.workers[w])
  {
  }

  /** Each worker holds what it took last. */
  ghost predicate Staffed(s: Pool, steps: seq<Step>) {
    forall w: nat :: w < |s.workers| ==> Holds(s.workers[w], JobOf(steps, w), FateOf(steps, w))
  }

  /** The state after these steps. */
  ghost predicate Follows(s: Pool, now: int, steps: seq<Step>) {
    Queued(s, Takes(steps)) && s.now == Clock(now, steps) && Staffed(s, steps)
  }

  lemma StepFollows(c: Config, s: Pool, now: int, steps: seq<Step>, step: Step)
    requires Follows(s, now, steps) && Enabled(s, step)
    ensures Follows(Next(c, s, step), now, steps + [step])
  {
    QueuedStep(c, s, Takes(steps), step);
    ClockMoves(c, s, step);
    StaffedStep(c, s, steps, step);
    Appended(now, steps, step, 0);
  }

  lemma StaffedStep(c: Config, s: Pool, steps: seq<Step>, step: Step)
    requires Queued(s, Takes(steps)) && Staffed(s, steps) && Enabled(s, step)
    ensures Staffed(Next(c, s, step), steps + [step])
  {
    forall w: nat | w < |Next(c, s, step).workers|
      ensures Holds(Next(c, s, step).workers[w], JobOf(steps + [step], w), FateOf(steps + [step], w))
    {
      WorkerFollows(c, s, steps, step, w);
    }
  }

  lemma ClockMoves(c: Config, s: Pool, step: Step)
    requires Enabled(s, step)
    ensures Next(c, s, step).now == s.now + if step.Tick? then step.elapsed else 0
  {
  }

  lemma WorkerFollows(c: Config, s: Pool, steps: seq<Step>, step: Step, w: nat)
    requires Queued(s, Takes(steps)) && Staffed(s, steps) && Enabled(s, step) && w < |Next(c, s, step).workers|
    ensures Holds(Next(c, s, step).workers[w], JobOf(steps + [step], w), FateOf(steps + [step], w))
  {
    Appended(0, steps, step, w);
    if UpToResult(step) && step.w == w {
      UpToResultHolds(c, s, step, JobOf(steps, w), FateOf(steps, w));
    } else if FromResult(step) && step.w == w {
      FromResultHolds(c, s, step, JobOf(steps, w), FateOf(steps, w));
    } else {
      OthersHold(c, s, step, w);
    }
  }

  lemma RunFollows(c: Config, n: nat, now: int, steps: seq<Step>, s: Pool)
    requires Run(c, Init(n, now), steps, s)
    ensures Follows(s, now, steps)
  {
    var p := (u, xs) => Follows(u, now, xs);
    forall u, xs, x | p(u, xs) && Enabled(u, x) ensures p(Next(c, u, x), xs + [x]) {
      StepFollows(c, u, now, xs, x);
    }
    WholeRun(c, p, Init(n, now), steps, s);
  }

  lemma SendEmits(c: Config, s: Pool, job: JobId, f: Fate, w: nat)
    requires Enabled(s, Send(w)) && Holds(s.workers[w], job, f)
    ensures var t := Next(c, s, Send(w));
            t.received == s.received && t.results == s.results + [JobResult(job, Success(f))]
  {
  }

  lemma OthersEmitNothing(c: Config, s: Pool, step: Step)
    requires Enabled(s, step) && !step.Send?
    ensures var t := Next(c, s, step); t.received + t.results == s.received + s.results
  {
  }

  ghost predicate Emits(s: Pool, now: int, steps: seq<Step>) {
    Follows(s, now, steps) && s.received + s.results == Emitted(steps)
  }

  lemma StepEmits(c: Config, s: Pool, now: int, steps: seq<Step>, step: Step)
    requires Emits(s, now, steps) && Enabled(s, step)
    ensures Emits(Next(c, s, step), now, steps + [step])
  {
    StepFollows(c, s, now, steps, step);
    if step.Send? {
      SendEmits(c, s, JobOf(steps, step.w), FateOf(steps, step.w), step.w);
    } else {
      OthersEmitNothing(c, s, step);
    }
    assert (steps + [step])[..|steps|] == steps;
  }

  /** The results sent are exactly those the schedule tells, in its order: the i-th Take gets the i-th job accepted,
      and a job's result is without error exactly when executeJob finished it without one. */
  lemma ResultsFollow(c: Config, n: nat, now: int, steps: seq<Step>, s: Pool)
    requires Run(c, Init(n, now), steps, s)
    ensures s.received + s.results == Emitted(steps)
  {
    var p := (u, xs) => Emits(u, now, xs);
    forall u, xs, x | p(u, xs) && Enabled(u, x) ensures p(Next(c, u, x), xs + [x]) {
      StepEmits(c, u, now, xs, x);
    }
    WholeRun(c, p, Init(n, now), steps, s);
  }

  // One verdict for each result.

  ghost function Is(j: JobId, ok: bool): JobResult -> int { (r: JobResult) => if r == JobResult(j, ok) then 1 else 0 }

  /** Decided this way, with the result still to be sent. */
  ghost function Decided(j: JobId, ok: bool): Worker -> int {
    (p: Worker) => if p == Ran(j, ok) || (p == LimitError(j) && !ok) then 1 else 0
  }

  ghost function Shown(s: Pool, j: JobId, ok: bool): int {
    Total(Is(j, ok), s.received) + Total(Is(j, ok), s.results) + Total(Decided(j, ok), s.workers)
  }

  /** Every verdict is shown by a result or by a worker, or its job was dropped; and nothing else is shown. */
  ghost predicate Backed(s: Pool, verdicts: seq<JobResult>, j: JobId, ok: bool) {
    Shown(s, j, ok) <= Total(Is(j, ok), verdicts) <= Shown(s, j, ok) + Total(IsJob(j), s.dropped)
  }

  /** A verdict is what a worker then shows. */
  lemma VerdictShown(c: Config, s: Pool, steps: seq<Step>, step: Step, j: JobId, ok: bool)
    requires Enabled(s, step) && UpToResult(step)
    requires Holds(s.workers[step.w], JobOf(steps, step.w), FateOf(steps, step.w))
    ensures var t := Next(c, s, step);
            && t.workers == s.workers[step.w := t.workers[step.w]]
            && t.received == s.received && t.results == s.results
            && Decided(j, ok)(t.workers[step.w])
                 == Decided(j, ok)(s.workers[step.w])
                    + if Verdict(steps, step) == [JobResult(j, ok)] then 1 else 0
  {
  }

  lemma VerdictCounted(steps: seq<Step>, step: Step, j: JobId, ok: bool)
    ensures Total(Is(j, ok), Verdicts(steps) + Verdict(steps, step))
            == Total(Is(j, ok), Verdicts(steps)) + if Verdict(steps, step) == [JobResult(j, ok)] then 1 else 0
  {
    if Verdict(steps, step) == [] {
      assert Verdicts(steps) + [] == Verdicts(steps);
    } else {
      TotalSnoc(Is(j, ok), Verdicts(steps), Verdict(steps, step)[0]);
    }
  }

  lemma DecisionBacked(c: Config, s: Pool, now: int, steps: seq<Step>, step: Step, j: JobId, ok: bool)
    requires Follows(s, now, steps) && Enabled(s, step) && UpToResult(step) && Backed(s, Verdicts(steps), j, ok)
    ensures Backed(Next(c, s, step), Verdicts(steps) + Verdict(steps, step), j, ok)
  {
    VerdictShown(c, s, steps, step, j, ok);
    VerdictCounted(steps, step, j, ok);
    TotalMove(Decided(j, ok), s.workers, step.w, Next(c, s, step).workers[step.w]);
    DropCounted(c, s, step, j);
  }

  lemma DropCounted(c: Config, s: Pool, step: Step, j: JobId)
    requires Enabled(s, step) && ByWorker(step)
    ensures Total(IsJob(j), s.dropped) <= Total(IsJob(j), Next(c, s, step).dropped)
    ensures step.Abandon? && s.workers[step.w].job == j ==>
              Total(IsJob(j), Next(c, s, step).dropped) == Total(IsJob(j), s.dropped) + 1
  {
    if step.TestContext? || step.Abandon? {
      TotalSnoc(IsJob(j), s.dropped, s.workers[step.w].job);
    }
  }

  lemma SendBacked(c: Config, s: Pool, w: nat, verdicts: seq<JobResult>, j: JobId, ok: bool)
    requires Enabled(s, Send(w)) && Backed(s, verdicts, j, ok)
    ensures Backed(Next(c, s, Send(w)), verdicts, j, ok)
  {
    var t := Next(c, s, Send(w));
    TotalMove(Decided(j, ok), s.workers, w, t.workers[w]);
    TotalSnoc(Is(j, ok), s.results, t.results[|s.results|]);
  }

  lemma LaterBacked(c: Config, s: Pool, step: Step, verdicts: seq<JobResult>, j: JobId, ok: bool)
    requires Enabled(s, step) && FromResult(step) && !step.Send? && Backed(s, verdicts, j, ok)
    ensures Backed(Next(c, s, step), verdicts, j, ok)
  {
    var t := Next(c, s, step);
    TotalMove(Decided(j, ok), s.workers, step.w, t.workers[step.w]);
    assert t.workers == s.workers[step.w := t.workers[step.w]];
    DropCounted(c, s, step, j);
  }

  lemma OthersBacked(c: Config, s: Pool, step: Step, verdicts: seq<JobResult>, j: JobId, ok: bool)
    requires Sized(c, s) && Enabled(s, step) && !ByWorker(step) && Backed(s, verdicts, j, ok)
    ensures Backed(Next(c, s, step), verdicts, j, ok)
  {
    if step == Start {
      TotalZero(Decided(j, ok), Next(c, s, step).workers);
    } else if step == Receive {
      TotalSnoc(Is(j, ok), s.received, s.results[0]);
    } else {
      ResultsUntouched(c, s, step);
    }
  }

  lemma ResultsUntouched(c: Config, s: Pool, step: Step)
    requires Enabled(s, step) && !ByWorker(step) && step != Start && step != Receive
    ensures var t := Next(c, s, step);
            t.received == s.received && t.results == s.results && t.workers == s.workers && t.dropped == s.dropped
  {
  }

  lemma StepBacked(c: Config, s: Pool, now: int, steps: seq<Step>, step: Step, j: JobId, ok: bool)
    requires Sized(c, s) && Follows(s, now, steps) && Enabled(s, step) && Backed(s, Verdicts(steps), j, ok)
    ensures Backed(Next(c, s, step), Verdicts(steps + [step]), j, ok)
  {
    Appended(now, steps, step, 0);
    if UpToResult(step) {
      DecisionBacked(c, s, now, steps, step, j, ok);
    } else {
      assert Verdicts(steps) + [] == Verdicts(steps);
      if step.Send? {
        SendBacked(c, s, step.w, Verdicts(steps), j, ok);
      } else if FromResult(step) {
        LaterBacked(c, s, step, Verdicts(steps), j, ok);
      } else {
        OthersBacked(c, s, step, Verdicts(steps), j, ok);
      }
    }
  }

  /** The pool after these steps, with all its books. */
  ghost predicate After(c: Config, s: Pool, now: int, steps: seq<Step>, j: JobId, ok: bool) {
    Inv(c, s, j) && Follows(s, now, steps) && Backed(s, Verdicts(steps), j, ok)
  }

  lemma StepAfter(c: Config, s: Pool, now: int, steps: seq<Step>, step: Step, j: JobId, ok: bool)
    requires After(c, s, now, steps, j, ok) && Enabled(s, step)
    ensures After(c, Next(c, s, step), now, steps + [step], j, ok)
  {
    StepKeeps(c, s, step, j);
    StepFollows(c, s, now, steps, step);
    StepBacked(c, s, now, steps, step, j, ok);
  }

  ghost function Books(c: Config, now: int, j: JobId, ok: bool): (Pool, seq<Step>) -> bool {
    (s: Pool, steps: seq<Step>) => After(c, s, now, steps, j, ok)
  }

  lemma BooksKept(c: Config, now: int, j: JobId, ok: bool)
    ensures Inductive(c, Books(c, now, j, ok))
  {
    var p := Books(c, now, j, ok);
    forall s, steps, step | p(s, steps) && Enabled(s, step) ensures p(Next(c, s, step), steps + [step]) {
      StepAfter(c, s, now, steps, step, j, ok);
    }
  }

  lemma InitAfter(c: Config, n: nat, now: int, j: JobId, ok: bool)
    ensures After(c, Init(n, now), now, [], j, ok)
  {
    InitInv(c, n, now, j);
  }

  lemma RunBacked(c: Config, n: nat, now: int, steps: seq<Step>, s: Pool, j: JobId, ok: bool)
    requires Run(c, Init(n, now), steps, s)
    ensures Backed(s, Verdicts(steps), j, ok)
  {
    BooksKept(c, now, j, ok);
    InitAfter(c, n, now, j, ok);
    WholeRun(c, Books(c, now, j, ok), Init(n, now), steps, s);
  }

  lemma {:induction false} TotalsAdd(j: JobId, rs: seq<JobResult>)
    ensures Total(ForJob(j), rs) == Total(Is(j, true), rs) + Total(Is(j, false), rs)
    ensures Total(Is(j, true), rs) >= 0 && Total(Is(j, false), rs) >= 0
  {
    if rs != [] {
      TotalsAdd(j, rs[1..]);
    }
  }

  lemma InTotal(r: JobResult, rs: seq<JobResult>)
    ensures r in rs <==> Total(Is(r.job, r.ok), rs) > 0
  {
    TotalZero(Is(r.job, r.ok), rs);
    TotalNonNegative(Is(r.job, r.ok), rs);
  }

  /** A job with a result is nowhere else: it has no worker with a verdict to send, and was not dropped. */
  lemma SentIsPlaced(c: Config, s: Pool, r: JobResult, ok: bool)
    requires Inv(c, s, r.job) && r in s.received + s.results
    ensures Total(IsJob(r.job), s.dropped) == 0 && Total(Decided(r.job, ok), s.workers) == 0
    ensures Total(Is(r.job, !r.ok), s.received) + Total(Is(r.job, !r.ok), s.results) == 0
  {
    var j := r.job;
    InTotal(r, s.received + s.results);
    TotalAppend(Is(j, r.ok), s.received, s.results);
    TotalsAdd(j, s.received);
    TotalsAdd(j, s.results);
    TotalNonNegative(IsJob(j), s.queue);
    TotalNonNegative(IsJob(j), s.dropped);
    TotalNonNegative(Unsent(j), s.workers);
    TotalNonNegative(Decided(j, ok), s.workers);
    TotalMonotone(Decided(j, ok), Unsent(j), s.workers);
  }

  /** In every interleaving the result of a job is its one verdict: it is without error exactly when executeJob
      finished that job without one, and with one exactly when executeJob failed or the rate limiter refused. */
  lemma ResultIsVerdict(c: Config, n: nat, now: int, steps: seq<Step>, s: Pool, r: JobResult, ok: bool)
    requires Run(c, Init(n, now), steps, s) && r in s.received + s.results
    ensures JobResult(r.job, ok) in Verdicts(steps) <==> ok == r.ok
  {
    InitInv(c, n, now, r.job);
    RunKeeps(c, Init(n, now), steps, s, r.job);
    RunBacked(c, n, now, steps, s, r.job, ok);
    SentIsPlaced(c, s, r, ok);
    InTotal(JobResult(r.job, ok), Verdicts(steps));
    InTotal(r, s.received + s.results);
    TotalAppend(Is(r.job, r.ok), s.received, s.results);
  }

  /** Step k is the end of executeJob for job j. */
  ghost predicate FinishedAt(steps: seq<Step>, k: nat, j: JobId, ok: bool) {
    k < |steps| && steps[k].Finish? && steps[k].ok == ok && JobOf(steps[..k], steps[k].w) == j
  }

  /** Step k is the rate limiter's refusal of job j. */
  ghost predicate LimitedAt(steps: seq<Step>, k: nat, j: JobId) {
    k < |steps| && steps[k].Limit? && !steps[k].granted && JobOf(steps[..k], steps[k].w) == j
  }

  lemma {:induction false} VerdictSteps(steps: seq<Step>, j: JobId, ok: bool)
    ensures JobResult(j, ok) in Verdicts(steps) <==>
              exists k: nat :: FinishedAt(steps, k, j, ok) || (!ok && LimitedAt(steps, k, j))
  {
    if steps != [] {
      var n := |steps| - 1;
      VerdictSteps(steps[..n], j, ok);
      assert forall k: nat :: k < n ==> steps[..n][..k] == steps[..k];
      assert JobResult(j, ok) in Verdict(steps[..n], steps[n]) <==>
               FinishedAt(steps, n, j, ok) || (!ok && LimitedAt(steps, n, j));
      assert forall k: nat :: FinishedAt(steps[..n], k, j, ok) <==> k < n && FinishedAt(steps, k, j, ok);
      assert forall k: nat :: LimitedAt(steps[..n], k, j) <==> k < n && LimitedAt(steps, k, j);
    }
  }

  /** The same, step by step; and a job the rate limiter refused has its result with an error. */
  lemma OkExactly(c: Config, n: nat, now: int, steps: seq<Step>, s: Pool, r: JobResult)
    requires Run(c, Init(n, now), steps, s) && r in s.received + s.results
    ensures r.ok <==> exists k: nat :: FinishedAt(steps, k, r.job, true)
    ensures !r.ok <==> exists k: nat :: FinishedAt(steps, k, r.job, false) || LimitedAt(steps, k, r.job)
  {
    ResultIsVerdict(c, n, now, steps, s, r, true);
    ResultIsVerdict(c, n, now, steps, s, r, false);
    VerdictSteps(steps, r.job, true);
    VerdictSteps(steps, r.job, false);
  }

  // The monitor.

  /** What the workers record along a run, and after it what the rest of the schedule tells. */
  lemma {:induction false} RestRecords(
      c: Config, s: Pool, now: int, done: seq<Step>, steps: seq<Step>, t: Pool)
    requires Follows(s, now, done) && Run(c, s, steps, t)
    ensures Said(now, done + steps) == Said(now, done) + PoolCircuit.Outcomes(c, s, steps, t)
    decreases |steps|
  {
    if steps == [] {
      assert done + steps == done;
    } else {
      StepFollows(c, s, now, done, steps[0]);
      RestRecords(c, Next(c, s, steps[0]), now, done + [steps[0]], steps[1..], t);
      assert done + [steps[0]] + steps[1..] == done + steps;
      assert (done + [steps[0]])[..|done|] == done;
      RecordTells(s, now, done, steps[0]);
    }
  }

  lemma RecordTells(s: Pool, now: int, steps: seq<Step>, step: Step)
    requires Follows(s, now, steps) && Enabled(s, step)
    ensures step.Record? ==>
              Success(FateOf(steps, step.w)) == s.workers[step.w].ok && s.now == Clock(now, steps)
  {
  }

  /** The monitor is told, in order, exactly the outcome of each job's executeJob, at the time of the telling. */
  lemma RecordsFollow(c: Config, n: nat, now: int, steps: seq<Step>, s: Pool)
    requires Run(c, Init(n, now), steps, s)
    ensures PoolCircuit.Outcomes(c, Init(n, now), steps, s) == Said(now, steps)
  {
    RestRecords(c, Init(n, now), now, [], steps, s);
    assert [] + steps == steps;
  }

  /** The latest end of executeJob in worker w, with nothing taken, refused or recorded there since. */
  ghost predicate LatestFinish(steps: seq<Step>, k: nat, w: nat, ok: bool) {
    && k < |steps| && steps[k] == Finish(w, ok)
    && forall m :: k < m < |steps| ==>
         steps[m] != Take(w) && steps[m] != Record(w) && steps[m] != Limit(w, false)
         && !(steps[m].Finish? && steps[m].w == w)
  }

  lemma {:induction false} FateTells(steps: seq<Step>, w: nat, ok: bool) returns (k: nat)
    requires FateOf(steps, w) == Finished(ok)
    ensures LatestFinish(steps, k, w, ok)
  {
    var n := |steps| - 1;
    if steps[n].Finish? && steps[n].w == w {
      k := n;
    } else {
      k := FateTells(steps[..n], w, ok);
    }
  }

  /** Every record has an executeJob of its own before it in the same worker, whose outcome it reports. */
  lemma RecordHasFinish(c: Config, n: nat, now: int, steps: seq<Step>, s: Pool, w: nat) returns (k: nat, ok: bool)
    requires Run(c, Init(n, now), steps, s) && Enabled(s, Record(w))
    ensures LatestFinish(steps, k, w, ok) && ok == s.workers[w].ok
    ensures Next(c, s, Record(w)).monitor == ErrorRate.Record(c.limits, s.monitor, Clock(now, steps), !ok)
  {
    RunFollows(c, n, now, steps, s);
    ok := s.workers[w].ok;
    k := FateTells(steps, w, ok);
  }

  // Admission.

  /** The checks of Submit that the validator and the memory limit let through. */
  ghost function Passed(steps: seq<Step>): nat {
    if steps == [] then 0
    else Passed(steps[..|steps| - 1])
         + if steps[|steps| - 1].SubmitCheck? && steps[|steps| - 1].admissible then 1 else 0
  }

  ghost function Entering(p: Submitter): int { if p.Checked? then 1 else 0 }

  ghost predicate Vetted(s: Pool, steps: seq<Step>) {
    s.accepted + Total(Entering, s.submitters) <= Passed(steps)
  }

  lemma StepVetted(c: Config, s: Pool, steps: seq<Step>, step: Step)
    requires Vetted(s, steps) && Enabled(s, step)
    ensures Vetted(Next(c, s, step), steps + [step])
  {
    assert (steps + [step])[..|steps|] == steps;
    if step.SubmitCheck? || step.SubmitEnqueue? || step.SubmitRefuse? || step.SubmitCount? {
      TotalMove(Entering, s.submitters, step.i, Next(c, s, step).submitters[step.i]);
    }
  }

  /** No more jobs are accepted than passed the checks: one that is not admissible is never enqueued. */
  lemma AcceptedPassed(c: Config, n: nat, now: int, steps: seq<Step>, s: Pool)
    requires Run(c, Init(n, now), steps, s)
    ensures s.accepted <= Passed(steps)
  {
    var p := (u, xs) => Vetted(u, xs);
    forall u, xs, x | p(u, xs) && Enabled(u, x) ensures p(Next(c, u, x), xs + [x]) {
      StepVetted(c, u, xs, x);
    }
    TotalZero(Entering, Init(n, now).submitters);
    WholeRun(c, p, Init(n, now), steps, s);
    TotalNonNegative(Entering, s.submitters);
  }
}
