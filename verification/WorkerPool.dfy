/** SecureWorkerPool as a step system: any number of submitters, a bounded job channel, the workers and
    a bounded results channel. Every atomic operation of Submit and worker is one step, so a run is one
    interleaving. Job identities are ghost: they number the accepted jobs (Job.ID itself repeats). */
module WorkerPool {
  import opened Folds
  import ErrorRate

  const MAX_QUEUE_SIZE: nat := 100

  type JobId = nat

  /** A JobResult: whose it is, and whether its error is nil. */
  datatype JobResult = JobResult(job: JobId, ok: bool)

  /** A Submit call: not in one, past its checks, or with its job enqueued and not yet counted. */
  datatype Submitter = Away | Checked | Enqueued(job: JobId)

  /** Where a worker goroutine is in its loop. */
  datatype Worker =
    | Waiting                                         // at the head of `range p.jobs`
    | Took(job: JobId)                                // before the context test
    | Limiting(job: JobId)                            // in rateLimiter.Wait
    | LimitError(job: JobId)                          // about to send the rate-limit error
    | Running(job: JobId)                             // in executeJob
    | Ran(job: JobId, ok: bool)                       // in the result select
    | Sent(job: JobId, ok: bool, limited: bool)       // result on the channel, activeJobs not decremented
    | GivingUp(job: JobId)                            // saw the pool context done
    | Counting(ok: bool, limited: bool)               // about to bump completedJobs or failedJobs
    | Recording(ok: bool)                             // about to call the error-rate monitor
    | Exited

  datatype Config = Config(workers: nat, limits: ErrorRate.Limits)

  datatype Pool = Pool(
    started: bool, stopped: bool, ctxDone: bool, now: int,
    queue: seq<JobId>, results: seq<JobResult>,
    submitters: seq<Submitter>, workers: seq<Worker>,
    activeJobs: int, completedJobs: nat, failedJobs: nat,
    monitor: ErrorRate.Monitor,
    accepted: nat, received: seq<JobResult>, dropped: seq<JobId>)

  datatype Step =
    | Start | Stop | Cancel | Tick(elapsed: nat)
    | SubmitCheck(i: nat, admissible: bool)           // admissible: the validator and memory tests pass
    | SubmitEnqueue(i: nat)
    | SubmitRefuse(i: nat)                            // queue full for a second, or context done
    | SubmitCount(i: nat)
    | Take(w: nat) | Exit(w: nat)
    | TestContext(w: nat)
    | Limit(w: nat, granted: bool)
    | Finish(w: nat, ok: bool)
    | Send(w: nat) | Abandon(w: nat)
    | Release(w: nat) | Count(w: nat) | Record(w: nat)
    | Receive                                         // the consumer takes one result

  ghost function Init(submitters: nat, now: int): Pool {
    Pool(false, false, false, now, [], [], seq(submitters, _ => Away), [], 0, 0, 0,
         ErrorRate.Fresh(now), 0, [], [])
  }

  ghost predicate Enabled(s: Pool, step: Step) {
    match step
    case Start => !s.started
    // Stop does not run while a Submit is between its checks and its return.
    case Stop => !s.stopped && forall i :: 0 <= i < |s.submitters| ==> s.submitters[i] == Away
    case Cancel => true
    case Tick(_) => true
    case SubmitCheck(i, _) => i < |s.submitters| && s.submitters[i] == Away
    case SubmitEnqueue(i) => i < |s.submitters| && s.submitters[i] == Checked && |s.queue| < MAX_QUEUE_SIZE
    case SubmitRefuse(i) => i < |s.submitters| && s.submitters[i] == Checked
    case SubmitCount(i) => i < |s.submitters| && s.submitters[i].Enqueued?
    case Take(w) => w < |s.workers| && s.workers[w] == Waiting && s.queue != []
    case Exit(w) => w < |s.workers| && s.workers[w] == Waiting && s.queue == [] && s.stopped
    case TestContext(w) => w < |s.workers| && s.workers[w].Took?
    case Limit(w, _) => w < |s.workers| && s.workers[w].Limiting?
    case Finish(w, _) => w < |s.workers| && s.workers[w].Running?
    case Send(w) =>
      w < |s.workers| && (s.workers[w].Ran? || s.workers[w].LimitError?) && |s.results| < MAX_QUEUE_SIZE
    case Abandon(w) => w < |s.workers| && s.workers[w].Ran? && s.ctxDone
    case Release(w) => w < |s.workers| && (s.workers[w].Sent? || s.workers[w].GivingUp?)
    case Count(w) => w < |s.workers| && s.workers[w].Counting?
    case Record(w) => w < |s.workers| && s.workers[w].Recording?
    case Receive => s.results != []
  }

  ghost function Submitting(s: Pool, i: nat, p: Submitter): Pool
    requires i < |s.submitters|
  {
    s.(submitters := s.submitters[i := p])
  }

  ghost function Working(s: Pool, w: nat, p: Worker): Pool
    requires w < |s.workers|
  {
    s.(workers := s.workers[w := p])
  }

  ghost function Next(c: Config, s: Pool, step: Step): Pool
    requires Enabled(s, step)
  {
    match step
    case Start => s.(started := true, workers := seq(c.workers, _ => Waiting))
    case Stop => s.(stopped := true)
    case Cancel => s.(ctxDone := true)
    case Tick(d) => s.(now := s.now + d)
    case SubmitCheck(i, admissible) =>
      if s.started && !s.stopped && !s.monitor.open && admissible then Submitting(s, i, Checked) else s
    case SubmitEnqueue(i) =>
      Submitting(s, i, Enqueued(s.accepted)).(queue := s.queue + [s.accepted], accepted := s.accepted + 1)
    case SubmitRefuse(i) => Submitting(s, i, Away)
    case SubmitCount(i) => Submitting(s, i, Away).(activeJobs := s.activeJobs + 1)
    case Take(w) => Working(s, w, Took(s.queue[0])).(queue := s.queue[1..])
    case Exit(w) => Working(s, w, Exited)
    case TestContext(w) =>
      var j := s.workers[w].job;
      if s.ctxDone then Working(s, w, GivingUp(j)).(dropped := s.dropped + [j])
      else Working(s, w, Limiting(j))
    case Limit(w, granted) =>
      Working(s, w, if granted then Running(s.workers[w].job) else LimitError(s.workers[w].job))
    case Finish(w, ok) => Working(s, w, Ran(s.workers[w].job, ok))
    case Send(w) =>
      var p := s.workers[w];
      Working(s, w, Sent(p.job, p.Ran? && p.ok, p.LimitError?))
        .(results := s.results + [JobResult(p.job, p.Ran? && p.ok)])
    case Abandon(w) =>
      Working(s, w, GivingUp(s.workers[w].job)).(dropped := s.dropped + [s.workers[w].job])
    case Release(w) =>
      var p := s.workers[w];
      Working(s, w, if p.Sent? then Counting(p.ok, p.limited) else Exited).(activeJobs := s.activeJobs - 1)
    case Count(w) =>
      var p := s.workers[w];
      var won := if p.ok && !p.limited then 1 else 0;
      Working(s, w, if p.limited then Waiting else Recording(p.ok))
        .(completedJobs := s.completedJobs + won, failedJobs := s.failedJobs + 1 - won)
    case Record(w) =>
      Working(s, w, Waiting)
        .(monitor := ErrorRate.Record(c.limits, s.monitor, s.now, !s.workers[w].ok))
    case Receive => s.(results := s.results[1..], received := s.received + [s.results[0]])
  }

  ghost predicate Run(c: Config, s: Pool, steps: seq<Step>, t: Pool)
    decreases |steps|
  {
    if steps == [] then s == t
    else Enabled(s, steps[0]) && Run(c, Next(c, s, steps[0]), steps[1..], t)
  }

  // What each process contributes to the books.

  /** The job is enqueued and its Submit has not yet added one to activeJobs. */
  ghost function Uncounted(p: Submitter): int { if p.Enqueued? then 1 else 0 }

  /** A job taken from the queue for which activeJobs has not yet been decremented. */
  ghost function Held(p: Worker): int {
    if p.Waiting? || p.Counting? || p.Recording? || p.Exited? then 0 else 1
  }

  /** Job j, held with its result still to come. */
  ghost function Unsent(j: JobId): Worker -> int {
    (p: Worker) => if Held(p) == 1 && !p.Sent? && !p.GivingUp? && p.job == j then 1 else 0
  }

  /** A sent result of this kind that is in neither completedJobs nor failedJobs yet. */
  ghost function Uncredited(ok: bool): Worker -> int {
    (p: Worker) => if (p.Sent? || p.Counting?) && (p.ok && !p.limited) == ok then 1 else 0
  }

  ghost function IsJob(j: JobId): JobId -> int { (k: JobId) => if k == j then 1 else 0 }

  ghost function ForJob(j: JobId): JobResult -> int { (r: JobResult) => if r.job == j then 1 else 0 }

  ghost function OfKind(ok: bool): JobResult -> int { (r: JobResult) => if r.ok == ok then 1 else 0 }

  /** activeJobs plus the uncounted Submits are the queued and the held jobs. */
  ghost predicate Active(s: Pool) {
    s.activeJobs + Total(Uncounted, s.submitters) == |s.queue| + Total(Held, s.workers)
  }

  /** In how many places job j is: queued, held without a sent result, on the results channel or
      received from it, dropped on cancellation. */
  ghost function Places(s: Pool, j: JobId): int {
    Total(IsJob(j), s.queue) + Total(Unsent(j), s.workers)
    + Total(ForJob(j), s.received) + Total(ForJob(j), s.results) + Total(IsJob(j), s.dropped)
  }

  /** Job j, once accepted, is in exactly one place. */
  ghost predicate Placed(s: Pool, j: JobId) {
    Places(s, j) == if j < s.accepted then 1 else 0
  }

  /** The results sent, by whether their error is nil, are those counted and those about to be. */
  ghost predicate Credited(s: Pool) {
    && s.completedJobs + Total(Uncredited(true), s.workers)
         == Total(OfKind(true), s.received) + Total(OfKind(true), s.results)
    && s.failedJobs + Total(Uncredited(false), s.workers)
         == Total(OfKind(false), s.received) + Total(OfKind(false), s.results)
  }

  ghost predicate Sized(c: Config, s: Pool) {
    && |s.queue| <= MAX_QUEUE_SIZE && |s.results| <= MAX_QUEUE_SIZE
    && |s.workers| == (if s.started then c.workers else 0)
    && (!s.started ==> s.queue == [])
    && (!s.ctxDone ==> s.dropped == [])
  }

  ghost predicate Phased(s: Pool) {
    && (forall i :: 0 <= i < |s.submitters| && s.submitters[i] != Away ==> s.started && !s.stopped)
    && (forall w :: 0 <= w < |s.workers| && s.workers[w] == Exited ==> s.ctxDone || (s.stopped && s.queue == []))
    && (forall w :: 0 <= w < |s.workers| && s.workers[w].GivingUp? ==> s.ctxDone)
  }

  /** The invariant, with the books kept for an arbitrary job j. */
  ghost predicate Inv(c: Config, s: Pool, j: JobId) {
    Sized(c, s) && Phased(s) && Active(s) && Placed(s, j) && Credited(s)
  }

  lemma InitInv(c: Config, submitters: nat, now: int, j: JobId)
    ensures Inv(c, Init(submitters, now), j)
  {
    TotalZero(Uncounted, Init(submitters, now).submitters);
  }

  lemma WorkerMoves(s: Pool, w: nat, p: Worker, j: JobId)
    requires w < |s.workers|
    ensures var ws := s.workers[w := p];
            && Total(Held, ws) == Total(Held, s.workers) - Held(s.workers[w]) + Held(p)
            && Total(Unsent(j), ws) == Total(Unsent(j), s.workers) - Unsent(j)(s.workers[w]) + Unsent(j)(p)
            && Total(Uncredited(true), ws)
                 == Total(Uncredited(true), s.workers) - Uncredited(true)(s.workers[w]) + Uncredited(true)(p)
            && Total(Uncredited(false), ws)
                 == Total(Uncredited(false), s.workers) - Uncredited(false)(s.workers[w]) + Uncredited(false)(p)
  {
    TotalMove(Held, s.workers, w, p);
    TotalMove(Unsent(j), s.workers, w, p);
    TotalMove(Uncredited(true), s.workers, w, p);
    TotalMove(Uncredited(false), s.workers, w, p);
  }

  lemma StartKeeps(c: Config, s: Pool, j: JobId)
    requires Inv(c, s, j) && Enabled(s, Start)
    ensures Inv(c, Next(c, s, Start), j)
  {
    var t := Next(c, s, Start);
    TotalZero(Held, t.workers);
    TotalZero(Unsent(j), t.workers);
    TotalZero(Uncredited(true), t.workers);
    TotalZero(Uncredited(false), t.workers);
  }

  lemma EnvironmentKeeps(c: Config, s: Pool, step: Step, j: JobId)
    requires Inv(c, s, j) && Enabled(s, step) && (step.Stop? || step.Cancel? || step.Tick?)
    ensures Inv(c, Next(c, s, step), j)
  {
  }

  lemma ReceiveKeeps(c: Config, s: Pool, j: JobId)
    requires Inv(c, s, j) && Enabled(s, Receive)
    ensures Inv(c, Next(c, s, Receive), j)
  {
    TotalSnoc(ForJob(j), s.received, s.results[0]);
    TotalSnoc(OfKind(true), s.received, s.results[0]);
    TotalSnoc(OfKind(false), s.received, s.results[0]);
  }

  lemma SubmitKeeps(c: Config, s: Pool, step: Step, j: JobId)
    requires Inv(c, s, j) && Enabled(s, step)
    requires step.SubmitCheck? || step.SubmitRefuse? || step.SubmitCount?
    ensures Inv(c, Next(c, s, step), j)
  {
    TotalMove(Uncounted, s.submitters, step.i, Next(c, s, step).submitters[step.i]);
  }

  lemma EnqueueKeeps(c: Config, s: Pool, i: nat, j: JobId)
    requires Inv(c, s, j) && Enabled(s, SubmitEnqueue(i))
    ensures Inv(c, Next(c, s, SubmitEnqueue(i)), j)
  {
    TotalMove(Uncounted, s.submitters, i, Enqueued(s.accepted));
    TotalSnoc(IsJob(j), s.queue, s.accepted);
  }

  lemma TakeKeeps(c: Config, s: Pool, w: nat, j: JobId)
    requires Inv(c, s, j) && Enabled(s, Take(w))
    ensures Inv(c, Next(c, s, Take(w)), j)
  {
    WorkerMoves(s, w, Took(s.queue[0]), j);
  }

  lemma ExitKeeps(c: Config, s: Pool, w: nat, j: JobId)
    requires Inv(c, s, j) && Enabled(s, Exit(w))
    ensures Inv(c, Next(c, s, Exit(w)), j)
  {
    WorkerMoves(s, w, Exited, j);
  }

  lemma LimitKeeps(c: Config, s: Pool, w: nat, granted: bool, j: JobId)
    requires Inv(c, s, j) && Enabled(s, Limit(w, granted))
    ensures Inv(c, Next(c, s, Limit(w, granted)), j)
  {
    WorkerMoves(s, w, if granted then Running(s.workers[w].job) else LimitError(s.workers[w].job), j);
  }

  lemma FinishKeeps(c: Config, s: Pool, w: nat, ok: bool, j: JobId)
    requires Inv(c, s, j) && Enabled(s, Finish(w, ok))
    ensures Inv(c, Next(c, s, Finish(w, ok)), j)
  {
    WorkerMoves(s, w, Ran(s.workers[w].job, ok), j);
  }

  lemma TestContextKeeps(c: Config, s: Pool, w: nat, j: JobId)
    requires Inv(c, s, j) && Enabled(s, TestContext(w))
    ensures Inv(c, Next(c, s, TestContext(w)), j)
  {
    WorkerMoves(s, w, if s.ctxDone then GivingUp(s.workers[w].job) else Limiting(s.workers[w].job), j);
    TotalSnoc(IsJob(j), s.dropped, s.workers[w].job);
  }

  lemma AbandonKeeps(c: Config, s: Pool, w: nat, j: JobId)
    requires Inv(c, s, j) && Enabled(s, Abandon(w))
    ensures Inv(c, Next(c, s, Abandon(w)), j)
  {
    WorkerMoves(s, w, GivingUp(s.workers[w].job), j);
    TotalSnoc(IsJob(j), s.dropped, s.workers[w].job);
  }

  lemma SendCredits(c: Config, s: Pool, w: nat)
    requires Credited(s) && Enabled(s, Send(w))
    ensures Credited(Next(c, s, Send(w)))
  {
    var t := Next(c, s, Send(w));
    TotalMove(Uncredited(true), s.workers, w, t.workers[w]);
    TotalMove(Uncredited(false), s.workers, w, t.workers[w]);
    TotalSnoc(OfKind(true), s.results, t.results[|s.results|]);
    TotalSnoc(OfKind(false), s.results, t.results[|s.results|]);
  }

  lemma SendPlaces(c: Config, s: Pool, w: nat, j: JobId)
    requires Placed(s, j) && Enabled(s, Send(w))
    ensures Placed(Next(c, s, Send(w)), j)
  {
    var t := Next(c, s, Send(w));
    TotalMove(Unsent(j), s.workers, w, t.workers[w]);
    TotalSnoc(ForJob(j), s.results, t.results[|s.results|]);
  }

  lemma SendKeeps(c: Config, s: Pool, w: nat, j: JobId)
    requires Inv(c, s, j) && Enabled(s, Send(w))
    ensures Inv(c, Next(c, s, Send(w)), j)
  {
    SendCredits(c, s, w);
    SendPlaces(c, s, w, j);
    TotalMove(Held, s.workers, w, Next(c, s, Send(w)).workers[w]);
  }

  lemma ReleaseKeeps(c: Config, s: Pool, w: nat, j: JobId)
    requires Inv(c, s, j) && Enabled(s, Release(w))
    ensures Inv(c, Next(c, s, Release(w)), j)
  {
    WorkerMoves(s, w, Next(c, s, Release(w)).workers[w], j);
  }

  lemma CountCredits(c: Config, s: Pool, w: nat)
    requires Credited(s) && Enabled(s, Count(w))
    ensures Credited(Next(c, s, Count(w)))
  {
    var q := Next(c, s, Count(w)).workers[w];
    TotalMove(Uncredited(true), s.workers, w, q);
    TotalMove(Uncredited(false), s.workers, w, q);
  }

  lemma CountPlaces(c: Config, s: Pool, w: nat, j: JobId)
    requires Placed(s, j) && Enabled(s, Count(w))
    ensures Placed(Next(c, s, Count(w)), j)
  {
    TotalMove(Unsent(j), s.workers, w, Next(c, s, Count(w)).workers[w]);
  }

  lemma CountKeeps(c: Config, s: Pool, w: nat, j: JobId)
    requires Inv(c, s, j) && Enabled(s, Count(w))
    ensures Inv(c, Next(c, s, Count(w)), j)
  {
    CountCredits(c, s, w);
    CountPlaces(c, s, w, j);
    TotalMove(Held, s.workers, w, Next(c, s, Count(w)).workers[w]);
  }

  lemma RecordKeeps(c: Config, s: Pool, w: nat, j: JobId)
    requires Inv(c, s, j) && Enabled(s, Record(w))
    ensures Inv(c, Next(c, s, Record(w)), j)
  {
    WorkerMoves(s, w, Waiting, j);
  }

  /** A worker's step. */
  ghost predicate ByWorker(step: Step) { UpToResult(step) || FromResult(step) }

  /** Up to a job's result. */
  ghost predicate UpToResult(step: Step) {
    step.Take? || step.Exit? || step.TestContext? || step.Limit? || step.Finish?
  }

  /** From a job's result on. */
  ghost predicate FromResult(step: Step) {
    step.Send? || step.Abandon? || step.Release? || step.Count? || step.Record?
  }

  lemma UpToResultKeeps(c: Config, s: Pool, step: Step, j: JobId)
    requires Inv(c, s, j) && Enabled(s, step) && UpToResult(step)
    ensures Inv(c, Next(c, s, step), j)
  {
    if step.Take? {
      TakeKeeps(c, s, step.w, j);
    } else if step.Exit? {
      ExitKeeps(c, s, step.w, j);
    } else if step.TestContext? {
      TestContextKeeps(c, s, step.w, j);
    } else if step.Limit? {
      LimitKeeps(c, s, step.w, step.granted, j);
    } else {
      FinishKeeps(c, s, step.w, step.ok, j);
    }
  }

  lemma FromResultKeeps(c: Config, s: Pool, step: Step, j: JobId)
    requires Inv(c, s, j) && Enabled(s, step) && FromResult(step)
    ensures Inv(c, Next(c, s, step), j)
  {
    if step.Send? {
      SendKeeps(c, s, step.w, j);
    } else if step.Abandon? {
      AbandonKeeps(c, s, step.w, j);
    } else if step.Release? {
      ReleaseKeeps(c, s, step.w, j);
    } else if step.Count? {
      CountKeeps(c, s, step.w, j);
    } else {
      RecordKeeps(c, s, step.w, j);
    }
  }

  lemma StepKeeps(c: Config, s: Pool, step: Step, j: JobId)
    requires Inv(c, s, j) && Enabled(s, step)
    ensures Inv(c, Next(c, s, step), j)
  {
    if UpToResult(step) {
      UpToResultKeeps(c, s, step, j);
    } else if FromResult(step) {
      FromResultKeeps(c, s, step, j);
    } else if step == Receive {
      ReceiveKeeps(c, s, j);
    } else if step == Start {
      StartKeeps(c, s, j);
    } else if step.SubmitEnqueue? {
      EnqueueKeeps(c, s, step.i, j);
    } else if step.SubmitCheck? || step.SubmitRefuse? || step.SubmitCount? {
      SubmitKeeps(c, s, step, j);
    } else {
      EnvironmentKeeps(c, s, step, j);
    }
  }

  lemma {:induction false} RunKeeps(c: Config, s: Pool, steps: seq<Step>, t: Pool, j: JobId)
    requires Inv(c, s, j) && Run(c, s, steps, t)
    ensures Inv(c, t, j)
    decreases |steps|
  {
    if steps != [] {
      StepKeeps(c, s, steps[0], j);
      RunKeeps(c, Next(c, s, steps[0]), steps[1..], t, j);
    }
  }

  ghost predicate Reaches(c: Config, s: Pool, t: Pool) {
    exists steps: seq<Step> :: Run(c, s, steps, t)
  }

  ghost predicate Reachable(c: Config, s: Pool) {
    exists n: nat, now: int :: Reaches(c, Init(n, now), s)
  }

  lemma ReachableInv(c: Config, s: Pool, j: JobId)
    requires Reachable(c, s)
    ensures Inv(c, s, j)
  {
    var n: nat, now: int :| Reaches(c, Init(n, now), s);
    var steps: seq<Step> :| Run(c, Init(n, now), steps, s);
    InitInv(c, n, now, j);
    RunKeeps(c, Init(n, now), steps, s, j);
  }

  // Conservation of jobs.

  /** In every interleaving: activeJobs and the uncounted Submits together are the queued and held jobs;
      every accepted job is in exactly one place, so it yields at most one result; and completedJobs and
      failedJobs are the results sent with and without a nil error, but for those about to be counted. */
  lemma JobsConserved(c: Config, s: Pool, j: JobId, ok: bool)
    requires Reachable(c, s)
    ensures s.activeJobs + Total(Uncounted, s.submitters) == |s.queue| + Total(Held, s.workers)
    ensures Total(IsJob(j), s.queue) + Total(Unsent(j), s.workers) + Total(ForJob(j), s.received + s.results)
            + Total(IsJob(j), s.dropped) == if j < s.accepted then 1 else 0
    ensures (if ok then s.completedJobs else s.failedJobs) + Total(Uncredited(ok), s.workers)
              == Total(OfKind(ok), s.received + s.results)
    ensures s.dropped != [] ==> s.ctxDone
    ensures |s.queue| <= 100 && |s.results| <= 100
  {
    ReachableInv(c, s, j);
    TotalAppend(ForJob(j), s.received, s.results);
    TotalAppend(OfKind(ok), s.received, s.results);
  }

  /** A channel takes up to a hundred: a checked Submit can enqueue exactly below that many queued jobs, and a worker
      can send exactly below that many results. */
  lemma RoomExactly(c: Config, s: Pool, i: nat, w: nat)
    requires Sized(c, s)
    ensures Enabled(s, SubmitEnqueue(i)) <==> i < |s.submitters| && s.submitters[i] == Checked && |s.queue| != 100
    ensures Enabled(s, Send(w)) <==>
              w < |s.workers| && (s.workers[w].Ran? || s.workers[w].LimitError?) && |s.results| != 100
  {
  }

  ghost predicate NoSubmitMidFlight(s: Pool) {
    forall i :: 0 <= i < |s.submitters| ==> !s.submitters[i].Enqueued?
  }

  ghost predicate NoneHeld(s: Pool) {
    forall w :: 0 <= w < |s.workers| ==> Held(s.workers[w]) == 0
  }

  /** What WaitForCompletion polls is sound, and tight, when no Submit sits between its enqueue and its
      count: activeJobs is zero exactly when nothing is queued or held, and then every accepted job j has
      its one result on the channel or was dropped by cancellation. */
  lemma CompletionIsSound(c: Config, s: Pool, j: JobId)
    requires Reachable(c, s) && NoSubmitMidFlight(s)
    ensures s.activeJobs >= 0
    ensures s.activeJobs == 0 <==> s.queue == [] && NoneHeld(s)
    ensures s.activeJobs == 0 && j < s.accepted ==>
              Total(ForJob(j), s.received + s.results) + Total(IsJob(j), s.dropped) == 1
    ensures s.activeJobs == 0 && j < s.accepted && !s.ctxDone ==> Total(ForJob(j), s.received + s.results) == 1
  {
    ReachableInv(c, s, j);
    TotalAppend(ForJob(j), s.received, s.results);
    TotalZero(Uncounted, s.submitters);
    TotalZero(Held, s.workers);
    TotalNonNegative(Held, s.workers);
    TotalZero(Unsent(j), s.workers);
  }

  /** Seen the other way: a zero read means that the pool is empty exactly when no Submit is at that point. */
  lemma CompletionExactly(c: Config, s: Pool)
    requires Reachable(c, s) && s.activeJobs == 0
    ensures s.queue == [] && NoneHeld(s) <==> NoSubmitMidFlight(s)
  {
    ReachableInv(c, s, 0);
    TotalZero(Uncounted, s.submitters);
    TotalZero(Held, s.workers);
    TotalNonNegative(Held, s.workers);
  }

  lemma {:induction false} RunAppend(c: Config, s: Pool, xs: seq<Step>, t: Pool, ys: seq<Step>, u: Pool)
    requires Run(c, s, xs, t) && Run(c, t, ys, u)
    ensures Run(c, s, xs + ys, u)
    decreases |xs|
  {
    if xs == [] {
      assert xs + ys == ys;
    } else {
      RunAppend(c, Next(c, s, xs[0]), xs[1..], t, ys, u);
      assert (xs + ys)[1..] == xs[1..] + ys;
    }
  }

  lemma OneMore(c: Config, s: Pool, t: Pool, step: Step)
    requires Reaches(c, s, t) && Enabled(t, step)
    ensures Reaches(c, s, Next(c, t, step))
  {
    var xs: seq<Step> :| Run(c, s, xs, t);
    assert [step][1..] == [];
    RunAppend(c, s, xs, t, [step], Next(c, t, step));
  }

  /** Mid-Submit the poll is not sound: activeJobs reads zero with a job still queued... */
  lemma ZeroWhileQueued(c: Config, now: int) returns (t: Pool)
    requires c.workers >= 1
    ensures Reaches(c, Init(1, now), t)
    ensures t.activeJobs == 0 && t.queue == [0] && t.submitters == [Enqueued(0)]
    ensures !t.ctxDone && t.results == [] && |t.workers| == c.workers && t.workers[0] == Waiting
  {
    var s := Init(1, now);
    assert Run(c, s, [], s);
    OneMore(c, s, s, Start);
    var s1 := Next(c, s, Start);
    OneMore(c, s, s1, SubmitCheck(0, true));
    var s2 := Next(c, s1, SubmitCheck(0, true));
    OneMore(c, s, s2, SubmitEnqueue(0));
    t := Next(c, s2, SubmitEnqueue(0));
  }

  lemma LimitErrorUncounted(c: Config, now: int) returns (t: Pool)
    requires c.workers >= 1
    ensures Reaches(c, Init(1, now), t)
    ensures t.activeJobs == 0 && t.submitters == [Enqueued(0)] && t.results == []
    ensures |t.workers| == c.workers && t.workers[0] == LimitError(0)
  {
    var s := Init(1, now);
    var s0 := ZeroWhileQueued(c, now);
    OneMore(c, s, s0, Take(0));
    var s1 := Next(c, s0, Take(0));
    OneMore(c, s, s1, TestContext(0));
    var s2 := Next(c, s1, TestContext(0));
    OneMore(c, s, s2, Limit(0, false));
    t := Next(c, s2, Limit(0, false));
  }

  /** ... and even minus one: the worker can finish the job before Submit counts it. */
  lemma BelowZero(c: Config, now: int) returns (t: Pool)
    requires c.workers >= 1
    ensures Reaches(c, Init(1, now), t) && t.activeJobs == -1 && t.submitters == [Enqueued(0)]
  {
    var s := Init(1, now);
    var s0 := LimitErrorUncounted(c, now);
    OneMore(c, s, s0, Send(0));
    var s1 := Next(c, s0, Send(0));
    OneMore(c, s, s1, Release(0));
    t := Next(c, s1, Release(0));
  }

  // Draining: the workers and the consumer alone finish the work.

  ghost predicate Draining(step: Step) { ByWorker(step) || step == Receive }

  ghost function Rank(p: Worker): int {
    match p
    case Took(_) => 9
    case Limiting(_) => 8
    case Running(_) => 7
    case Ran(_, _) => 6
    case LimitError(_) => 6
    case Sent(_, _, _) => 4
    case Counting(_, _) => 3
    case Recording(_) => 2
    case GivingUp(_) => 1
    case Waiting => 1
    case Exited => 0
  }

  /** An upper bound on the steps the workers and the consumer can still take. */
  ghost function Work(s: Pool): int {
    9 * |s.queue| + Total(Rank, s.workers) + |s.results|
  }

  lemma TakeWorks(c: Config, s: Pool, w: nat)
    requires Enabled(s, Take(w))
    ensures Work(Next(c, s, Take(w))) < Work(s)
  {
    TotalMove(Rank, s.workers, w, Took(s.queue[0]));
  }

  lemma SendWorks(c: Config, s: Pool, w: nat)
    requires Enabled(s, Send(w))
    ensures Work(Next(c, s, Send(w))) < Work(s)
  {
    TotalMove(Rank, s.workers, w, Next(c, s, Send(w)).workers[w]);
  }

  /** The worker moves on, and the channels stay as they are. */
  ghost predicate MovesOn(s: Pool, t: Pool, w: nat) {
    && w < |s.workers| && w < |t.workers|
    && t.workers == s.workers[w := t.workers[w]] && Rank(t.workers[w]) < Rank(s.workers[w])
    && t.queue == s.queue && t.results == s.results
  }

  lemma UpToResultMovesOn(c: Config, s: Pool, step: Step)
    requires Enabled(s, step) && UpToResult(step) && !step.Take?
    ensures MovesOn(s, Next(c, s, step), step.w)
  {
  }

  lemma FromResultMovesOn(c: Config, s: Pool, step: Step)
    requires Enabled(s, step) && FromResult(step) && !step.Send?
    ensures MovesOn(s, Next(c, s, step), step.w)
  {
  }

  lemma DrainingWorks(c: Config, s: Pool, step: Step)
    requires Enabled(s, step) && Draining(step)
    ensures Work(Next(c, s, step)) < Work(s)
    ensures Next(c, s, step).accepted == s.accepted && Next(c, s, step).ctxDone == s.ctxDone
  {
    if step.Take? {
      TakeWorks(c, s, step.w);
    } else if step.Send? {
      SendWorks(c, s, step.w);
    } else if ByWorker(step) {
      if UpToResult(step) {
        UpToResultMovesOn(c, s, step);
      } else {
        FromResultMovesOn(c, s, step);
      }
      TotalMove(Rank, s.workers, step.w, Next(c, s, step).workers[step.w]);
    }
  }

  ghost predicate Settled(s: Pool) {
    forall w :: 0 <= w < |s.workers| ==> s.workers[w] == Waiting || s.workers[w] == Exited
  }

  ghost predicate Drained(s: Pool) { s.queue == [] && s.results == [] && Settled(s) }

  /** No deadlock: with the pool context live, some worker or the consumer can move until all is drained. */
  lemma DrainingProgress(c: Config, s: Pool) returns (step: Step)
    requires Sized(c, s) && Phased(s) && !s.ctxDone && c.workers >= 1
    ensures Drained(s) || (Draining(step) && Enabled(s, step))
  {
    step := Receive;
    if s.results == [] {
      if w: nat :| w < |s.workers| && s.workers[w] != Waiting && s.workers[w] != Exited {
        var p := s.workers[w];
        step :=
          if p.Took? then TestContext(w)
          else if p.Limiting? then Limit(w, true)
          else if p.Running? then Finish(w, true)
          else if p.Ran? || p.LimitError? then Send(w)
          else if p.Counting? then Count(w)
          else if p.Recording? then Record(w)
          else Release(w);
      } else if s.queue != [] {
        step := Take(0);
      }
    }
  }

  lemma {:induction false} DrainingRunBounded(c: Config, s: Pool, steps: seq<Step>, t: Pool)
    requires Run(c, s, steps, t) && forall k :: 0 <= k < |steps| ==> Draining(steps[k])
    ensures |steps| + Work(t) <= Work(s)
    ensures t.accepted == s.accepted && t.ctxDone == s.ctxDone
    decreases |steps|
  {
    if steps != [] {
      DrainingWorks(c, s, steps[0]);
      DrainingRunBounded(c, Next(c, s, steps[0]), steps[1..], t);
    }
  }

  ghost predicate Stuck(s: Pool) {
    forall step :: Draining(step) ==> !Enabled(s, step)
  }

  lemma StuckIsDrained(c: Config, s: Pool)
    requires Sized(c, s) && Phased(s) && !s.ctxDone && c.workers >= 1 && Stuck(s)
    ensures Drained(s)
  {
    var step := DrainingProgress(c, s);
  }

  lemma DrainedBooks(c: Config, s: Pool, j: JobId)
    requires Inv(c, s, j) && Drained(s) && !s.ctxDone
    ensures Total(ForJob(j), s.received) == if j < s.accepted then 1 else 0
    ensures s.dropped == [] && s.activeJobs + Total(Uncounted, s.submitters) == 0
  {
    TotalZero(Held, s.workers);
    TotalZero(Unsent(j), s.workers);
  }

  /** Every schedule of the workers and the consumer stops within Work(s) steps. */
  lemma DrainEnds(c: Config, s: Pool, steps: seq<Step>, t: Pool)
    requires Run(c, s, steps, t) && forall k :: 0 <= k < |steps| ==> Draining(steps[k])
    ensures |steps| <= Work(s)
  {
    DrainingRunBounded(c, s, steps, t);
    TotalNonNegative(Rank, t.workers);
  }

  /** From every reachable state with the context live, where the workers and the consumer have run until
      none of them can move, each accepted job has been received exactly once and none was dropped. */
  lemma DrainDeliversOnce(c: Config, s: Pool, steps: seq<Step>, t: Pool, j: JobId)
    requires Reachable(c, s) && !s.ctxDone && c.workers >= 1
    requires Run(c, s, steps, t) && forall k :: 0 <= k < |steps| ==> Draining(steps[k])
    requires Stuck(t)
    ensures Total(ForJob(j), t.received) == if j < s.accepted then 1 else 0
    ensures t.dropped == [] && t.activeJobs + Total(Uncounted, t.submitters) == 0
  {
    ReachableInv(c, s, j);
    RunKeeps(c, s, steps, t, j);
    DrainingRunBounded(c, s, steps, t);
    StuckIsDrained(c, t);
    DrainedBooks(c, t, j);
  }

  // The engine's use: submit every check, then collect one result per check.

  /** A held job, whichever, with its result still to come. */
  ghost function Pending(p: Worker): int { if Held(p) == 1 && !p.Sent? && !p.GivingUp? then 1 else 0 }

  /** Accepted jobs are the queued ones, those pending in a worker, the results sent, and the dropped ones. */
  ghost predicate Summed(s: Pool) {
    s.accepted == Outside(s) + Total(Pending, s.workers)
  }

  /** What is outside the workers. */
  ghost function Outside(s: Pool): int { |s.queue| + |s.received| + |s.results| + |s.dropped| }

  /** What leaves a worker arrives outside, and the other way round. */
  ghost predicate Exchanges(s: Pool, t: Pool, w: nat) {
    && w < |s.workers| && w < |t.workers|
    && t.accepted == s.accepted && t.workers == s.workers[w := t.workers[w]]
    && Outside(t) + Pending(t.workers[w]) == Outside(s) + Pending(s.workers[w])
  }

  lemma UpToResultExchanges(c: Config, s: Pool, step: Step)
    requires Enabled(s, step) && UpToResult(step)
    ensures Exchanges(s, Next(c, s, step), step.w)
  {
  }

  lemma FromResultExchanges(c: Config, s: Pool, step: Step)
    requires Enabled(s, step) && FromResult(step)
    ensures Exchanges(s, Next(c, s, step), step.w)
  {
  }

  lemma WorkerKeepsSum(c: Config, s: Pool, step: Step)
    requires Summed(s) && Enabled(s, step) && ByWorker(step)
    ensures Summed(Next(c, s, step))
  {
    if UpToResult(step) {
      UpToResultExchanges(c, s, step);
    } else {
      FromResultExchanges(c, s, step);
    }
    TotalMove(Pending, s.workers, step.w, Next(c, s, step).workers[step.w]);
  }

  lemma OthersKeepSum(c: Config, s: Pool, step: Step)
    requires Summed(s) && Sized(c, s) && Enabled(s, step) && !ByWorker(step)
    ensures Summed(Next(c, s, step))
  {
    if step == Start {
      TotalZero(Pending, Next(c, s, step).workers);
    }
  }

  lemma {:induction false} RunKeepsSum(c: Config, s: Pool, steps: seq<Step>, t: Pool)
    requires Inv(c, s, 0) && Summed(s) && Run(c, s, steps, t)
    ensures Summed(t)
    decreases |steps|
  {
    if steps != [] {
      StepKeeps(c, s, steps[0], 0);
      if ByWorker(steps[0]) {
        WorkerKeepsSum(c, s, steps[0]);
      } else {
        OthersKeepSum(c, s, steps[0]);
      }
      RunKeepsSum(c, Next(c, s, steps[0]), steps[1..], t);
    }
  }

  /** In every interleaving accepted jobs = queued + held without a sent result + results sent + dropped. */
  lemma JobsSummed(c: Config, s: Pool)
    requires Reachable(c, s)
    ensures s.accepted == |s.queue| + Total(Pending, s.workers) + |s.received + s.results| + |s.dropped|
  {
    var n: nat, now: int :| Reaches(c, Init(n, now), s);
    var steps: seq<Step> :| Run(c, Init(n, now), steps, s);
    InitInv(c, n, now, 0);
    RunKeepsSum(c, Init(n, now), steps, s);
  }

  /** The engine submits all its checks and then collects until it has one result per check. It gets there
      exactly when no Submit was refused; otherwise only its timeout or its context ends the collection. */
  lemma CollectionEnds(c: Config, s: Pool, steps: seq<Step>, t: Pool, checks: nat)
    requires Reachable(c, s) && !s.ctxDone && c.workers >= 1 && s.accepted <= checks
    requires Run(c, s, steps, t) && forall k :: 0 <= k < |steps| ==> Draining(steps[k])
    ensures |t.received| <= s.accepted
    ensures Stuck(t) ==> (|t.received| >= checks <==> s.accepted == checks)
  {
    ReachableInv(c, s, 0);
    JobsSummed(c, s);
    RunKeeps(c, s, steps, t, 0);
    RunKeepsSum(c, s, steps, t);
    DrainingRunBounded(c, s, steps, t);
    TotalNonNegative(Pending, t.workers);
    if Stuck(t) {
      StuckIsDrained(c, t);
      TotalZero(Pending, t.workers);
    }
  }
}
