/** The two retry loops. The operation, the clock, cancellation and the random source are parameters: what the
    n-th call, wait or draw of this execution gives. */
module Retry {
  import opened Backoff
  import opened Options

  datatype Reply<V, E> = Ok(value: V) | Err(error: E)

  datatype Result<V, E> = Done(value: V) | NotRetryable(error: E) | BudgetSpent(error: E) | Cancelled | GaveUp(error: E)

  /** No call before the last was a success or a non-retryable error. */
  ghost predicate Retried<V, E>(op: nat -> Reply<V, E>, retryable: E -> bool, calls: nat) {
    forall i: nat :: i + 1 < calls ==> op(i).Err? && retryable(op(i).error)
  }

  /** The result is the last reply, and says why the calls stopped there. */
  ghost predicate Explained<V, E>(
    r: Result<V, E>, n: nat, maxRetries: int, op: nat -> Reply<V, E>, retryable: E -> bool)
    requires n > 0
  {
    match r
    case Done(v) => op(n - 1) == Ok(v)
    case NotRetryable(e) => op(n - 1) == Err(e) && n == 1 && !retryable(e)
    case BudgetSpent(e) => op(n - 1) == Err(e) && n <= maxRetries
    case Cancelled => op(n - 1).Err? && n <= maxRetries
    case GaveUp(e) => op(n - 1) == Err(e) && (n == 1 + Positive(maxRetries) || !retryable(e))
  }

  /** Every call after the first was made within the budget and after a wait that was not cancelled. */
  ghost predicate Unhindered(n: nat, respectContext: bool, spent: nat -> bool, cancelled: nat -> bool) {
    forall i: nat :: 1 <= i < n ==> !spent(i) && !(respectContext && cancelled(i))
  }

  /** The n-th call failed with a retryable error. */
  ghost predicate Going<V, E>(
    reply: Reply<V, E>, n: nat, respectContext: bool,
    op: nat -> Reply<V, E>, retryable: E -> bool, spent: nat -> bool, cancelled: nat -> bool)
  {
    && n >= 1 && reply == op(n - 1) && reply.Err? && retryable(reply.error)
    && Retried(op, retryable, n) && Unhindered(n, respectContext, spent, cancelled)
  }

  /** An execution of n calls that ended with r. */
  ghost predicate Ended<V, E>(
    r: Result<V, E>, n: nat, maxRetries: int, respectContext: bool,
    op: nat -> Reply<V, E>, retryable: E -> bool, spent: nat -> bool, cancelled: nat -> bool)
  {
    && 1 <= n <= 1 + Positive(maxRetries) && Retried(op, retryable, n)
    && (r.Done? <==> op(n - 1).Ok?)
    && Explained(r, n, maxRetries, op, retryable)
    && (r.Cancelled? ==> respectContext && cancelled(n) && !spent(n))
    && (r.BudgetSpent? ==> spent(n))
    && Unhindered(n, respectContext, spent, cancelled)
  }

  /** The ways from one call to the next, or to the end. */
  lemma Stops<V, E>(
      reply: Reply<V, E>, n: nat, maxRetries: int, respectContext: bool,
      op: nat -> Reply<V, E>, retryable: E -> bool, spent: nat -> bool, cancelled: nat -> bool)
    requires Going(reply, n, respectContext, op, retryable, spent, cancelled) && n <= maxRetries
    ensures spent(n) ==>
              Ended(BudgetSpent(reply.error), n, maxRetries, respectContext, op, retryable, spent, cancelled)
    ensures !spent(n) && respectContext && cancelled(n) ==>
              Ended(Cancelled, n, maxRetries, respectContext, op, retryable, spent, cancelled)
    ensures !spent(n) && !(respectContext && cancelled(n)) ==>
              var next := op(n);
              if next.Ok? then
                Ended(Done(next.value), n + 1, maxRetries, respectContext, op, retryable, spent, cancelled)
              else if retryable(next.error) then
                && Going(next, n + 1, respectContext, op, retryable, spent, cancelled)
                && (n == maxRetries ==>
                      Ended(GaveUp(next.error), n + 1, maxRetries, respectContext, op, retryable, spent, cancelled))
              else Ended(GaveUp(next.error), n + 1, maxRetries, respectContext, op, retryable, spent, cancelled)
  {
  }

  datatype Ending<V, E> = Ending(r: Result<V, E>, n: nat)

  /** How the retries go on after n calls of which the last failed. */
  ghost function From<V, E>(
    n: nat, maxRetries: int, respectContext: bool,
    op: nat -> Reply<V, E>, retryable: E -> bool, spent: nat -> bool, cancelled: nat -> bool): Ending<V, E>
    requires n >= 1 && op(n - 1).Err?
    decreases maxRetries - n
  {
    if n > maxRetries then Ending(GaveUp(op(n - 1).error), n)
    else if spent(n) then Ending(BudgetSpent(op(n - 1).error), n)
    else if respectContext && cancelled(n) then Ending(Cancelled, n)
    else if op(n).Ok? then Ending(Done(op(n).value), n + 1)
    else if !retryable(op(n).error) then Ending(GaveUp(op(n).error), n + 1)
    else From(n + 1, maxRetries, respectContext, op, retryable, spent, cancelled)
  }

  /** How a whole execution goes. */
  ghost function Whole<V, E>(
    maxRetries: int, respectContext: bool,
    op: nat -> Reply<V, E>, retryable: E -> bool, spent: nat -> bool, cancelled: nat -> bool): Ending<V, E>
  {
    if op(0).Ok? then Ending(Done(op(0).value), 1)
    else if !retryable(op(0).error) then Ending(NotRetryable(op(0).error), 1)
    else From(1, maxRetries, respectContext, op, retryable, spent, cancelled)
  }

  lemma WholeEnds<V, E>(
      maxRetries: int, respectContext: bool,
      op: nat -> Reply<V, E>, retryable: E -> bool, spent: nat -> bool, cancelled: nat -> bool)
    ensures var e := Whole(maxRetries, respectContext, op, retryable, spent, cancelled);
            Ended(e.r, e.n, maxRetries, respectContext, op, retryable, spent, cancelled)
  {
    if op(0).Err? && retryable(op(0).error) {
      FromEnds(1, maxRetries, respectContext, op, retryable, spent, cancelled);
    }
  }

  lemma {:induction false} FromEnds<V, E>(
      n: nat, maxRetries: int, respectContext: bool,
      op: nat -> Reply<V, E>, retryable: E -> bool, spent: nat -> bool, cancelled: nat -> bool)
    requires 1 <= n <= 1 + Positive(maxRetries) && Going(op(n - 1), n, respectContext, op, retryable, spent, cancelled)
    ensures var e := From(n, maxRetries, respectContext, op, retryable, spent, cancelled);
            Ended(e.r, e.n, maxRetries, respectContext, op, retryable, spent, cancelled) && !e.r.NotRetryable?
    decreases maxRetries - n
  {
    if n <= maxRetries {
      Stops(op(n - 1), n, maxRetries, respectContext, op, retryable, spent, cancelled);
      if !spent(n) && !(respectContext && cancelled(n)) && op(n).Err? && retryable(op(n).error) {
        FromEnds(n + 1, maxRetries, respectContext, op, retryable, spent, cancelled);
      }
    }
  }

  function Positive(n: int): nat { if n < 0 then 0 else n }

  datatype Metrics = Metrics(
    totalRetries: nat, successfulRetries: nat, failedRetries: nat, firstAttemptSuccess: nat,
    totalBackoffTime: real, maxBackoffTime: real)

  class RetryPolicy<V, E> {
    const backoff: Config
    const respectContext: bool
    var maxRetries: int
    var metrics: Metrics
    ghost var executions: nat
    ghost var calls: nat       // operation calls made by all executions
    ghost var rejected: nat    // executions whose first error was not retryable

    /** Retries are the operation calls beyond the first of each execution, and the backoff spent on them is
        bounded by the cap; of the executions begun, all but the `open` ones ended in one of four ways. */
    ghost predicate Kept(open: nat)
      reads this
    {
      && calls == metrics.totalRetries + executions
      && executions == metrics.firstAttemptSuccess + metrics.successfulRetries + metrics.failedRetries + rejected + open
      && (backoff.Capped() ==> BackoffBounded(metrics, backoff.maxDelay))
    }

    ghost predicate Valid()
      reads this
    {
      Kept(0)
    }

    constructor (backoff: Config, maxRetries: int, respectContext: bool)
      ensures Valid()
      ensures this.backoff == backoff && this.maxRetries == maxRetries && this.respectContext == respectContext
      ensures executions == 0 && calls == 0
    {
      this.backoff, this.maxRetries, this.respectContext := backoff, maxRetries, respectContext;
      metrics := Metrics(0, 0, 0, 0, 0.0, 0.0);
      executions, calls, rejected := 0, 0, 0;
    }

    /** The operation is called between once and 1 + MaxRetries times, never after a success or a non-retryable
        error, and the execution succeeds exactly when the last call did. */
    method Execute(op: nat -> Reply<V, E>, retryable: E -> bool, spent: nat -> bool,
                   cancelled: nat -> bool, draw: nat -> real)
      returns (r: Result<V, E>, n: nat)
      requires Valid() && forall i :: Draw(draw(i))
      modifies this
      ensures Valid() && maxRetries == old(maxRetries)
      ensures Ended(r, n, maxRetries, respectContext, op, retryable, spent, cancelled)
      ensures executions == old(executions) + 1 && calls == old(calls) + n
      ensures metrics.totalRetries == old(metrics).totalRetries + n - 1
      ensures metrics.totalBackoffTime == old(metrics).totalBackoffTime + Waits(backoff, draw, n - 1)
      ensures backoff.Capped() ==> Waited(old(metrics), metrics, Positive(maxRetries), backoff.maxDelay)
    {
      ghost var plan := PlanOf(backoff, draw);
      r, n := FirstAttempt(op, retryable, spent, cancelled, draw, plan);
      WholeEnds(maxRetries, respectContext, op, retryable, spent, cancelled);
      SumIsWaits(plan, backoff, draw, n - 1);
      if backoff.Capped() {
        WaitsBounded(backoff, draw, n - 1);
        WaitedAtMost(old(metrics), metrics, n - 1, Positive(maxRetries), backoff.maxDelay);
      }
    }

    /** The first call, and the retries if it failed with a retryable error. */
    method FirstAttempt(op: nat -> Reply<V, E>, retryable: E -> bool, spent: nat -> bool,
                        cancelled: nat -> bool, draw: nat -> real, ghost plan: nat -> real)
      returns (r: Result<V, E>, n: nat)
      requires Valid() && Plan(plan, backoff, draw) && forall i :: Draw(draw(i))
      modifies `metrics, `calls, `executions, `rejected
      ensures Valid()
      ensures n >= 1 && Ending(r, n) == Whole(maxRetries, respectContext, op, retryable, spent, cancelled)
      ensures metrics.totalBackoffTime == old(metrics).totalBackoffTime + SumTo(plan, n - 1)
      ensures executions == old(executions) + 1 && calls == old(calls) + n
      ensures metrics.totalRetries == old(metrics).totalRetries + n - 1
    {
      executions := executions + 1;
      calls := calls + 1;
      var reply := op(0);
      if reply.Ok? {
        metrics := metrics.(firstAttemptSuccess := metrics.firstAttemptSuccess + 1);
        return Done(reply.value), 1;
      }
      if !retryable(reply.error) {
        rejected := rejected + 1;
        return NotRetryable(reply.error), 1;
      }
      r, n := RetryLoop(op, retryable, spent, cancelled, draw, plan);
    }

    /** The retries after a failed first call, against their description as a value. */
    method RetryLoop(op: nat -> Reply<V, E>, retryable: E -> bool, spent: nat -> bool,
                     cancelled: nat -> bool, draw: nat -> real, ghost plan: nat -> real)
      returns (r: Result<V, E>, n: nat)
      requires Kept(1) && op(0).Err?
      requires Plan(plan, backoff, draw) && forall i :: Draw(draw(i))
      modifies `metrics, `calls
      ensures Kept(0)
      ensures n >= 1 && Ending(r, n) == From(1, maxRetries, respectContext, op, retryable, spent, cancelled)
      ensures metrics.totalBackoffTime == old(metrics).totalBackoffTime + SumTo(plan, n - 1)
      ensures calls == old(calls) + n - 1
      ensures metrics.totalRetries == old(metrics).totalRetries + n - 1
    {
      n := 1;
      var reply := op(0);
      ghost var waited := 0.0;
      while n <= maxRetries
        invariant n >= 1 && reply == op(n - 1) && reply.Err?
        invariant From(n, maxRetries, respectContext, op, retryable, spent, cancelled)
                  == From(1, maxRetries, respectContext, op, retryable, spent, cancelled)
        invariant Kept(1) && calls == old(calls) + n - 1
        invariant metrics.totalRetries == old(metrics).totalRetries + n - 1
        invariant metrics.totalBackoffTime == old(metrics).totalBackoffTime + waited && waited == SumTo(plan, n - 1)
      {
        if spent(n) {
          Fail();
          return BudgetSpent(reply.error), n;
        }
        var delay := CalculateBackoffDelay(n, draw, plan);
        if respectContext && cancelled(n) {
          Fail();
          return Cancelled, n;
        }
        Charge(delay);
        waited := waited + delay;
        assert waited == SumTo(plan, n);
        reply := op(n);
        n := n + 1;
        if reply.Ok? {
          Succeed();
          return Done(reply.value), n;
        }
        if !retryable(reply.error) { break; }
      }
      Fail();
      return GaveUp(reply.error), n;
    }

    method CalculateBackoffDelay(attempt: nat, draw: nat -> real, ghost plan: nat -> real) returns (delay: real)
      requires attempt >= 1 && Plan(plan, backoff, draw) && Draw(draw(attempt))
      ensures delay == plan(attempt)
      ensures backoff.Capped() ==> delay <= backoff.maxDelay
    {
      assert Nth(attempt);
      if backoff.Capped() {
        DelayCappedExactly(backoff);
      }
      delay := Delay(backoff, attempt, draw(attempt));
    }

    /** One backoff and the retry after it. */
    method Charge(delay: real)
      requires Kept(1) && (backoff.Capped() ==> delay <= backoff.maxDelay)
      modifies `metrics, `calls
      ensures Kept(1) && calls == old(calls) + 1
      ensures metrics.totalRetries == old(metrics).totalRetries + 1
      ensures metrics.totalBackoffTime == old(metrics).totalBackoffTime + delay
      ensures metrics.maxBackoffTime
              == if delay > old(metrics).maxBackoffTime then delay else old(metrics).maxBackoffTime
    {
      metrics := metrics.(totalBackoffTime := metrics.totalBackoffTime + delay);
      if delay > metrics.maxBackoffTime {
        metrics := metrics.(maxBackoffTime := delay);
      }
      metrics := metrics.(totalRetries := metrics.totalRetries + 1);
      calls := calls + 1;
    }

    method Fail()
      requires Kept(1)
      modifies `metrics
      ensures Kept(0) && metrics.totalRetries == old(metrics).totalRetries
      ensures metrics.totalBackoffTime == old(metrics).totalBackoffTime
    {
      metrics := metrics.(failedRetries := metrics.failedRetries + 1);
    }

    method Succeed()
      requires Kept(1)
      modifies `metrics
      ensures Kept(0) && metrics.totalRetries == old(metrics).totalRetries
      ensures metrics.totalBackoffTime == old(metrics).totalBackoffTime
    {
      metrics := metrics.(successfulRetries := metrics.successfulRetries + 1);
    }

    /** The override of MaxRetries ends with the call. */
    method ExecuteWithCustomRetries(op: nat -> Reply<V, E>, retryable: E -> bool, spent: nat -> bool,
                                    cancelled: nat -> bool, draw: nat -> real, retries: int)
      returns (r: Result<V, E>, n: nat)
      requires Valid() && forall i :: Draw(draw(i))
      modifies this
      ensures Valid() && maxRetries == old(maxRetries)
      ensures Ended(r, n, retries, respectContext, op, retryable, spent, cancelled)
      ensures metrics.totalBackoffTime == old(metrics).totalBackoffTime + Waits(backoff, draw, n - 1)
      ensures executions == old(executions) + 1 && calls == old(calls) + n
      ensures metrics.totalRetries == old(metrics).totalRetries + n - 1
      ensures backoff.Capped() ==> Waited(old(metrics), metrics, Positive(retries), backoff.maxDelay)
    {
      var original := maxRetries;
      maxRetries := retries;
      r, n := Execute(op, retryable, spent, cancelled, draw);
      maxRetries := original;
    }
  }

  ghost predicate BackoffBounded(m: Metrics, cap: real) {
    m.totalBackoffTime <= Allowance(m.totalRetries, cap) && m.maxBackoffTime <= cap
  }

  /** At most n backoffs of at most `cap` lie between the two. */
  ghost predicate Waited(before: Metrics, after: Metrics, n: nat, cap: real) {
    after.totalBackoffTime <= before.totalBackoffTime + n as real * cap
  }

  /** The same, adding up the backoffs one by one. */
  ghost predicate WithinAllowance(before: Metrics, after: Metrics, n: nat, cap: real) {
    after.totalBackoffTime <= before.totalBackoffTime + Allowance(n, cap)
  }

  lemma WaitedAtMost(before: Metrics, after: Metrics, n: nat, most: nat, cap: real)
    requires WithinAllowance(before, after, n, cap) && n <= most && cap >= 0.0
    ensures Waited(before, after, most, cap)
  {
    Scale(n, most, cap);
    AllowanceIs(most, cap);
  }

  // The Docker client's loop.

  datatype DockerPolicy = DockerPolicy(maxRetries: int, initialBackoff: real, maxBackoff: real, backoffFactor: real) {
    ghost predicate Sane() { initialBackoff >= 0.0 && maxBackoff >= 0.0 && backoffFactor >= 0.0 }
  }

  datatype DockerResult<V, E> = Returned(value: V) | Refused(error: E) | Interrupted | Exhausted(last: Option<E>)

  /** ExecuteWithValue; Execute is the same loop without a value. A negative MaxRetries calls nothing and fails;
      otherwise the bounds of the other policy hold, with total backoff at most 1.1 * MaxRetries * MaxBackoff. */
  method DockerExecute<V, E>(p: DockerPolicy, op: nat -> Reply<V, E>, retryable: E -> bool, cancelled: nat -> bool,
                             draw: nat -> real)
    returns (r: DockerResult<V, E>, n: nat, waited: real)
    requires forall i :: Draw(draw(i))
    ensures p.maxRetries < 0 ==> n == 0 && r == Exhausted(None)
    ensures p.maxRetries >= 0 ==> 1 <= n <= 1 + p.maxRetries
    ensures Retried(op, retryable, n)
    ensures r.Returned? <==> n > 0 && op(n - 1).Ok?
    ensures r.Returned? ==> r.value == op(n - 1).value
    ensures r.Refused? ==> op(n - 1) == Err(r.error) && !retryable(r.error)
    ensures r.Interrupted? ==>
              cancelled(n - 1) && n <= p.maxRetries && op(n - 1).Err? && retryable(op(n - 1).error)
    ensures forall i: nat :: i + 1 < n ==> !cancelled(i)
    ensures n > 0 ==> waited == DockerWaits(p.initialBackoff, p.backoffFactor, p.maxBackoff, draw, n - 1)
    ensures r.Exhausted? && n > 0 ==>
              && n == 1 + p.maxRetries && r.last.Some?
              && op(n - 1) == Err(r.last.value) && retryable(r.last.value)
    ensures p.Sane() ==> 0.0 <= waited <= Positive(p.maxRetries) as real * (1.1 * p.maxBackoff)
  {
    ghost var plan := DockerPlanOf(p.initialBackoff, p.backoffFactor, p.maxBackoff, draw);
    r, n, waited := DockerLoop(p, op, retryable, cancelled, draw, plan);
    if n > 0 {
      SumIsDockerWaits(plan, p.initialBackoff, p.backoffFactor, p.maxBackoff, draw, n - 1);
    }
    if p.Sane() {
      AllowanceAtMost(if n == 0 then 0 else n - 1, Positive(p.maxRetries), 1.1 * p.maxBackoff);
    }
  }

  method DockerLoop<V, E>(p: DockerPolicy, op: nat -> Reply<V, E>, retryable: E -> bool, cancelled: nat -> bool,
                          draw: nat -> real, ghost plan: nat -> real)
    returns (r: DockerResult<V, E>, n: nat, waited: real)
    requires forall i :: Draw(draw(i))
    requires DockerPlan(plan, p.initialBackoff, p.backoffFactor, p.maxBackoff, draw)
    ensures p.maxRetries < 0 ==> n == 0 && r == Exhausted(None) && waited == 0.0
    ensures p.maxRetries >= 0 ==> 1 <= n <= 1 + p.maxRetries
    ensures Retried(op, retryable, n)
    ensures r.Returned? <==> n > 0 && op(n - 1).Ok?
    ensures r.Returned? ==> r.value == op(n - 1).value
    ensures r.Refused? ==> op(n - 1) == Err(r.error) && !retryable(r.error)
    ensures r.Interrupted? ==>
              cancelled(n - 1) && n <= p.maxRetries && op(n - 1).Err? && retryable(op(n - 1).error)
    ensures forall i: nat :: i + 1 < n ==> !cancelled(i)
    ensures r.Exhausted? && n > 0 ==>
              && n == 1 + p.maxRetries && r.last.Some?
              && op(n - 1) == Err(r.last.value) && retryable(r.last.value)
    ensures n > 0 ==> waited == SumTo(plan, n - 1)
    ensures p.Sane() && n > 0 ==> 0.0 <= waited <= Allowance(n - 1, 1.1 * p.maxBackoff)
  {
    n, waited := 0, 0.0;
    var last: Option<E> := None;
    ghost var cap := 1.1 * p.maxBackoff;
    while n <= p.maxRetries
      invariant 0 <= n <= 1 + Positive(p.maxRetries) && (p.maxRetries < 0 ==> n == 0)
      invariant n > 0 ==> last.Some? && op(n - 1) == Err(last.value) && retryable(last.value)
      invariant n == 0 ==> last == None
      invariant Retried(op, retryable, n) && n <= Positive(p.maxRetries)
      invariant p.Sane() ==> 0.0 <= waited <= Allowance(n, cap)
      invariant forall i: nat :: i < n ==> !cancelled(i)
      invariant waited == SumTo(plan, n)
    {
      var reply := op(n);
      n := n + 1;
      if reply.Ok? { return Returned(reply.value), n, waited; }
      last := Some(reply.error);
      if !retryable(reply.error) { return Refused(reply.error), n, waited; }
      if n - 1 == p.maxRetries { break; }
      var backoff := CalculateBackoff(p, n, draw, plan);
      if cancelled(n - 1) { return Interrupted, n, waited; }
      waited := waited + backoff;
    }
    r := Exhausted(last);
  }

  method CalculateBackoff(p: DockerPolicy, n: nat, draw: nat -> real, ghost plan: nat -> real) returns (backoff: real)
    requires n >= 1 && DockerPlan(plan, p.initialBackoff, p.backoffFactor, p.maxBackoff, draw) && Draw(draw(n - 1))
    ensures backoff == plan(n)
    ensures p.Sane() ==> 0.0 <= backoff <= 1.1 * p.maxBackoff
  {
    assert Nth(n);
    backoff := DockerDelay(p.initialBackoff, p.backoffFactor, p.maxBackoff, n - 1, draw(n - 1));
    if p.Sane() {
      DockerDelayBounded(p.initialBackoff, p.backoffFactor, p.maxBackoff, n - 1, draw(n - 1));
    }
  }

  lemma AllowanceAtMost(n: nat, most: nat, cap: real)
    requires n <= most && cap >= 0.0
    ensures 0.0 <= Allowance(n, cap) <= most as real * cap
  {
    Scale(n, most, cap);
    AllowanceIs(most, cap);
  }

  lemma {:induction false} Scale(m: nat, n: nat, cap: real)
    requires m <= n && cap >= 0.0
    ensures 0.0 <= Allowance(m, cap) <= Allowance(n, cap)
    decreases n
  {
    if m < n {
      Scale(m, n - 1, cap);
    } else if m > 0 {
      Scale(m - 1, m - 1, cap);
    }
  }
}
