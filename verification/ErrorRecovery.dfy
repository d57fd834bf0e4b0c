/** ErrorRecovery: the circuit breaker's client, and its books against the breaker's own. */
module ErrorRecovery {
  import opened CircuitBreaker
  import opened Options

  datatype ErrorType = Generic | Connection | Resource | Network | System | Context | Breaking

  /** The codes that call for an action of their own, and the others. */
  datatype ErrorCode = DaemonUnreachable | ResourceExhaustion | NetworkConfiguration | Timeout | OtherCode

  datatype Strategy = Strategy(
    cleanupResources: bool, networkRecovery: bool, gracefulDegrade: bool,
    retryWithBackoff: bool, backoffMultiplier: real, maxRetries: int)

  /** A strategy of which only the advice to the user is set. */
  const ADVICE: Strategy := Strategy(false, false, false, false, 0.0, 0)

  /** A classified error, with the strategy it may carry. */
  datatype DiagnosticError = DiagnosticError(kind: ErrorType, code: ErrorCode, recovery: Option<Strategy>)

  /** Any other error, by what the tests of classifyError answer for it. */
  datatype Error =
    | Plain(unreachable: bool, ended: bool, exhausted: bool, network: bool)
    | Diagnosed(diagnosis: DiagnosticError)

  function Classify(err: Error): DiagnosticError {
    if err.Diagnosed? then err.diagnosis
    else if err.unreachable then DiagnosticError(Connection, DaemonUnreachable, Some(ADVICE))
    else if err.ended then DiagnosticError(Context, Timeout, Some(ADVICE))
    else if err.exhausted then DiagnosticError(Resource, ResourceExhaustion, Some(ADVICE))
    else if err.network then DiagnosticError(Network, NetworkConfiguration, Some(ADVICE))
    else DiagnosticError(System, OtherCode, Some(ADVICE))
  }

  datatype Settings = Settings(maxRetries: int, enableDegradation: bool)

  function SelectRecoveryStrategy(e: DiagnosticError, c: Settings): (s: Option<Strategy>)
    ensures s.Some?
    ensures e.recovery.Some? ==> s == e.recovery
    ensures e.recovery.None? ==>
              && (s.value.cleanupResources <==> e.kind == Resource)
              && (s.value.networkRecovery <==> e.kind == Network)
              && (s.value.gracefulDegrade <==> e.kind == Resource && c.enableDegradation)
              && (s.value.retryWithBackoff <==> e.kind != Resource)
              && s.value.backoffMultiplier == (if e.kind == Connection then 2.0 else 0.0)
              && s.value.maxRetries
                   == (if e.kind == Connection then c.maxRetries else if e.kind in {Resource, Network} then 0 else 1)
  {
    if e.recovery.Some? then e.recovery
    else match e.kind
      case Connection => Some(Strategy(false, false, false, true, 2.0, c.maxRetries))
      case Resource => Some(Strategy(true, false, c.enableDegradation, false, 0.0, 0))
      case Network => Some(Strategy(false, true, false, true, 0.0, 0))
      case _ => Some(Strategy(false, false, false, true, 0.0, 1))
  }

  // What a strategy does.

  datatype Action = CleanUp | RecoverNetwork | Reconnect | CleanUpAggressively

  function CodeActions(code: ErrorCode): seq<Action> {
    match code
    case DaemonUnreachable => [Reconnect]
    case ResourceExhaustion => [CleanUpAggressively]
    case NetworkConfiguration => [RecoverNetwork]
    case _ => []
  }

  /** The actions that do not depend on the error's code. */
  function StrategyActions(s: Strategy): seq<Action> {
    (if s.cleanupResources then [CleanUp] else []) + (if s.networkRecovery then [RecoverNetwork] else [])
  }

  ghost predicate AllWork(actions: seq<Action>, works: Action -> bool) {
    forall i :: 0 <= i < |actions| ==> works(actions[i])
  }

  /** `done` is the actions in order up to and including the first that fails. */
  ghost predicate UpToFailure(done: seq<Action>, actions: seq<Action>, works: Action -> bool) {
    && done <= actions
    && (forall i :: 0 <= i < |done| - 1 ==> works(done[i]))
    && (|done| < |actions| ==> done != [] && !works(done[|done| - 1]))
  }

  ghost function StrategyFor(err: Error, c: Settings): Strategy { SelectRecoveryStrategy(Classify(err), c).value }

  ghost function Actions(err: Error, c: Settings): seq<Action> {
    StrategyActions(StrategyFor(err, c)) + CodeActions(Classify(err).code)
  }

  ghost predicate Recovers(err: Error, c: Settings, works: Action -> bool) { AllWork(Actions(err, c), works) }

  ghost predicate Degrades(err: Error, c: Settings, works: Action -> bool) {
    var s := StrategyFor(err, c);
    s.gracefulDegrade && c.enableDegradation && AllWork(StrategyActions(s), works)
  }

  /** classifyError gives every error it classifies a strategy that is advice only. So the defaults by error type
      are for errors classified elsewhere: for any other error at most one action is taken, the one of its code,
      and degradation is never turned on, though it is on for a resource error classified without a strategy. */
  lemma OnlyCodeActions(err: Error, c: Settings, works: Action -> bool)
    ensures err.Plain? ==> Actions(err, c) == CodeActions(Classify(err).code) && |Actions(err, c)| <= 1
    ensures Degrades(err, c, works) <==>
              && err.Diagnosed? && c.enableDegradation
              && (if err.diagnosis.recovery.Some? then
                    var s := err.diagnosis.recovery.value;
                    && s.gracefulDegrade && (s.cleanupResources ==> works(CleanUp))
                    && (s.networkRecovery ==> works(RecoverNetwork))
                  else err.diagnosis.kind == Resource && works(CleanUp))
  {
    var s := StrategyFor(err, c);
    assert err.Plain? ==> s == ADVICE;
    var actions := StrategyActions(s);
    if s.cleanupResources {
      assert actions[0] == CleanUp;
    }
    if s.networkRecovery {
      assert actions[|actions| - 1] == RecoverNetwork;
    }
  }

  /** Which action decides the recovery of an error classified here: reconnecting, if it looks like an unreachable
      daemon, whatever else it looks like; nothing, if its context ended; an aggressive cleanup, if resources are
      exhausted; the network recovery, if it looks like a network error; and otherwise nothing. */
  lemma ActionDecides(err: Error, c: Settings, works: Action -> bool)
    requires err.Plain?
    ensures !Recovers(err, c, works) <==>
              || (err.unreachable && !works(Reconnect))
              || (!err.unreachable && !err.ended && err.exhausted && !works(CleanUpAggressively))
              || (!err.unreachable && !err.ended && !err.exhausted && err.network && !works(RecoverNetwork))
    ensures Classify(err).kind == Connection <==> err.unreachable
    ensures Classify(err).kind == Context <==> err.ended && !err.unreachable
    ensures Classify(err).kind == Resource <==> err.exhausted && !err.unreachable && !err.ended
    ensures Classify(err).kind == Network <==> err.network && !err.unreachable && !err.ended && !err.exhausted
    ensures Classify(err).kind in {Connection, Context, Resource, Network, System}
  {
    OnlyCodeActions(err, c, works);
    var actions := Actions(err, c);
    if actions != [] {
      assert Recovers(err, c, works) <==> works(actions[0]);
    }
  }

  /** And of an error classified elsewhere: what its strategy asks for, and what its code asks for. */
  lemma DiagnosedActionsDecide(e: DiagnosticError, c: Settings, works: Action -> bool)
    ensures var s := StrategyFor(Diagnosed(e), c);
            Recovers(Diagnosed(e), c, works) <==>
              && (s.cleanupResources ==> works(CleanUp))
              && (s.networkRecovery || e.code == NetworkConfiguration ==> works(RecoverNetwork))
              && (e.code == DaemonUnreachable ==> works(Reconnect))
              && (e.code == ResourceExhaustion ==> works(CleanUpAggressively))
  {
    var s := StrategyFor(Diagnosed(e), c);
    var actions := Actions(Diagnosed(e), c);
    assert forall a :: a in actions <==>
             || (a == CleanUp && s.cleanupResources)
             || (a == RecoverNetwork && (s.networkRecovery || e.code == NetworkConfiguration))
             || (a == Reconnect && e.code == DaemonUnreachable)
             || (a == CleanUpAggressively && e.code == ResourceExhaustion);
    assert AllWork(actions, works) <==> forall a :: a in actions ==> works(a);
  }

  /** ErrorsByType counts by type: a multiset of types. */
  datatype Metrics = Metrics(
    totalOperations: nat, totalSuccesses: nat, totalFailures: nat, circuitBreakerBlocks: nat,
    successfulRecoveries: nat, failedRecoveries: nat,
    errorsByType: multiset<ErrorType>, degradationEnabled: bool)

  const NO_METRICS: Metrics := Metrics(0, 0, 0, 0, 0, 0, multiset{}, false)

  // Concurrent callers. A call is anonymous, so the state counts the calls at each point of
  // ExecuteWithRecovery; every critical section is one step.

  datatype Calls = Calls(
    begun: nat,       // TotalOperations counted, breaker not asked
    blocked: nat,     // refused, CircuitBreakerBlocks not counted
    running: nat,     // admitted, outcome not recorded
    succeeded: nat,   // success recorded, TotalSuccesses not counted
    failed: nat,      // failure recorded, TotalFailures not counted
    entered: nat,     // in HandleError, ErrorsByType not counted
    handling: nat,    // in HandleError, after that
    recovered: nat)   // HandleError returned nil, SuccessfulRecoveries not counted

  const NO_CALLS: Calls := Calls(0, 0, 0, 0, 0, 0, 0, 0)

  datatype Sys = Sys(b: Breaker, m: Metrics, calls: Calls)

  datatype Step =
    | Begin | Ask(at: int) | CountBlock
    | RecordSuccess(at: int) | CountSuccess
    | RecordFailure(at: int) | CountFailure
    | CountType(kind: ErrorType) | Degrade | Recover | FailRecovery | CountRecovery

  ghost function Init(now: int): Sys {
    Sys(Fresh(now), NO_METRICS, NO_CALLS)
  }

  ghost predicate Enabled(s: Sys, step: Step) {
    match step
    case Begin => true
    case Ask(_) => s.calls.begun > 0
    case CountBlock => s.calls.blocked > 0
    case RecordSuccess(_) => s.calls.running > 0
    case RecordFailure(_) => s.calls.running > 0
    case CountSuccess => s.calls.succeeded > 0
    case CountFailure => s.calls.failed > 0
    case CountType(_) => s.calls.entered > 0
    case Degrade => s.calls.handling > 0
    case Recover => s.calls.handling > 0
    case FailRecovery => s.calls.handling > 0
    case CountRecovery => s.calls.recovered > 0
  }

  ghost function Next(c: Config, s: Sys, step: Step): Sys
    requires Enabled(s, step)
  {
    var k, m := s.calls, s.m;
    match step
    case Begin => s.(calls := k.(begun := k.begun + 1), m := m.(totalOperations := m.totalOperations + 1))
    case Ask(at) =>
      s.(b := Asked(c, s.b, at),
         calls := if Admits(c, s.b, at) then k.(begun := k.begun - 1, running := k.running + 1)
                  else k.(begun := k.begun - 1, blocked := k.blocked + 1))
    case CountBlock =>
      s.(calls := k.(blocked := k.blocked - 1), m := m.(circuitBreakerBlocks := m.circuitBreakerBlocks + 1))
    case RecordSuccess(at) =>
      s.(b := Succeeded(c, s.b, at), calls := k.(running := k.running - 1, succeeded := k.succeeded + 1))
    case RecordFailure(at) =>
      s.(b := Failed(c, s.b, at), calls := k.(running := k.running - 1, failed := k.failed + 1))
    case CountSuccess =>
      s.(calls := k.(succeeded := k.succeeded - 1), m := m.(totalSuccesses := m.totalSuccesses + 1))
    case CountFailure =>
      s.(calls := k.(failed := k.failed - 1, entered := k.entered + 1), m := m.(totalFailures := m.totalFailures + 1))
    case CountType(kind) =>
      s.(calls := k.(entered := k.entered - 1, handling := k.handling + 1),
         m := m.(errorsByType := m.errorsByType + multiset{kind}))
    case Degrade => s.(m := m.(degradationEnabled := true))
    case Recover => s.(calls := k.(handling := k.handling - 1, recovered := k.recovered + 1))
    case FailRecovery =>
      s.(calls := k.(handling := k.handling - 1), m := m.(failedRecoveries := m.failedRecoveries + 1))
    case CountRecovery =>
      s.(calls := k.(recovered := k.recovered - 1), m := m.(successfulRecoveries := m.successfulRecoveries + 1))
  }

  ghost predicate Run(c: Config, s: Sys, steps: seq<Step>, t: Sys)
    decreases |steps|
  {
    if steps == [] then s == t
    else Enabled(s, steps[0]) && Run(c, Next(c, s, steps[0]), steps[1..], t)
  }

  /** Each side's books, with what the calls under way still owe them. */
  ghost predicate Books(s: Sys) {
    var b, m, k := s.b, s.m, s.calls;
    && m.totalOperations == k.begun + b.totalRequests
    && b.totalRequests == b.totalSuccesses + b.totalFailures + k.running + k.blocked + m.circuitBreakerBlocks
    && b.totalSuccesses == m.totalSuccesses + k.succeeded
    && b.totalFailures == m.totalFailures + k.failed
    && m.totalFailures == |m.errorsByType| + k.entered
    && |m.errorsByType| == m.successfulRecoveries + m.failedRecoveries + k.handling + k.recovered
  }

  lemma CountTypeKeepsBooks(c: Config, s: Sys, kind: ErrorType)
    requires Books(s) && Enabled(s, CountType(kind))
    ensures Books(Next(c, s, CountType(kind)))
  {
  }

  lemma BreakerKeepsBooks(c: Config, s: Sys, step: Step)
    requires Books(s) && Enabled(s, step) && (step.Ask? || step.RecordSuccess? || step.RecordFailure?)
    ensures Books(Next(c, s, step))
  {
  }

  lemma StepKeepsBooks(c: Config, s: Sys, step: Step)
    requires Books(s) && Enabled(s, step)
    ensures Books(Next(c, s, step))
  {
    if step.CountType? {
      CountTypeKeepsBooks(c, s, step.kind);
    } else if step.Ask? || step.RecordSuccess? || step.RecordFailure? {
      BreakerKeepsBooks(c, s, step);
    }
  }

  lemma {:induction false} RunKeepsBooks(c: Config, s: Sys, steps: seq<Step>, t: Sys)
    requires Books(s) && Run(c, s, steps, t)
    ensures Books(t)
    decreases |steps|
  {
    if steps != [] {
      StepKeepsBooks(c, s, steps[0]);
      RunKeepsBooks(c, Next(c, s, steps[0]), steps[1..], t);
    }
  }

  ghost predicate Quiescent(k: Calls) { k == NO_CALLS }

  /** In every interleaving of calls, whenever none is under way the two machines agree: operations are
      blocks, successes and failures, each equal to the breaker's own total, and every failure was counted under
      one type and either recovered or not. */
  lemma AccountsAgree(c: Config, now: int, steps: seq<Step>, t: Sys)
    requires Run(c, Init(now), steps, t) && Quiescent(t.calls)
    ensures t.m.totalOperations == t.m.circuitBreakerBlocks + t.m.totalSuccesses + t.m.totalFailures
    ensures t.b.totalRequests == t.m.totalOperations
    ensures t.b.totalSuccesses == t.m.totalSuccesses && t.b.totalFailures == t.m.totalFailures
    ensures t.m.totalFailures == |t.m.errorsByType| == t.m.successfulRecoveries + t.m.failedRecoveries
  {
    RunKeepsBooks(c, Init(now), steps, t);
  }

  // The object itself, called by one client at a time.

  /** What HandleError adds to the metrics. */
  ghost function Handled(m: Metrics, err: Error, c: Settings, works: Action -> bool): Metrics {
    m.(errorsByType := m.errorsByType + multiset{Classify(err).kind},
       failedRecoveries := m.failedRecoveries + (if Recovers(err, c, works) then 0 else 1),
       degradationEnabled := m.degradationEnabled || Degrades(err, c, works))
  }

  /** What one call adds to the metrics. */
  ghost function Tallied(m: Metrics, ran: bool, outcome: Option<Error>, c: Settings, works: Action -> bool): Metrics {
    var n := m.(totalOperations := m.totalOperations + 1);
    if !ran then n.(circuitBreakerBlocks := n.circuitBreakerBlocks + 1)
    else if outcome.None? then n.(totalSuccesses := n.totalSuccesses + 1)
    else
      Handled(n, outcome.value, c, works).(
        totalFailures := n.totalFailures + 1,
        successfulRecoveries := n.successfulRecoveries + if Recovers(outcome.value, c, works) then 1 else 0)
  }

  /** What one call does to the breaker. */
  ghost function Driven(c: Config, b: Breaker, now: int, done: int, ran: bool, ok: bool): Breaker {
    var asked := Asked(c, b, now);
    if !ran then asked else if ok then Succeeded(c, asked, done) else Failed(c, asked, done)
  }

  ghost predicate Settled(b: Breaker, m: Metrics) {
    Books(Sys(b, m, NO_CALLS))
  }

  /** One whole call keeps the two sets of books in agreement. */
  lemma CallKeepsBooks(
      config: Config, b: Breaker, m: Metrics, now: int, done: int,
      ran: bool, outcome: Option<Error>, c: Settings, works: Action -> bool)
    requires Settled(b, m)
    ensures Settled(Driven(config, b, now, done, ran, outcome.None?), Tallied(m, ran, outcome, c, works))
  {
    if ran && outcome.Some? {
      FailureKeepsBooks(config, b, m, now, done, outcome.value, c, works);
    }
  }

  lemma FailureKeepsBooks(
      config: Config, b: Breaker, m: Metrics, now: int, done: int, err: Error, c: Settings, works: Action -> bool)
    requires Settled(b, m)
    ensures Settled(Failed(config, Asked(config, b, now), done), Tallied(m, true, Some(err), c, works))
  {
  }

  /** The breaker gets three limits of the recovery configuration; nil stands for the defaults. */
  datatype RecoveryConfig = RecoveryConfig(
    failureThreshold: int, recoveryTimeout: int, consecutiveSuccesses: int, maxRetries: int, enableDegradation: bool)
  {
    function Limits(): Config {
      Config(failureThreshold, 0.0, 0, recoveryTimeout, consecutiveSuccesses, 0, 0, false, 0)
    }
  }

  const DEFAULT_RECOVERY: RecoveryConfig := RecoveryConfig(5, 30 * SECOND, 3, 3, true)

  class ErrorRecovery {
    const breaker: CircuitBreaker
    const config: Settings
    var metrics: Metrics

    ghost predicate Valid()
      reads this, breaker
    {
      breaker.Valid() && Settled(breaker.View(), metrics)
    }

    constructor (c: Option<RecoveryConfig>, now: int)
      ensures Valid() && fresh(breaker)
      ensures var given := if c.None? then DEFAULT_RECOVERY else c.value;
              && breaker.config == given.Limits().WithDefaults()
              && config == Settings(given.maxRetries, given.enableDegradation)
      ensures var b := breaker.config;
              && b.failureRate == 0.0 && !b.adaptiveThresholds && b.halfOpenMaxRequests == 2
              && b.resetTimeout == 60_000_000_000
              && (c.Some? ==>
                    b.failureThreshold == c.value.failureThreshold
                    && b.recoveryTimeout
                         == (if c.value.recoveryTimeout != 0 then c.value.recoveryTimeout else 30 * SECOND)
                    && b.consecutiveSuccesses
                         == (if c.value.consecutiveSuccesses != 0 then c.value.consecutiveSuccesses else 3))
              && (c.None? ==>
                    b.failureThreshold == 5 && b.recoveryTimeout == 30_000_000_000 && b.consecutiveSuccesses == 3
                    && config == Settings(3, true))
      ensures metrics == NO_METRICS && breaker.View() == Fresh(now)
    {
      var given := if c.None? then DEFAULT_RECOVERY else c.value;
      breaker := new CircuitBreaker(Some(given.Limits()), now);
      config := Settings(given.maxRetries, given.enableDegradation);
      metrics := NO_METRICS;
    }

    /** `outcome` is what the retried operation returns at `done`, `works` which recovery actions work. The
        call succeeds exactly when it is admitted and the operation did: a recovered failure is still
        returned as an error. */
    method ExecuteWithRecovery(now: int, done: int, outcome: Option<Error>, works: Action -> bool)
      returns (ok: bool, ran: bool)
      requires Valid()
      modifies this, breaker
      ensures Valid()
      ensures ran == Admits(breaker.config, old(breaker.View()), now)
      ensures ok <==> ran && outcome.None?
      ensures breaker.View() == Driven(breaker.config, old(breaker.View()), now, done, ran, outcome.None?)
      ensures metrics == Tallied(old(metrics), ran, outcome, config, works)
    {
      ghost var b, m := breaker.View(), metrics;
      metrics := metrics.(totalOperations := metrics.totalOperations + 1);
      ran := breaker.CanExecute(now);
      ok := ran && outcome.None?;
      if !ran {
        metrics := metrics.(circuitBreakerBlocks := metrics.circuitBreakerBlocks + 1);
      } else if outcome.Some? {
        breaker.RecordFailure(done);
        assert breaker.View() == Driven(breaker.config, b, now, done, ran, outcome.None?);
        metrics := metrics.(totalFailures := metrics.totalFailures + 1);
        var handled := HandleError(outcome, works);
        if handled {
          metrics := metrics.(successfulRecoveries := metrics.successfulRecoveries + 1);
        }
      } else {
        breaker.RecordSuccess(done);
        assert breaker.View() == Driven(breaker.config, b, now, done, ran, outcome.None?);
        metrics := metrics.(totalSuccesses := metrics.totalSuccesses + 1);
      }
      assert metrics == Tallied(m, ran, outcome, config, works);
      CallKeepsBooks(breaker.config, b, m, now, done, ran, outcome, config, works);
    }

    /** Recovery succeeds exactly when every action of the strategy and of the code does. The cleanup that follows
        it has no effect on the result or the metrics. */
    method HandleError(err: Option<Error>, works: Action -> bool) returns (handled: bool)
      modifies `metrics
      ensures err.None? ==> handled && metrics == old(metrics)
      ensures err.Some? ==> (handled <==> Recovers(err.value, config, works))
      ensures err.Some? ==> metrics == Handled(old(metrics), err.value, config, works)
    {
      if err.None? {
        return true;
      }
      var e := Classify(err.value);
      metrics := metrics.(errorsByType := metrics.errorsByType + multiset{e.kind});
      var strategy := SelectRecoveryStrategy(e, config);
      if strategy.None? {
        assert false;
      }
      var done;
      handled, done := ExecuteRecoveryStrategy(strategy.value, e.code, works);
      if !handled {
        metrics := metrics.(failedRecoveries := metrics.failedRecoveries + 1);
      }
    }

    /** The actions run in order and stop at the first that fails; degradation is turned on only after the
        strategy's own actions. */
    method ExecuteRecoveryStrategy(s: Strategy, code: ErrorCode, works: Action -> bool)
      returns (ok: bool, done: seq<Action>)
      modifies `metrics
      ensures UpToFailure(done, StrategyActions(s) + CodeActions(code), works)
      ensures ok <==> AllWork(StrategyActions(s) + CodeActions(code), works)
      ensures var degrade := s.gracefulDegrade && config.enableDegradation && AllWork(StrategyActions(s), works);
              metrics == old(metrics).(degradationEnabled := old(metrics).degradationEnabled || degrade)
    {
      ghost var first := StrategyActions(s);
      ghost var actions := first + CodeActions(code);
      ok, done := true, [];
      if s.cleanupResources {
        done := [CleanUp];
        if !works(CleanUp) {
          assert actions[0] == first[0] == CleanUp;
          return false, done;
        }
      }
      if s.networkRecovery {
        done := done + [RecoverNetwork];
        if !works(RecoverNetwork) {
          assert actions[|done| - 1] == first[|done| - 1] == RecoverNetwork;
          return false, done;
        }
      }
      assert done == first && AllWork(first, works);
      if s.gracefulDegrade && config.enableDegradation {
        metrics := metrics.(degradationEnabled := true);
      }
      var last := CodeActions(code);
      if last != [] {
        ok, done := works(last[0]), done + last;
        assert actions[|first|] == last[0];
      }
    }
  }
}
