# Docker Network Doctor: a verified model of its state machines

Docker Network Doctor runs its diagnostic checks on a layer of concurrent and timed machinery: a worker pool with
an error-rate circuit, a circuit breaker and the recovery code that drives it, an indexed ring of timings, a response
cache, a connection semaphore, retry loops, and an automatic degradation level. This project models that layer in
Dafny and proves what it keeps over whole runs.

`dafny verify dfyconfig.toml` checks everything.

## How it is modelled

- Results and counters are tied to what happened: `PoolOutcomes` reads the results and the monitor's records off the
  steps of a run, `BreakerHistory` the breaker's counters and its opening off the events and their times.
- Objects whose methods update fields under a lock are classes: `CircuitBreaker`, `ErrorRateMonitor`,
  `ErrorRecovery`, `TimingStorage`, `ResponseCache`, `DurationTracker`, `RetryPolicy`, `GracefulDegradation`. Their
  methods are proved against functions on values, or against a ghost log of everything that was stored or recorded.
- Protocols between goroutines are step systems: `WorkerPool`, `ConnectionSlots`, the concurrent callers of
  `ErrorRecovery`, and the many clients of `BreakerRuns`. One step is one atomic operation (a channel operation, an
  atomic add, a critical section), so a run is one interleaving, and the theorems hold for all runs. `GetOrCompute`
  drops the cache's lock while it computes: what other calls leave behind then is a parameter, restricted only by the
  invariant every call keeps.
- A critical section reads the clock once: `now` is a parameter. The worker pool's clock only moves forward, and so
  do the event times of `BreakerRuns`.
- Rates, scores and delays are reals. Counters and durations are unbounded integers; the range of `int32` and
  `int64` is taken to be large enough. Go's truncating division is written out.
- Map iteration order, random draws, cancellation, the rate limiter and the outcome of an operation are parameters,
  so what is proved holds for every value of them.
- `Submit` cancels the job's context when it returns, so the rate limiter may refuse any job.
- `Stop` of the pool does not run while a `Submit` is between its checks and its return, as in the engine's own use.
- The keys of a stored timing do not change while it is stored; `Indexes.RetagBreaks` says what happens otherwise.

## What the proofs found

Where the code and its comments disagree, the model follows the code.

- With the default limits (3 successes, 2 half-open requests) and one request out at a time, the breaker never closes
  again after it has opened: `BreakerRuns.NeverCloses`, `SerialRecoverableExactly`, `WedgedForever`,
  `DefaultRecoveryWedges`. Concurrent clients can close it, by the outcomes still in flight when it opened:
  `BreakerLimits.RecoverableExactly` and `ClosableExactly` say exactly when.
- The engine leaves the failure threshold at zero, so its first operation opens the circuit even when it succeeds
  (`BreakerRuns.EngineStalls`); successes open a closed circuit for no other threshold
  (`BreakerLimits.SuccessOpensExactly`).
- A success recorded while the circuit is open is commented as "no action" but half-opens it before the timeout. A
  serial client never meets this (`NoLateSuccess`); two clients do (`LateSuccessSkipsTimeout`). An admission can come
  before the timeout exactly when a request is in flight (`BreakerLimits.EarlyAdmissionExactly`).
- Polling `activeJobs == 0` is sound only when no `Submit` is between its enqueue and its count
  (`WorkerPool.CompletionIsSound`, `CompletionExactly`); otherwise it reads zero with a job queued, or minus one.
- The engine waits for one result per check, so a single refused `Submit` leaves it waiting until its timeout or
  its context ends the collection (`CollectionEnds`).
- An open error-rate circuit with nothing in flight never closes: only records change it
  (`PoolCircuit.OpenCircuitSticks`); `CircuitClosesExactly` says what must be in flight for it to close.
- A cancelled worker's comment speaks of putting the job back; it is dropped, and the books count it as dropped.
- `evictOldest` takes the empty key for "none yet"; `ResponseCache.EvictsOldestExactly` gives the exact condition
  under which it evicts the oldest entry, `OverflowsExactly` the exact condition under which a store overruns the size
  bound, and `EmptyKeyOverflows` an instance.
- `Min` treats zero as unset: it is exact unless a recorded zero was followed by something else
  (`DurationTracker.MinExactWhen`).
- A delay stays within `MaxDelay` unless the jitter factor exceeds one and the base delay exceeds the cap
  (`Backoff.DelayCappedExactly`); the Docker policy's jitter follows its cap and exceeds it
  (`DockerCapExceededExactly`, `DockerWithinCapExactly`).
- `GetStatistics` reads its time span off the first and the last slot; once the ring has wrapped these are neighbours
  in time, and the span is not positive (`TimingStorage.SpanExactly`).
- `classifyError` gives every error a strategy of advice only, so the default strategies by error type, with their
  cleanup and degradation, are never used for an error it classified (`ErrorRecovery.OnlyCodeActions`).
- Reaching a threshold doubles an indicator's weight, so getting worse can raise the score
  (`Degradation.WorseningRaisesExactly`) and even the level (`WorseningLifts`); `AutoRecoveries` counts the changes for
  the worse.
- The score test of 0.8 never decides: with every indicator below its threshold the score is one
  (`Degradation.NormalExactly`).
- With a failure threshold of zero the breaker's health score is not a number once it has counted a request.
- `ExecuteWithRecovery` returns the original error even when recovery succeeded.

## Model

| member | source | states |
|---|---|---|
| WorkerPool.StepKeeps | internal/diagnostics/worker_pool.go:246-363 | every atomic step of Submit, of a worker, of Start, Stop and the consumer keeps the pool's books and channel bounds |
| WorkerPool.JobsConserved | internal/diagnostics/worker_pool.go:279-362 | in every interleaving activeJobs plus uncounted Submits equals queued plus held jobs; each accepted job is in exactly one of queue, worker, results, dropped, so it has at most one result; completedJobs and failedJobs are the results sent, by kind, up to those about to be counted; drops need a done context |
| WorkerPool.RoomExactly | internal/diagnostics/worker_pool.go:279-346 | a checked Submit can enqueue, and a worker can send its result, exactly while the channel holds fewer than a hundred |
| WorkerPool.CompletionIsSound | internal/diagnostics/worker_pool.go:402-414 | with no Submit between enqueue and count, activeJobs is zero exactly when nothing is queued or held, and then every accepted job has one result sent or was dropped |
| WorkerPool.CompletionExactly | internal/diagnostics/worker_pool.go:402-414 | in a reachable state where activeJobs reads zero, nothing is queued or held if and only if no Submit is between enqueue and count |
| WorkerPool.ZeroWhileQueued | internal/diagnostics/worker_pool.go:279-282 | a reachable state mid-Submit where activeJobs is zero and a job is queued |
| WorkerPool.BelowZero | internal/diagnostics/worker_pool.go:279-321 | a reachable state where activeJobs is minus one because the worker finished before Submit counted |
| WorkerPool.DrainingProgress | internal/diagnostics/worker_pool.go:303-362 | no deadlock: while the pool context is live, a worker or the consumer can always move until everything is drained |
| WorkerPool.DrainEnds | internal/diagnostics/worker_pool.go:303-362 | every schedule of workers and consumer stops within a bound computed from the state |
| WorkerPool.DrainDeliversOnce | internal/diagnostics/worker_pool.go:303-363 | from any reachable state with a live context, once workers and consumer cannot move, each accepted job was received exactly once and none dropped |
| WorkerPool.JobsSummed | internal/diagnostics/worker_pool.go:279-362 | in every interleaving accepted jobs = queued + held without a sent result + results sent + dropped |
| WorkerPool.CollectionEnds | internal/diagnostics/engine.go:327-372 | the engine's collection of one result per check ends by itself if and only if no Submit was refused |
| PoolOutcomes.ResultsFollow | internal/diagnostics/worker_pool.go:303-363 | in every interleaving the results sent are, in order, those the schedule alone tells: the i-th job taken is the i-th accepted, and its result is without error exactly when its executeJob was |
| PoolOutcomes.ResultIsVerdict | internal/diagnostics/worker_pool.go:313-352 | a job with a result has exactly one verdict, of executeJob or of the rate limiter, and the result is that verdict |
| PoolOutcomes.OkExactly | internal/diagnostics/worker_pool.go:313-352 | a result is without error if and only if some step ended executeJob for that very job without one; with one if and only if executeJob ended with one or the rate limiter refused the job |
| PoolOutcomes.RecordsFollow | internal/diagnostics/worker_pool.go:354-361 | the monitor is told, in order and at the right time, the outcome of each executeJob and nothing else |
| PoolOutcomes.RecordHasFinish | internal/diagnostics/worker_pool.go:326-361 | every record has an executeJob of its own before it in the same worker, and reports its outcome |
| PoolOutcomes.AcceptedPassed | internal/diagnostics/worker_pool.go:246-266 | no more jobs are accepted than passed the checks of Submit |
| PoolCircuit.RunReplays | internal/diagnostics/worker_pool.go:354-361 | the monitor is the replay of exactly the outcomes recorded along the run; rate-limit errors are not among them |
| PoolCircuit.CircuitMeaning | internal/diagnostics/worker_pool.go:551-598 | in every interleaving the circuit is open exactly when the current window's outcomes latched it, on at least ten of them at half the threshold rate |
| PoolCircuit.OpenCircuitSticks | internal/diagnostics/worker_pool.go:246-255 | once open with no job queued, held or mid-Submit, the circuit stays open and no Submit enqueues, however much time passes |
| PoolCircuit.CircuitClosesExactly | internal/diagnostics/worker_pool.go:246-362 | from a reachable state with the circuit open, some continuation closes it if and only if a worker past the context test holds an outcome not limited by rate and not yet recorded, or the context is live and a job is queued, taken or about to be enqueued |
| ErrorRate.ReplayMeaning | internal/diagnostics/worker_pool.go:551-598 | for every history the counters count the current window's records and the circuit is open exactly when at some point ten or more records were at the threshold rate and the rate has not been below half of it since |
| ErrorRate.LatchedSnoc | internal/diagnostics/worker_pool.go:584-598 | how one more record sets, keeps or releases the latch |
| ErrorRate.OpenEvidence | internal/diagnostics/worker_pool.go:584-598 | open needs ten records and half the threshold rate; ten records at the threshold rate suffice |
| ErrorRate.LateRecordCloses | internal/diagnostics/worker_pool.go:575-582 | any record after the window closes the circuit and begins a new window |
| ErrorRate.ErrorRateMonitor.RecordError | internal/diagnostics/worker_pool.go:551-558 | the fields stay the replay of all records, this one appended as a failure |
| ErrorRate.ErrorRateMonitor.RecordSuccess | internal/diagnostics/worker_pool.go:560-567 | the fields stay the replay of all records, this one appended as a success |
| ErrorRate.ErrorRateMonitor.IsOpen | internal/diagnostics/worker_pool.go:569-573 | open exactly when the current window's records have latched the circuit |
| ErrorRate.ErrorRateMonitor.CheckWindow | internal/diagnostics/worker_pool.go:575-582 | a fresh window exactly when the old one has passed |
| ErrorRate.ErrorRateMonitor.UpdateCircuitState | internal/diagnostics/worker_pool.go:584-598 | hysteresis: unchanged under ten records, set at the threshold, released below half |
| CircuitBreaker.CallsKeepInv | internal/diagnostics/circuit_breaker.go:217-322 | every call, in any order, keeps: CLOSED means fewer failures than the threshold, HALF_OPEN means successes below ConsecutiveSuccesses and admissions within HalfOpenMaxRequests, consecutive failures at most failures at most total failures |
| CircuitBreaker.HealthScoreInRange | internal/diagnostics/circuit_breaker.go:572-601 | the health score lies in [0,1], and in [0.3,0.7) while half-open |
| CircuitBreaker.HealthScoreMoves | internal/diagnostics/circuit_breaker.go:573-601 | while closed the success rate, of which each failure in a row takes 1/(2*FailureThreshold); while half-open equal steps from 0.3; full without requests, nil while open |
| CircuitBreaker.SuccessTripsExactly | internal/diagnostics/circuit_breaker.go:262-322 | with the rate and adaptive rules off, a success recorded while closed opens the circuit if and only if the threshold is zero or less, and a failure if and only if it is the threshold-th |
| CircuitBreaker.CircuitBreaker.constructor | internal/diagnostics/circuit_breaker.go:173-206 | starts closed with the defaults in place of a missing configuration or of unset limits |
| CircuitBreaker.CircuitBreaker.CanExecute | internal/diagnostics/circuit_breaker.go:217-253 | admission and the whole next state, keeping the invariant; what its counters mean over a run is BreakerHistory.CountersMean |
| CircuitBreaker.CircuitBreaker.RecordSuccess | internal/diagnostics/circuit_breaker.go:262-288 | the whole next state after a success, keeping the invariant |
| CircuitBreaker.CircuitBreaker.RecordFailure | internal/diagnostics/circuit_breaker.go:297-322 | the whole next state after a failure, keeping the invariant |
| CircuitBreaker.CircuitBreaker.Reset | internal/diagnostics/circuit_breaker.go:394-414 | back to a fresh breaker, transition counts included |
| CircuitBreaker.CircuitBreaker.ForceOpen | internal/diagnostics/circuit_breaker.go:545-549 | open, counted as an entry only if it was not |
| CircuitBreaker.CircuitBreaker.ForceClose | internal/diagnostics/circuit_breaker.go:552-556 | closed with failures forgotten, counted as an entry only if it was not |
| CircuitBreaker.CircuitBreaker.GetHealthScore | internal/diagnostics/circuit_breaker.go:573-601 | the score, in [0,1] when no more successes were recorded than requests counted; a number exactly unless the threshold is zero and a request was counted while closed |
| CircuitBreaker.CircuitBreaker.ShouldOpenCircuit | internal/diagnostics/circuit_breaker.go:448-485 | count, rate and adaptive rules, with a zero adjusted threshold divided as a float divides |
| CircuitBreaker.CircuitBreaker.TransitionToOpen | internal/diagnostics/circuit_breaker.go:487-493 | idempotent entry to OPEN |
| CircuitBreaker.CircuitBreaker.TransitionToClosed | internal/diagnostics/circuit_breaker.go:495-504 | idempotent entry to CLOSED with counters cleared |
| CircuitBreaker.CircuitBreaker.TransitionToHalfOpen | internal/diagnostics/circuit_breaker.go:506-514 | idempotent entry to HALF_OPEN with its epoch counters cleared |
| BreakerRuns.ManyClients | internal/diagnostics/circuit_breaker.go:217-322 | for any number of clients recording once per admission, in every state of every run: the invariant, requests = successes + failures + in flight + refused, and a health score in [0,1] |
| BreakerRuns.EpochCount | internal/diagnostics/circuit_breaker.go:233-248 | in a half-open epoch halfOpenRequestCount is the number of admissions in the trace |
| BreakerRuns.EpochBound | internal/diagnostics/circuit_breaker.go:242-248 | each half-open epoch admits at most HalfOpenMaxRequests |
| BreakerRuns.EntriesBalance | internal/diagnostics/circuit_breaker.go:487-514 | without ForceClose, entries to OPEN = entries to HALF_OPEN (+1 while OPEN), and entries to CLOSED at most entries to HALF_OPEN |
| BreakerRuns.SerialRuns | internal/diagnostics/error_recovery.go:193-258 | a serial client has nothing in flight while OPEN, and in HALF_OPEN successes plus in-flight equal admissions |
| BreakerRuns.NoLateSuccess | internal/diagnostics/circuit_breaker.go:283-286 | for a serial client the exit from OPEN on a late success is never taken |
| BreakerRuns.AdmissionWaits | internal/diagnostics/circuit_breaker.go:233-240 | for a serial client every admission after an opening comes at least RecoveryTimeout after it |
| BreakerRuns.LateSuccessSkipsTimeout | internal/diagnostics/circuit_breaker.go:283-286 | a run of two clients where an admission comes before RecoveryTimeout |
| BreakerRuns.NeverCloses | internal/diagnostics/circuit_breaker.go:276-281 | with ConsecutiveSuccesses above HalfOpenMaxRequests, once it has left CLOSED a serial run never returns there, whatever the outcomes and times |
| BreakerRuns.RoundsCount | internal/diagnostics/circuit_breaker.go:242-281 | while both limits allow, every successful round is admitted and counted |
| BreakerRuns.RecoversExactly | internal/diagnostics/circuit_breaker.go:276-281 | otherwise exactly ConsecutiveSuccesses successful admissions close it, none refused, one fewer leaves it half-open |
| BreakerRuns.SerialRecoverableExactly | internal/diagnostics/circuit_breaker.go:242-281 | a due breaker with nothing in flight can be closed by successful rounds if and only if ConsecutiveSuccesses <= HalfOpenMaxRequests |
| BreakerRuns.RecoveryWedges | internal/diagnostics/circuit_breaker.go:242-281 | in the other case HalfOpenMaxRequests successes use up the admissions and leave it half-open |
| BreakerRuns.WedgedForever | internal/diagnostics/circuit_breaker.go:242-248 | a wedged breaker refuses every request of every client at every later time until Reset or Force |
| BreakerRuns.DefaultRecoveryWedges | internal/diagnostics/error_recovery.go:145-149 | the recovery defaults, and any choice of three or more successes, wedge after two successes |
| BreakerRuns.EngineStalls | internal/diagnostics/enhanced_engine.go:440-446 | a first success opens the engine's breaker if and only if the failure threshold is zero or less, and then two more successes wedge it |
| BreakerLimits.EarlyAdmissionExactly | internal/diagnostics/circuit_breaker.go:233-286 | from an open state before its timeout, some continuation of requests and outcomes admits a request before the timeout if and only if a request is in flight |
| BreakerLimits.RecoverableExactly | internal/diagnostics/circuit_breaker.go:233-286 | any number of clients can close an open breaker by successes alone if and only if ConsecutiveSuccesses <= HalfOpenMaxRequests + requests in flight |
| BreakerLimits.ClosableExactly | internal/diagnostics/circuit_breaker.go:233-322 | with failures allowed they can close it if and only if that holds or HalfOpenMaxRequests is at least two |
| BreakerLimits.ClosedBelowThreshold | internal/diagnostics/circuit_breaker.go:297-322 | in every state of every run a closed breaker has fewer failures than a positive threshold, whatever the other limits |
| BreakerLimits.SuccessOpensExactly | internal/diagnostics/circuit_breaker.go:262-286 | with the rate and adaptive rules off, some run has a success that opens the closed breaker if and only if FailureThreshold is zero or less |
| BreakerHistory.CountersMean | internal/diagnostics/circuit_breaker.go:217-322 | in every state of every run failureCount is the number of failures since the latest reset, closing, or request to a closed breaker more than ResetTimeout after the last failure; consecutiveFailures those since the latest success; the totals and times those since the latest reset |
| BreakerHistory.OpensExactly | internal/diagnostics/circuit_breaker.go:448-485 | an outcome recorded while closed opens the breaker if and only if the history calls for it: enough failures that count, or failures >= rate * requests, or a streak of four fifths of the adapted threshold |
| BreakerHistory.OpensAtThreshold | internal/diagnostics/circuit_breaker.go:297-322 | with the other rules off, it opens exactly at the FailureThreshold-th failure that counts |
| ErrorRecovery.AccountsAgree | internal/diagnostics/error_recovery.go:187-318 | in every interleaving, whenever no call is under way: operations = blocks + successes + failures, equal to the breaker's own totals, and failures = the sum of ErrorsByType = successful + failed recoveries |
| ErrorRecovery.StepKeepsBooks | internal/diagnostics/error_recovery.go:187-318 | each critical section keeps both sets of books, with what calls under way still owe |
| ErrorRecovery.CallKeepsBooks | internal/diagnostics/error_recovery.go:187-262 | one whole call, blocked, successful, recovered or not, keeps the two sets of books equal |
| ErrorRecovery.SelectRecoveryStrategy | internal/diagnostics/error_recovery.go:460-502 | there always is a strategy, the error's own if it carries one; otherwise each field as the error type has it |
| ErrorRecovery.OnlyCodeActions | internal/diagnostics/error_recovery.go:323-532 | an error classified here leads to at most the one action of its code; degradation is turned on if and only if the error came classified, with a strategy that asks for it or as a resource error without one, and the actions before it worked |
| ErrorRecovery.ActionDecides | internal/diagnostics/error_recovery.go:323-532 | recovery of an error classified here fails if and only if the one action for what it looks like does: reconnecting, aggressive cleanup or network recovery, in the order of the tests; and the type it is counted under |
| ErrorRecovery.DiagnosedActionsDecide | internal/diagnostics/error_recovery.go:505-532 | recovery of an error classified elsewhere succeeds if and only if every action its strategy and its code ask for does |
| ErrorRecovery.ErrorRecovery.ExecuteWithRecovery | internal/diagnostics/error_recovery.go:187-262 | succeeds exactly when admitted and the operation did; drives the breaker and the metrics accordingly, keeping their agreement |
| ErrorRecovery.ErrorRecovery.constructor | internal/diagnostics/error_recovery.go:115-167 | the breaker gets the three limits of the configuration, or of the defaults for a missing one |
| ErrorRecovery.ErrorRecovery.HandleError | internal/diagnostics/error_recovery.go:280-318 | counts the error under its type; recovery succeeds if and only if every action of the strategy and of the code does, and otherwise is counted as failed; no error changes nothing |
| ErrorRecovery.ErrorRecovery.ExecuteRecoveryStrategy | internal/diagnostics/error_recovery.go:505-532 | the actions run in order up to the first that fails; degradation is turned on exactly when wanted, enabled and reached |
| Indexes.SwapRemoveMultiset | internal/diagnostics/timing_storage.go:364-389 | swap-with-last removal takes out exactly one occurrence |
| Indexes.AddAgrees | internal/diagnostics/timing_storage.go:328-343 | indexing a new entry keeps every slot equal, as a multiset, to the entries with its key |
| Indexes.RemoveAgrees | internal/diagnostics/timing_storage.go:346-361 | swap-removing the oldest entry keeps that agreement |
| Indexes.RetagBreaks | internal/diagnostics/performance_profiler.go:337-343 | giving a stored entry another key keeps the agreement if and only if the key did not change |
| Indexes.CountsMatchSlots | internal/diagnostics/timing_storage.go:247-268 | counting by key over the ring gives the slot lengths |
| TimingStorage.Overwrite | internal/diagnostics/timing_storage.go:52-63 | overwriting the next slot drops the oldest entry and appends the new one, wrapped or not |
| TimingStorage.StoreWithRoom | internal/diagnostics/timing_storage.go:49-51 | storing below capacity keeps ring, log and indexes consistent |
| TimingStorage.StoreWhenFull | internal/diagnostics/timing_storage.go:52-67 | storing at capacity keeps ring, log and indexes consistent |
| TimingStorage.TimingStorage.constructor | internal/diagnostics/timing_storage.go:25-37 | empty, with the default capacity for a size of zero or less |
| TimingStorage.TimingStorage.Store | internal/diagnostics/timing_storage.go:40-68 | the storage holds the last maxSize stored and all three indexes agree with them, after any number of wraparounds; nil is ignored |
| TimingStorage.TimingStorage.RemoveTimingFromSlice | internal/diagnostics/timing_storage.go:364-389 | found exactly when present; the first occurrence is replaced by the last element |
| TimingStorage.TimingStorage.GetAll | internal/diagnostics/timing_storage.go:83-110 | exactly the last min(n, maxSize) stored, in store order, in all three phases |
| TimingStorage.TimingStorage.GetLatest | internal/diagnostics/timing_storage.go:71-80 | the last one stored, or nil when there is none |
| TimingStorage.TimingStorage.GetByCategory | internal/diagnostics/timing_storage.go:113-125 | exactly the measurements held of that category, as a multiset; none for the empty one |
| TimingStorage.TimingStorage.GetByCheck | internal/diagnostics/timing_storage.go:128-140 | exactly those of that check |
| TimingStorage.TimingStorage.GetByWorker | internal/diagnostics/timing_storage.go:143-155 | exactly those of that worker; none for a negative number |
| TimingStorage.TimingStorage.GetStatistics | internal/diagnostics/timing_storage.go:229-291 | over the measurements held: minimum, average, success count and rate are exact, the maximum if and only if some duration is not negative, the average lies between the extremes; counts per key equal the index slot lengths |
| TimingStorage.SpanExactly | internal/diagnostics/timing_storage.go:276-291 | for consecutive measurements TimeSpan runs from the oldest to the newest if and only if the oldest sits in the first slot; otherwise it is not positive |
| TimingStorage.TimingStorage.Clear | internal/diagnostics/timing_storage.go:294-306 | everything empty and consistent |
| ResponseCache.EvictsOldestExactly | internal/docker/response_cache.go:283-298 | for every iteration order an entry of minimal timestamp is removed, if and only if some entry of minimal timestamp has a non-empty key |
| ResponseCache.EvictOnlyMisses | internal/docker/response_cache.go:283-298 | eviction only turns hits into misses |
| ResponseCache.CleanupInvisible | internal/docker/response_cache.go:316-332 | removing expired entries changes no lookup at any later time |
| ResponseCache.StaysExactly | internal/docker/response_cache.go:50-95 | through any run of calls that does not store, remove or evict its key, a stored value is found exactly until its TTL has passed, whatever cleanups ran |
| ResponseCache.KeysApart | internal/docker/response_cache.go:137-245 | inspections of networks and of containers never share a key, and a key has one identifier |
| ResponseCache.OverflowsExactly | internal/docker/response_cache.go:77-95 | a store of a new key into a full cache exceeds the bound if and only if the scan ends on the empty key; some iteration order makes it do so if and only if no entry of minimal timestamp has a non-empty key |
| ResponseCache.EmptyKeyOverflows | internal/docker/response_cache.go:283-298 | for instance, a cache of one entry with the empty key then holds two |
| ResponseCache.ResponseCache.Get | internal/docker/response_cache.go:50-74 | a hit if and only if the key is held, of the kind asked for and within its TTL; it is the value of the latest store of that key not invalidated since; one hit or miss is counted |
| ResponseCache.ResponseCache.Set | internal/docker/response_cache.go:77-95 | logs the store, evicting first when full; from within max(1, maxEntries) it exceeds that bound if and only if the cache was full, the key new and the scan ended on the empty key |
| ResponseCache.ResponseCache.Peek | internal/docker/response_cache.go:361-369 | the first critical section: a hit is the value of the latest store of the key, not expired |
| ResponseCache.ResponseCache.GetOrCompute | internal/docker/response_cache.go:360-397 | a live entry is returned without computing; whatever other calls do while the lock is free, an error stores nothing, and a value is stored and is the latest |
| ResponseCache.ResponseCache.Invalidate | internal/docker/response_cache.go:248-253 | removes the key here and in the log |
| ResponseCache.ResponseCache.InvalidateAll | internal/docker/response_cache.go:256-261 | removes everything here and in the log |
| ResponseCache.ResponseCache.EvictOldest | internal/docker/response_cache.go:283-298 | removes the key the scan ends on, one entry when no key is empty, and counts it |
| ResponseCache.ResponseCache.CleanupExpired | internal/docker/response_cache.go:316-332 | keeps exactly the unexpired entries |
| ConnectionSlots.SlotsConserved | internal/docker/client_enhanced.go:452-496 | in every interleaving tokens plus holders equal MaxConnections, returning a token never blocks, active and peak stay within MaxConnections |
| ConnectionSlots.PeakIsExact | internal/docker/client_metrics.go:144-152 | PeakConnections never overstates, and equals the highest ActiveConnections whenever no comparison is pending |
| ConnectionSlots.HighestIsLargest | internal/docker/client_metrics.go:144-152 | that highest value bounds the active count of every state of the run |
| ConnectionSlots.HighestAttained | internal/docker/client_metrics.go:144-152 | and it is the active count of some state of the run |
| ConnectionSlots.AddReturns | internal/docker/client_metrics.go:144-152 | the value compared with the peak is the counter just after the call's own add |
| ConnectionSlots.ClosedKeepsOut | internal/docker/client_enhanced.go:452-462 | once the client is closed no call enters |
| Subnets.OverlapMeansShared | internal/diagnostics/network_checks.go:302-305 | subnetsOverlap is true if and only if some address lies in both, for all prefix lengths and families, IPv4-mapped ones included; overlapping prefixes nest |
| Subnets.ContainsMeansPrefix | internal/diagnostics/network_checks.go:304-304 | containment through byte masks is agreement on the leading bits, with IPv4-mapped addresses and prefixes read as IPv4 |
| Subnets.MappedIsSame | internal/diagnostics/network_checks.go:304-304 | an IPv4 address and its IPv4-mapped form lie in the same prefixes |
| Subnets.Collect | internal/diagnostics/network_checks.go:188-203 | every well-formed subnet of every network in order, the others skipped |
| Subnets.FindOverlaps | internal/diagnostics/network_checks.go:206-216 | each overlapping unordered pair is reported exactly once and no other |
| Subnets.Run | internal/diagnostics/network_checks.go:169-236 | success if and only if no two collected subnets share an address |
| DurationTracker.ExchangeSort | internal/docker/client_metrics.go:302-308 | an ordered permutation |
| DurationTracker.SortedKth | internal/docker/client_metrics.go:310-322 | position k of the sorted copy is the k-th smallest sample, by counting |
| DurationTracker.KthOrdered | internal/docker/client_metrics.go:310-322 | order statistics are unique, increase with the rank and are samples |
| DurationTracker.MinExactWhen | internal/docker/client_metrics.go:272-274 | Min is the minimum of all history if and only if no zero was recorded or the last record was zero |
| DurationTracker.RunningMaxIsMax | internal/docker/client_metrics.go:275-277 | Max is the maximum of all history |
| DurationTracker.DurationTracker.Record | internal/docker/client_metrics.go:265-289 | count, total, average and extremes of the whole history; P50, P95 and P99 the (len*50/100)-th, (len*95/100)-th and (len*99/100)-th smallest of the last 1000 samples |
| DurationTracker.DurationTracker.UpdatePercentiles | internal/docker/client_metrics.go:292-323 | each percentile is the order statistic of the samples at its index |
| DurationTracker.DurationTracker.Cuts | internal/docker/client_metrics.go:292-323 | each percentile is a sample with at most q percent of the samples below it and more than q percent at most it |
| DurationTracker.DurationTracker.Summary | internal/docker/client_metrics.go:265-323 | Average is the mean rounded down; where Min is exact, Min <= Average <= Max and Min <= P50 <= P95 <= P99 <= Max |
| Backoff.DelayCappedExactly | internal/diagnostics/retry_policy.go:396-433 | every delay is at most MaxDelay, for all attempts and draws, if and only if not (jittered, factor above one, base above cap); never negative |
| Backoff.DelayIs | internal/diagnostics/retry_policy.go:396-433 | without jitter a delay is the uncapped one, built up attempt by attempt, or the cap |
| Backoff.JitteredDelayIs | internal/diagnostics/retry_policy.go:407-431 | with jitter it is moved by the draw, then capped, and a negative one gives way to the base delay |
| Backoff.JitterStays | internal/diagnostics/retry_policy.go:407-431 | for a jitter factor of at most one every draw stays within that share of the uncapped delay, and a draw of one half leaves it |
| Backoff.SteadySteps | internal/diagnostics/retry_policy.go:400-426 | the first delay is the base delay; the next adds the base delay (linear) or multiplies by the factor (the others), up to the cap |
| Backoff.CapReachedExactly | internal/diagnostics/retry_policy.go:400-426 | the cap is reached exactly from the first attempt whose uncapped delay reaches it, and kept from then on |
| Backoff.ExponentialMonotone | internal/diagnostics/retry_policy.go:403-405 | exponential delays never decrease for a multiplier of at least one |
| Backoff.GrownIs | internal/docker/retry_policy.go:135-142 | the capped backoff is the initial one times one factor per attempt, or the cap |
| Backoff.DockerDelayBounded | internal/docker/retry_policy.go:135-149 | between 0.9 and 1.1 times the capped backoff |
| Backoff.DockerCapExceededExactly | internal/docker/retry_policy.go:139-146 | once the cap is reached, a draw exceeds it if and only if it is above one half |
| Backoff.DockerWithinCapExactly | internal/docker/retry_policy.go:135-149 | all draws at an attempt stay within MaxBackoff if and only if 1.1 times the uncapped backoff does, or MaxBackoff is zero |
| Retry.RetryPolicy.Execute | internal/diagnostics/retry_policy.go:166-257 | between 1 and 1+MaxRetries calls, none after a success, a non-retryable error, a spent budget or a cancelled wait; success if and only if the last call succeeded; the result explains the stop; TotalRetries = calls minus executions; total backoff is the sum of the delays, at most MaxRetries*MaxDelay |
| Retry.WholeEnds | internal/diagnostics/retry_policy.go:166-257 | the execution as a value has those bounds and that explanation, for every operation, budget and cancellation |
| Retry.RetryPolicy.RetryLoop | internal/diagnostics/retry_policy.go:185-253 | the loop computes the described ending, with its books and the sum of its delays |
| Retry.RetryPolicy.CalculateBackoffDelay | internal/diagnostics/retry_policy.go:396-433 | the planned delay of the attempt, within the cap |
| Retry.RetryPolicy.Charge | internal/diagnostics/retry_policy.go:212-224 | one backoff and one retry more, the largest backoff kept, within the cap |
| Retry.RetryPolicy.ExecuteWithCustomRetries | internal/diagnostics/retry_policy.go:261-270 | everything Execute promises, for the override, which is undone |
| Retry.DockerExecute | internal/docker/retry_policy.go:79-114 | the same call bounds and success condition, no call after a cancelled wait; a negative MaxRetries calls nothing; total backoff is the sum of the delays, at most 1.1*MaxRetries*MaxBackoff |
| Degradation.HealthInRange | internal/diagnostics/graceful_degradation.go:662-703 | the score lies in [0,1] and is the same for any two orders that visit the map |
| Degradation.NormalExactly | internal/diagnostics/graceful_degradation.go:647-652 | the level is NORMAL if and only if every indicator is below its threshold |
| Degradation.ReducedExactly | internal/diagnostics/graceful_degradation.go:647-660 | REDUCED if and only if some indicator has reached its threshold, no essential one has, and the score is at least 0.6; MINIMAL if and only if any other score of at least 0.3 |
| Degradation.ScoreIsLinear | internal/diagnostics/graceful_degradation.go:670-686 | an indicator scores one exactly up to its threshold, nil exactly from three times it on, and between them equal steps of the value cost equal amounts |
| Degradation.UpdatedIs | internal/diagnostics/graceful_degradation.go:446-477 | flag and trend exactly as the new value relates to the threshold and to nine and eleven tenths of the old value |
| Degradation.LevelOrder | internal/diagnostics/graceful_degradation.go:647-660 | a better score never gives a worse level; NORMAL and REDUCED need both essential indicators healthy; EMERGENCY is exactly a score below 0.3 |
| Degradation.WorseWithoutCrossing | internal/diagnostics/graceful_degradation.go:670-696 | a worse value that does not cross its threshold never raises the score |
| Degradation.WorseningRaisesExactly | internal/diagnostics/graceful_degradation.go:670-696 | a worse value raises the score if and only if it crosses its threshold from below and its new score s has 2s(W+1) > S+W+2, for S and W the scores and weights of the others |
| Degradation.ReachingRaisesExactly | internal/diagnostics/graceful_degradation.go:670-696 | a value that just reaches its threshold raises the score if and only if another indicator is above its own |
| Degradation.WorseningLifts | internal/diagnostics/graceful_degradation.go:573-696 | on the five registered indicators, with three at three times their thresholds, a fourth reaching its threshold lifts EMERGENCY to MINIMAL |
| Degradation.ChangeKeepsSpacing | internal/diagnostics/graceful_degradation.go:636-644 | any two level changes, and creation, are at least StabilityPeriod apart |
| Degradation.GracefulDegradation.constructor | internal/diagnostics/graceful_degradation.go:237-315 | starts at the given level with the five registered indicators at their thresholds, none critical, and the default stability period |
| Degradation.GracefulDegradation.UpdateHealthIndicator | internal/diagnostics/graceful_degradation.go:446-477 | in every run Critical holds exactly when Value >= Threshold; unknown names are ignored |
| Degradation.GracefulDegradation.CalculateHealthScore | internal/diagnostics/graceful_degradation.go:662-703 | the weighted mean, in [0,1] |
| Degradation.GracefulDegradation.PerformHealthCheck | internal/diagnostics/graceful_degradation.go:623-645 | changes the level exactly when another is called for and StabilityPeriod has passed, keeping all changes spaced |
| Degradation.GracefulDegradation.ChangeDegradationLevel | internal/diagnostics/graceful_degradation.go:727-748 | the new level, the appended change, and one more AutoRecovery exactly for a worse level |
| Degradation.GracefulDegradation.RecordTransition | internal/diagnostics/graceful_degradation.go:750-763 | the history keeps the last hundred changes, and each is counted under its pair of levels |

## Left out

- The diagnostic checks themselves (DNS, ping, iptables, sysctl, port dialling, Docker API calls): I/O and processes.
- The token bucket of `golang.org/x/time/rate`: its outcome is any.
- `ResourceCleanupManager`: its removal operations are placeholders.
- `SetManualLevel` and `ClearManualOverride`: only automatic level changes are modelled.
- `UpdateConfig` of the breaker and of the retry policy during a run: the configuration is fixed.
- Pool metrics, memory monitoring, worker-level panics outside `executeJob`, `IsHealthy` and the metrics snapshots.
- `Stop` concurrent with `Submit`, which would close a channel that is being sent to.
- The message patterns that classify errors: whether an error is retryable, and which pattern it matches, are
  parameters; so are the outcomes of the recovery actions. Execution times in the recovery metrics.
- Floating-point rounding and integer overflow.
- The duration and time-range getters of `TimingStorage`, and its export.
- The unlocked increments of the cache's hit and miss counters, which the source makes under a read lock.
