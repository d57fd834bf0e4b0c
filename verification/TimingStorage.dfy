/** TimingStorage: a bounded ring of measurements with three secondary indexes. */
module TimingStorage {
  import opened Durations
  import opened Folds
  import opened Indexes
  import opened Options
  import opened Windows

  const MAX_PROFILE_DATA_POINTS: nat := 10000

  /** A stored measurement. The indexed keys do not change while it is stored, so they are constants;
      identity is the reference, as for the pointers of the source. */
  class TimingData {
    const category: string
    const checkName: string
    const workerID: int
    const startTime: int
    const endTime: int
    const duration: Duration
    const success: bool
    constructor (category: string, checkName: string, workerID: int, startTime: int, endTime: int,
                 duration: Duration, success: bool)
      ensures this.category == category && this.checkName == checkName && this.workerID == workerID
      ensures this.startTime == startTime && this.endTime == endTime && this.duration == duration
      ensures this.success == success
    {
      this.category, this.checkName, this.workerID := category, checkName, workerID;
      this.startTime, this.endTime, this.duration, this.success := startTime, endTime, duration, success;
    }
  }

  function CategoryKey(t: TimingData): Option<string> { if t.category == "" then None else Some(t.category) }
  function CheckKey(t: TimingData): Option<string> { if t.checkName == "" then None else Some(t.checkName) }
  function WorkerKey(t: TimingData): Option<int> { if t.workerID < 0 then None else Some(t.workerID) }

  /** How GetStatistics keys its category counts. */
  function AnyCategory(t: TimingData): Option<string> { Some(t.category) }

  /** The ring read from its oldest entry. */
  ghost function Chronological<T>(ring: seq<T>, current: nat, wrapped: bool): seq<T>
    requires wrapped ==> current < |ring|
  {
    if wrapped then ring[current + 1..] + ring[..current + 1] else ring
  }

  /** The three phases of the ring: filling, full and not yet wrapped, wrapped. */
  ghost predicate Ring<T>(ring: seq<T>, size: nat, current: nat, wrapped: bool) {
    && 0 < size && |ring| <= size
    && (if wrapped then |ring| == size && current < size
        else current == if ring == [] then 0 else |ring| - 1)
  }

  /** The slot after this one, around the ring. */
  function After(current: nat, size: nat): nat { if current + 1 == size then 0 else current + 1 }

  /** Overwriting the slot after the current one drops the oldest entry and appends the new one. */
  lemma Overwrite<T>(ring: seq<T>, size: nat, current: nat, wrapped: bool, x: T)
    requires Ring(ring, size, current, wrapped) && |ring| == size
    ensures var at := After(current, size);
            && Ring(ring[at := x], size, at, true)
            && Chronological(ring, current, wrapped) == [ring[at]] + Chronological(ring, current, wrapped)[1..]
            && Chronological(ring[at := x], at, true) == Chronological(ring, current, wrapped)[1..] + [x]
  {
  }

  /** One more entry while there is room. */
  lemma Push<T>(ring: seq<T>, size: nat, current: nat, wrapped: bool, log: seq<T>, x: T)
    requires Ring(ring, size, current, wrapped) && Chronological(ring, current, wrapped) == Last(log, size)
    requires |ring| < size
    ensures Ring(ring + [x], size, |ring|, wrapped)
    ensures Chronological(ring + [x], |ring|, wrapped) == Last(log + [x], size) == Last(log, size) + [x]
  {
    LastSlides(log, size, x);
  }

  /** One more entry when the ring is full. */
  lemma Rotate<T>(ring: seq<T>, size: nat, current: nat, wrapped: bool, log: seq<T>, x: T)
    requires Ring(ring, size, current, wrapped) && Chronological(ring, current, wrapped) == Last(log, size)
    requires |ring| == size
    ensures var at := After(current, size);
            && Ring(ring[at := x], size, at, true)
            && Last(log, size) == [ring[at]] + Last(log, size)[1..]
            && Chronological(ring[at := x], at, true) == Last(log + [x], size) == Last(log, size)[1..] + [x]
  {
    Overwrite(ring, size, current, wrapped, x);
    LastSlides(log, size, x);
  }

  datatype Indices = Indices(
    byCategory: map<string, seq<TimingData>>,
    byCheck: map<string, seq<TimingData>>,
    byWorker: map<int, seq<TimingData>>)

  ghost predicate Indexed(x: Indices, ms: seq<TimingData>) {
    Agrees(x.byCategory, CategoryKey, ms) && Agrees(x.byCheck, CheckKey, ms) && Agrees(x.byWorker, WorkerKey, ms)
  }

  ghost function Without(x: Indices, t: TimingData): Indices {
    Indices(Remove(x.byCategory, CategoryKey, t), Remove(x.byCheck, CheckKey, t), Remove(x.byWorker, WorkerKey, t))
  }

  ghost function With(x: Indices, t: TimingData): Indices {
    Indices(Add(x.byCategory, CategoryKey, t), Add(x.byCheck, CheckKey, t), Add(x.byWorker, WorkerKey, t))
  }

  lemma Evict(x: Indices, oldest: TimingData, rest: seq<TimingData>)
    requires Indexed(x, [oldest] + rest)
    ensures Indexed(Without(x, oldest), rest)
  {
    RemoveAgrees(x.byCategory, CategoryKey, oldest, rest);
    RemoveAgrees(x.byCheck, CheckKey, oldest, rest);
    RemoveAgrees(x.byWorker, WorkerKey, oldest, rest);
  }

  lemma Admit(x: Indices, ms: seq<TimingData>, t: TimingData)
    requires Indexed(x, ms)
    ensures Indexed(With(x, t), ms + [t])
  {
    AddAgrees(x.byCategory, CategoryKey, ms, t);
    AddAgrees(x.byCheck, CheckKey, ms, t);
    AddAgrees(x.byWorker, WorkerKey, ms, t);
  }

  /** The ring holds the last `size` of the log in order, and the indexes agree with them. */
  ghost predicate Consistent(
    ring: seq<TimingData>, size: nat, current: nat, wrapped: bool, x: Indices, log: seq<TimingData>)
  {
    && Ring(ring, size, current, wrapped)
    && Chronological(ring, current, wrapped) == Last(log, size)
    && Indexed(x, Last(log, size))
  }

  lemma StoreWithRoom(
      ring: seq<TimingData>, size: nat, current: nat, wrapped: bool, x: Indices, log: seq<TimingData>, t: TimingData)
    requires Consistent(ring, size, current, wrapped, x, log) && |ring| < size
    ensures Consistent(ring + [t], size, |ring|, wrapped, With(x, t), log + [t])
  {
    Push(ring, size, current, wrapped, log, t);
    Admit(x, Last(log, size), t);
  }

  lemma StoreWhenFull(
      ring: seq<TimingData>, size: nat, current: nat, wrapped: bool, x: Indices, log: seq<TimingData>, t: TimingData)
    requires Consistent(ring, size, current, wrapped, x, log) && |ring| == size
    ensures var at := After(current, size);
            Consistent(ring[at := t], size, at, true, With(Without(x, ring[at]), t), log + [t])
  {
    var at := After(current, size);
    Rotate(ring, size, current, wrapped, log, t);
    Evict(x, ring[at], Last(log, size)[1..]);
    Admit(Without(x, ring[at]), Last(log, size)[1..], t);
  }

  // Selections.

  ghost function OfCategory(category: string): TimingData -> bool {
    (t: TimingData) => t.category == category && category != ""
  }

  ghost function OfCheck(checkName: string): TimingData -> bool {
    (t: TimingData) => t.checkName == checkName && checkName != ""
  }

  ghost function OfWorker(workerID: int): TimingData -> bool {
    (t: TimingData) => t.workerID == workerID && workerID >= 0
  }

  /** The measurements that satisfy p, in order. */
  ghost function Where(ms: seq<TimingData>, p: TimingData -> bool): seq<TimingData> {
    if ms == [] then []
    else Where(ms[..|ms| - 1], p) + if p(ms[|ms| - 1]) then [ms[|ms| - 1]] else []
  }

  // Statistics.

  datatype Statistics = Statistics(
    count: nat, successCount: nat, successRate: real, minDuration: int, maxDuration: int, averageDuration: int,
    timeSpan: int, categories: map<string, nat>, checks: map<string, nat>, workers: map<int, nat>)

  const NO_STATISTICS: Statistics := Statistics(0, 0, 0.0, 0, 0, 0, 0, map[], map[], map[])

  function DurationOf(t: TimingData): int { t.duration }

  function Success(t: TimingData): int { if t.success then 1 else 0 }

  ghost function Succeeded(): TimingData -> bool { (t: TimingData) => t.success }

  lemma {:induction false} SuccessesAre(ms: seq<TimingData>)
    ensures Total(Success, ms) == |Where(ms, Succeeded())|
  {
    if ms != [] {
      var n := |ms| - 1;
      SuccessesAre(ms[..n]);
      TotalSnoc(Success, ms[..n], ms[n]);
      assert ms == ms[..n] + [ms[n]];
    }
  }

  /** The smallest duration, from the largest there can be down. */
  ghost predicate Shortest(ms: seq<TimingData>, min: int) {
    && (forall t :: t in ms ==> min <= t.duration)
    && (min == MAX_DURATION || exists t :: t in ms && t.duration == min)
  }

  /** The largest duration, from zero up. */
  ghost predicate Longest(ms: seq<TimingData>, max: int) {
    && (forall t :: t in ms ==> t.duration <= max)
    && (max == 0 || (max > 0 && exists t :: t in ms && t.duration == max))
  }

  ghost predicate Totals(ms: seq<TimingData>, total: int, min: int, max: int, successes: nat) {
    && total == Total(DurationOf, ms) && successes == Total(Success, ms)
    && Shortest(ms, min) && Longest(ms, max)
  }

  lemma TotalsGrow(ms: seq<TimingData>, total: int, min: int, max: int, successes: nat, t: TimingData)
    requires Totals(ms, total, min, max, successes)
    ensures Totals(ms + [t], total + t.duration, if t.duration < min then t.duration else min,
                   if t.duration > max then t.duration else max, successes + if t.success then 1 else 0)
  {
    TotalSnoc(DurationOf, ms, t);
    TotalSnoc(Success, ms, t);
    ShortestGrows(ms, min, t);
    LongestGrows(ms, max, t);
  }

  lemma ShortestGrows(ms: seq<TimingData>, min: int, t: TimingData)
    requires Shortest(ms, min)
    ensures Shortest(ms + [t], if t.duration < min then t.duration else min)
  {
    assert t in ms + [t] && forall u :: u in ms ==> u in ms + [t];
  }

  lemma LongestGrows(ms: seq<TimingData>, max: int, t: TimingData)
    requires Longest(ms, max)
    ensures Longest(ms + [t], if t.duration > max then t.duration else max)
  {
    assert t in ms + [t] && forall u :: u in ms ==> u in ms + [t];
  }

  lemma CountsGrow(
      ms: seq<TimingData>,
      categories: map<string, nat>, checks: map<string, nat>, workers: map<int, nat>,
      t: TimingData)
    requires Counts(categories, AnyCategory, ms) && Counts(checks, CheckKey, ms) && Counts(workers, WorkerKey, ms)
    ensures Counts(Bump(categories, AnyCategory(t)), AnyCategory, ms + [t])
    ensures Counts(Bump(checks, CheckKey(t)), CheckKey, ms + [t])
    ensures Counts(Bump(workers, WorkerKey(t)), WorkerKey, ms + [t])
  {
    BumpCounts(categories, AnyCategory, ms, t);
    BumpCounts(checks, CheckKey, ms, t);
    BumpCounts(workers, WorkerKey, ms, t);
  }

  /** What is added up slot by slot is so in the order of storing. */
  lemma TotalsRotate(
      ring: seq<TimingData>, size: nat, current: nat, wrapped: bool, total: int, min: int, max: int, successes: nat)
    requires Ring(ring, size, current, wrapped) && Totals(ring, total, min, max, successes)
    ensures Totals(Chronological(ring, current, wrapped), total, min, max, successes)
  {
    var cut := if wrapped then current + 1 else 0;
    var newer, older := ring[..cut], ring[cut..];
    assert ring == newer + older && Chronological(ring, current, wrapped) == older + newer;
    TotalAppend(DurationOf, newer, older);
    TotalAppend(DurationOf, older, newer);
    TotalAppend(Success, newer, older);
    TotalAppend(Success, older, newer);
    assert forall t :: t in ring <==> t in older + newer;
  }

  /** The minimum is exact; the maximum is, exactly if some duration is not negative; and the average lies between
      them if none is. */
  ghost predicate Summarises(stats: Statistics, ms: seq<TimingData>) {
    var n := |ms|;
    && stats.count == n > 0
    && stats.successCount == |Where(ms, Succeeded())| && stats.successRate == stats.successCount as real / n as real
    && 0.0 <= stats.successRate <= 1.0
    && stats.averageDuration == TruncDiv(Total(DurationOf, ms), n)
    && IsShortest(ms, stats.minDuration)
    && (IsLongest(ms, stats.maxDuration) <==> exists t :: t in ms && t.duration >= 0)
    && (stats.minDuration >= 0 ==> stats.minDuration <= stats.averageDuration <= stats.maxDuration)
  }

  lemma TotalsSummarise(ms: seq<TimingData>, total: int, min: int, max: int, successes: nat, stats: Statistics)
    requires ms != [] && Totals(ms, total, min, max, successes)
    requires stats.count == |ms| && stats.successCount == successes && stats.averageDuration == TruncDiv(total, |ms|)
    requires stats.successRate == successes as real / |ms| as real
    requires stats.minDuration == min && stats.maxDuration == max
    ensures Summarises(stats, ms)
  {
    SuccessesAre(ms);
    TotalWithin(Success, ms, 0, 1);
    Fraction(successes, |ms|);
    if min >= 0 {
      AverageBetween(ms, total, min, max);
    }
    assert ms[0] in ms;
  }

  lemma Fraction(part: nat, whole: nat)
    requires part <= whole && whole > 0
    ensures 0.0 <= part as real / whole as real <= 1.0
  {
  }

  lemma AverageBetween(ms: seq<TimingData>, total: int, min: int, max: int)
    requires ms != [] && total == Total(DurationOf, ms) && min >= 0
    requires forall t :: t in ms ==> min <= t.duration <= max
    ensures min <= TruncDiv(total, |ms|) <= max
  {
    TotalWithin(DurationOf, ms, min, max);
    DivBounds(total, |ms|, min, max);
  }

  ghost predicate IsShortest(ms: seq<TimingData>, d: int) {
    (exists t :: t in ms && t.duration == d) && forall t :: t in ms ==> d <= t.duration
  }

  ghost predicate IsLongest(ms: seq<TimingData>, d: int) {
    (exists t :: t in ms && t.duration == d) && forall t :: t in ms ==> t.duration <= d
  }

  /** GetStatistics reads the span off the first and the last slot. */
  function Span(ring: seq<TimingData>): int
    requires ring != []
  {
    ring[|ring| - 1].endTime - ring[0].startTime
  }

  /** Each measurement starts where or after the one before it ended. */
  ghost predicate Consecutive(ms: seq<TimingData>) {
    && (forall i :: 0 <= i < |ms| ==> ms[i].startTime <= ms[i].endTime)
    && (forall i, j :: 0 <= i < j < |ms| ==> ms[i].endTime <= ms[j].startTime)
  }

  /** For consecutive measurements that took any time at all, TimeSpan is the time from the start of the oldest to
      the end of the newest exactly when the oldest is in the first slot. Otherwise it is not positive: minus the
      gap between the two consecutive measurements that sit in the last slot and the first. */
  lemma SpanExactly(ring: seq<TimingData>, size: nat, current: nat, wrapped: bool)
    requires Ring(ring, size, current, wrapped) && ring != []
    ensures var all := Chronological(ring, current, wrapped);
            var n := |all|;
            && (wrapped && current + 1 < size ==>
                  Span(ring) == all[n - current - 2].endTime - all[n - current - 1].startTime)
            && (Consecutive(all) && all[0].startTime < all[n - 1].endTime ==>
                  (Span(ring) == all[n - 1].endTime - all[0].startTime <==> !wrapped || current + 1 == size))
            && (Consecutive(all) && wrapped && current + 1 < size ==> Span(ring) <= 0)
  {
    var all := Chronological(ring, current, wrapped);
    if !wrapped || current + 1 == size {
      assert all == ring;
    }
  }

  class TimingStorage {
    const maxSize: nat
    var measurements: seq<TimingData>
    var currentIndex: nat
    var wrapped: bool
    var byCategory: map<string, seq<TimingData>>
    var byCheck: map<string, seq<TimingData>>
    var byWorker: map<int, seq<TimingData>>
    /** Everything stored since the last Clear. */
    ghost var log: seq<TimingData>

    ghost function Contents(): seq<TimingData>
      reads this
    {
      Last(log, maxSize)
    }

    ghost function Tables(): Indices
      reads this
    {
      Indices(byCategory, byCheck, byWorker)
    }

    ghost predicate Valid()
      reads this
    {
      Consistent(measurements, maxSize, currentIndex, wrapped, Tables(), log)
    }

    constructor (size: int)
      ensures Valid() && log == [] && maxSize == if size > 0 then size else 10000
    {
      maxSize := if size <= 0 then MAX_PROFILE_DATA_POINTS else size;
      measurements, currentIndex, wrapped := [], 0, false;
      byCategory, byCheck, byWorker := map[], map[], map[];
      log := [];
    }

    /** Storing appends to the log, so the storage holds the last maxSize of it and the indexes agree. */
    method Store(timing: TimingData?)
      requires Valid()
      modifies this
      ensures Valid()
      ensures log == if timing == null then old(log) else old(log) + [timing]
    {
      if timing == null { return; }
      if |measurements| < maxSize {
        Append(timing);
      } else {
        ReplaceOldest(timing);
      }
    }

    method Append(t: TimingData)
      requires Valid() && |measurements| < maxSize
      modifies this
      ensures Valid() && log == old(log) + [t]
    {
      StoreWithRoom(measurements, maxSize, currentIndex, wrapped, Tables(), log, t);
      measurements := measurements + [t];
      currentIndex := |measurements| - 1;
      AddToIndexes(t);
      log := log + [t];
    }

    method ReplaceOldest(t: TimingData)
      requires Valid() && |measurements| == maxSize
      modifies this
      ensures Valid() && log == old(log) + [t]
    {
      StoreWhenFull(measurements, maxSize, currentIndex, wrapped, Tables(), log, t);
      Wrap(currentIndex + 1, maxSize);
      var at := (currentIndex + 1) % maxSize;
      assert at == After(currentIndex, maxSize);
      Replace(at, t);
      log := log + [t];
    }

    /** The entry at this slot leaves the indexes and the new one takes its place. */
    method Replace(at: nat, t: TimingData)
      requires at < |measurements|
      modifies `measurements, `currentIndex, `wrapped, `byCategory, `byCheck, `byWorker
      ensures currentIndex == at && wrapped && measurements == old(measurements)[at := t]
      ensures Tables() == With(Without(old(Tables()), old(measurements)[at]), t)
    {
      currentIndex := at;
      RemoveFromIndexes(measurements[at]);
      measurements := measurements[at := t];
      wrapped := true;
      AddToIndexes(t);
    }

    method AddToIndexes(t: TimingData)
      modifies `byCategory, `byCheck, `byWorker
      ensures Tables() == With(old(Tables()), t)
    {
      if t.category != "" { byCategory := byCategory[t.category := Slot(byCategory, t.category) + [t]]; }
      if t.checkName != "" { byCheck := byCheck[t.checkName := Slot(byCheck, t.checkName) + [t]]; }
      if t.workerID >= 0 { byWorker := byWorker[t.workerID := Slot(byWorker, t.workerID) + [t]]; }
    }

    method RemoveFromIndexes(t: TimingData)
      modifies `byCategory, `byCheck, `byWorker
      ensures Tables() == Without(old(Tables()), t)
    {
      if t.category != "" { byCategory := RemoveTiming(byCategory, t.category, t); }
      if t.checkName != "" { byCheck := RemoveTiming(byCheck, t.checkName, t); }
      if t.workerID >= 0 { byWorker := RemoveTiming(byWorker, t.workerID, t); }
    }

    /** Write the shortened slice back under its key. */
    static method RemoveTiming<K(==)>(index: map<K, seq<TimingData>>, k: K, t: TimingData)
      returns (next: map<K, seq<TimingData>>)
      ensures next == RemoveAt(index, k, t)
    {
      var found, slice := RemoveTimingFromSlice(Slot(index, k), t);
      next := if found then index[k := slice] else index;
    }

    /** Exactly one occurrence goes, at the price of the slice's order. */
    static method RemoveTimingFromSlice(slice: seq<TimingData>, t: TimingData) returns (found: bool, r: seq<TimingData>)
      ensures found <==> t in slice
      ensures r == SwapRemove(slice, t)
    {
      for i := 0 to |slice|
        invariant t !in slice[..i]
      {
        if slice[i] == t {
          FirstAtIs(slice, t, i);
          r := slice[i := slice[|slice| - 1]];
          r := r[..|slice| - 1];
          return true, r;
        }
      }
      assert slice[..|slice|] == slice;
      return false, slice;
    }

    /** The measurements in the order they were stored, the oldest first. */
    method GetAll() returns (all: seq<TimingData>)
      requires Valid()
      ensures all == Last(log, maxSize)
    {
      if !wrapped { return measurements; }
      Wrap(currentIndex + 1, maxSize);
      var start := (currentIndex + 1) % maxSize;
      all := [];
      for i := 0 to maxSize
        invariant all == Contents()[..i]
      {
        Wrap(start + i, maxSize);
        var idx := (start + i) % maxSize;
        RotationAt(measurements, maxSize, currentIndex, i, idx);
        all := all + [measurements[idx]];
      }
    }

    method GetLatest() returns (t: TimingData?)
      requires Valid()
      ensures log == [] ==> t == null
      ensures log != [] ==> t == log[|log| - 1]
    {
      if measurements == [] { return null; }
      assert Contents()[|Contents()| - 1] == log[|log| - 1];
      t := measurements[currentIndex];
    }

    /** The measurements held of a category, in no fixed order; those without one are not found. */
    method GetByCategory(category: string) returns (found: seq<TimingData>)
      requires Valid()
      ensures multiset(found) == multiset(Where(Contents(), OfCategory(category)))
    {
      SlotIsWhere(byCategory, CategoryKey, Contents(), category, OfCategory(category));
      if category !in byCategory { return []; }
      found := byCategory[category];
    }

    method GetByCheck(checkName: string) returns (found: seq<TimingData>)
      requires Valid()
      ensures multiset(found) == multiset(Where(Contents(), OfCheck(checkName)))
    {
      SlotIsWhere(byCheck, CheckKey, Contents(), checkName, OfCheck(checkName));
      if checkName !in byCheck { return []; }
      found := byCheck[checkName];
    }

    method GetByWorker(workerID: int) returns (found: seq<TimingData>)
      requires Valid()
      ensures multiset(found) == multiset(Where(Contents(), OfWorker(workerID)))
    {
      SlotIsWhere(byWorker, WorkerKey, Contents(), workerID, OfWorker(workerID));
      if workerID !in byWorker { return []; }
      found := byWorker[workerID];
    }

    /** Each statistic is that of the measurements held: the counts are the lengths of the index slots, for every
        indexed key (categories are counted even where they are not indexed). The time span is from the first slot
        to the last. */
    method GetStatistics() returns (stats: Statistics)
      requires Valid()
      ensures log == [] ==> stats == NO_STATISTICS
      ensures log != [] ==> Summarises(stats, Contents()) && stats.timeSpan == Span(measurements)
      ensures Counts(stats.categories, AnyCategory, measurements)
      ensures forall k :: k != "" ==> Tally(stats.categories, k) == |Slot(byCategory, k)|
      ensures forall k :: Tally(stats.checks, k) == |Slot(byCheck, k)|
      ensures forall k :: Tally(stats.workers, k) == |Slot(byWorker, k)|
    {
      if measurements == [] {
        SlotsCounted(map[], map[], map[]);
        return NO_STATISTICS;
      }
      var total, min, max, successes, categories, checks, workers := Accumulate();
      SlotsCounted(categories, checks, workers);
      var n := |measurements|;
      stats := Statistics(n, successes, successes as real / n as real, min, max, TruncDiv(total, n),
                          measurements[n - 1].endTime - measurements[0].startTime, categories, checks, workers);
      TotalsRotate(measurements, maxSize, currentIndex, wrapped, total, min, max, successes);
      TotalsSummarise(Contents(), total, min, max, successes, stats);
    }

    /** The loop of GetStatistics. */
    method Accumulate()
      returns (total: int, min: int, max: int, successes: nat,
               categories: map<string, nat>, checks: map<string, nat>, workers: map<int, nat>)
      ensures Totals(measurements, total, min, max, successes)
      ensures Counts(categories, AnyCategory, measurements)
      ensures Counts(checks, CheckKey, measurements) && Counts(workers, WorkerKey, measurements)
    {
      total, min, max, successes := 0, MAX_DURATION, 0, 0;
      categories, checks, workers := map[], map[], map[];
      for i := 0 to |measurements|
        invariant Totals(measurements[..i], total, min, max, successes)
        invariant Counts(categories, AnyCategory, measurements[..i])
        invariant Counts(checks, CheckKey, measurements[..i]) && Counts(workers, WorkerKey, measurements[..i])
      {
        var t := measurements[i];
        assert measurements[..i + 1] == measurements[..i] + [t];
        TotalsGrow(measurements[..i], total, min, max, successes, t);
        CountsGrow(measurements[..i], categories, checks, workers, t);
        total := total + t.duration;
        if t.duration < min { min := t.duration; }
        if t.duration > max { max := t.duration; }
        categories := Bump(categories, Some(t.category));
        if t.checkName != "" { checks := Bump(checks, Some(t.checkName)); }
        if t.workerID >= 0 { workers := Bump(workers, Some(t.workerID)); }
        if t.success { successes := successes + 1; }
      }
      assert measurements[..|measurements|] == measurements;
    }

    lemma SlotsCounted(categories: map<string, nat>, checks: map<string, nat>, workers: map<int, nat>)
      requires Valid()
      requires Counts(categories, AnyCategory, measurements)
      requires Counts(checks, CheckKey, measurements) && Counts(workers, WorkerKey, measurements)
      ensures forall k :: k != "" ==> Tally(categories, k) == |Slot(byCategory, k)|
      ensures forall k :: Tally(checks, k) == |Slot(byCheck, k)|
      ensures forall k :: Tally(workers, k) == |Slot(byWorker, k)|
    {
      var cut := if wrapped then currentIndex + 1 else 0;
      var newer, older := measurements[..cut], measurements[cut..];
      assert measurements == newer + older && Contents() == older + newer;
      forall k ensures Tally(checks, k) == |Slot(byCheck, k)| {
        CountsMatchSlots(checks, byCheck, CheckKey, newer, older, k);
      }
      forall k ensures Tally(workers, k) == |Slot(byWorker, k)| {
        CountsMatchSlots(workers, byWorker, WorkerKey, newer, older, k);
      }
      forall k | k != "" ensures Tally(categories, k) == |Slot(byCategory, k)| {
        KeyedSame(CategoryKey, AnyCategory, measurements, k);
        KeyedAppend(CategoryKey, newer, older, k);
        KeyedAppend(CategoryKey, older, newer, k);
        AgreesLength(byCategory, CategoryKey, Contents(), k);
      }
    }

    method Clear()
      requires Valid()
      modifies this
      ensures Valid() && log == []
    {
      measurements, currentIndex, wrapped := [], 0, false;
      byCategory, byCheck, byWorker := map[], map[], map[];
      log := [];
    }
  }

  lemma {:induction false} KeyedIsWhere<K>(
      key: TimingData -> Option<K>, ms: seq<TimingData>, k: K, p: TimingData -> bool)
    requires forall t :: p(t) <==> key(t) == Some(k)
    ensures Keyed(key, ms, k) == Where(ms, p)
  {
    if ms != [] {
      KeyedIsWhere(key, ms[..|ms| - 1], k, p);
    }
  }

  /** A slot holds the measurements with its key. */
  lemma SlotIsWhere<K(!new)>(
      index: map<K, seq<TimingData>>, key: TimingData -> Option<K>, ms: seq<TimingData>, k: K, p: TimingData -> bool)
    requires Agrees(index, key, ms) && forall t :: p(t) <==> key(t) == Some(k)
    ensures multiset(Slot(index, k)) == multiset(Where(ms, p))
  {
    assert SlotAgrees(index, key, ms, k);
    KeyedIsWhere(key, ms, k, p);
  }

  /** Where the i-th oldest entry of a wrapped ring sits. */
  lemma RotationAt<T>(ring: seq<T>, size: nat, current: nat, i: nat, idx: nat)
    requires Ring(ring, size, current, true) && i < size
    requires var n := After(current, size) + i; idx == if n < size then n else n - size
    ensures idx < size && Chronological(ring, current, true)[i] == ring[idx]
  {
  }

  lemma Wrap(n: nat, size: nat)
    requires 0 < size && n < 2 * size
    ensures n % size == if n < size then n else n - size
  {
  }
}
