/** DurationTracker: running statistics of one Docker operation, with percentiles over a sliding window. */
module DurationTracker {
  import opened Durations
  import opened Folds
  import opened Windows

  const WINDOW: nat := 1000

  ghost function Elapsed(h: seq<int>): int {
    if h == [] then 0 else Elapsed(h[..|h| - 1]) + h[|h| - 1]
  }

  // Order statistics, without reference to sorting.

  ghost function Below(s: seq<int>, v: int): nat {
    if s == [] then 0 else (if s[0] < v then 1 else 0) + Below(s[1..], v)
  }

  ghost function AtMost(s: seq<int>, v: int): nat {
    if s == [] then 0 else (if s[0] <= v then 1 else 0) + AtMost(s[1..], v)
  }

  /** v is the k-th smallest of s, counting from zero. */
  ghost predicate IsKth(s: seq<int>, k: nat, v: int) { Below(s, v) <= k < AtMost(s, v) }

  ghost predicate Sorted(s: seq<int>) { forall i, j :: 0 <= i < j < |s| ==> s[i] <= s[j] }

  lemma {:induction false} CountsSplit(s: seq<int>, t: seq<int>, v: int)
    ensures Below(s + t, v) == Below(s, v) + Below(t, v)
    ensures AtMost(s + t, v) == AtMost(s, v) + AtMost(t, v)
  {
    if s == [] {
      assert s + t == t;
    } else {
      assert (s + t)[1..] == s[1..] + t;
      CountsSplit(s[1..], t, v);
    }
  }

  lemma {:induction false} CountsBounded(s: seq<int>, v: int)
    ensures Below(s, v) <= |s| && AtMost(s, v) <= |s|
    ensures (forall x :: x in s ==> x >= v) ==> Below(s, v) == 0
    ensures (forall x :: x in s ==> x <= v) ==> AtMost(s, v) == |s|
  {
    if s != [] {
      assert s[0] in s && forall x :: x in s[1..] ==> x in s;
      CountsBounded(s[1..], v);
    }
  }

  /** Counts do not depend on the order. */
  lemma {:induction false} CountsPermute(s: seq<int>, t: seq<int>, v: int)
    requires multiset(s) == multiset(t)
    ensures Below(s, v) == Below(t, v) && AtMost(s, v) == AtMost(t, v)
  {
    if s == [] {
      assert |multiset(t)| == 0;
    } else {
      var i := Counterpart(s, t);
      CountsPermute(s[1..], t[..i] + t[i + 1..], v);
      CountsWithout(t, i, v);
    }
  }

  lemma CountsWithout(s: seq<int>, i: nat, v: int)
    requires i < |s|
    ensures Below(s, v) == Below(s[..i] + s[i + 1..], v) + if s[i] < v then 1 else 0
    ensures AtMost(s, v) == AtMost(s[..i] + s[i + 1..], v) + if s[i] <= v then 1 else 0
  {
    assert s == s[..i] + s[i..] && s[i..][1..] == s[i + 1..];
    CountsSplit(s[..i], s[i..], v);
    CountsSplit(s[..i], s[i + 1..], v);
  }

  /** Position k of an ordered permutation is the k-th smallest. */
  lemma SortedKth(s: seq<int>, t: seq<int>, k: nat)
    requires multiset(s) == multiset(t) && Sorted(t) && k < |t|
    ensures IsKth(s, k, t[k])
  {
    CountsPermute(s, t, t[k]);
    SortedCounts(t, k);
  }

  lemma SortedCounts(t: seq<int>, k: nat)
    requires Sorted(t) && k < |t|
    ensures IsKth(t, k, t[k])
  {
    FewerBelow(t, k);
    MoreAtMost(t, k);
  }

  lemma FewerBelow(t: seq<int>, k: nat)
    requires Sorted(t) && k < |t|
    ensures Below(t, t[k]) <= k
  {
    assert t == t[..k] + t[k..];
    CountsSplit(t[..k], t[k..], t[k]);
    CountsBounded(t[..k], t[k]);
    CountsBounded(t[k..], t[k]);
  }

  lemma MoreAtMost(t: seq<int>, k: nat)
    requires Sorted(t) && k < |t|
    ensures k < AtMost(t, t[k])
  {
    assert t == t[..k + 1] + t[k + 1..];
    CountsSplit(t[..k + 1], t[k + 1..], t[k]);
    CountsBounded(t[..k + 1], t[k]);
  }

  lemma {:induction false} CountsOrdered(s: seq<int>, v: int, w: int)
    ensures w < v ==> AtMost(s, w) <= Below(s, v)
    ensures v !in s ==> AtMost(s, v) == Below(s, v)
  {
    if s != [] {
      assert forall x :: x in s[1..] ==> x in s;
      CountsOrdered(s[1..], v, w);
    }
  }

  /** Order statistics are unique, increase with the rank, and are elements. */
  lemma KthOrdered(s: seq<int>, k: nat, v: int, l: nat, w: int)
    requires IsKth(s, k, v) && IsKth(s, l, w) && k <= l
    ensures v <= w && (k == l ==> v == w) && v in s && w in s
  {
    CountsOrdered(s, v, w);
    CountsOrdered(s, w, v);
  }

  // The running extremes.

  /** Min after these records: zero stands for "none yet". */
  ghost function RunningMin(h: seq<int>): int {
    if h == [] then 0
    else
      var m, d := RunningMin(h[..|h| - 1]), h[|h| - 1];
      if m == 0 || d < m then d else m
  }

  ghost function RunningMax(h: seq<int>): int {
    if h == [] then 0
    else
      var m, d := RunningMax(h[..|h| - 1]), h[|h| - 1];
      if d > m then d else m
  }

  ghost predicate NonNegative(h: seq<int>) { forall i :: 0 <= i < |h| ==> h[i] >= 0 }

  ghost predicate IsMin(h: seq<int>, m: int) { m in h && forall x :: x in h ==> m <= x }

  ghost predicate IsMax(h: seq<int>, m: int) { m in h && forall x :: x in h ==> x <= m }

  lemma {:induction false} RunningMaxIsMax(h: seq<int>)
    requires h != [] && NonNegative(h)
    ensures IsMax(h, RunningMax(h))
  {
    var n := |h| - 1;
    assert h == h[..n] + [h[n]];
    if n == 0 {
      assert h[..n] == [];
    } else {
      RunningMaxIsMax(h[..n]);
    }
  }

  lemma {:induction false} RunningMinBasics(h: seq<int>)
    requires h != [] && NonNegative(h)
    ensures RunningMin(h) in h && (RunningMin(h) == 0 <==> h[|h| - 1] == 0)
    ensures 0 !in h ==> forall x :: x in h ==> RunningMin(h) <= x
  {
    var n := |h| - 1;
    assert h == h[..n] + [h[n]];
    if n == 0 {
      assert h[..n] == [];
    } else {
      RunningMinBasics(h[..n]);
    }
  }

  /** Min is the exact minimum of the whole history exactly when no zero duration was recorded, or the last
      one was zero: a zero is taken for "none yet" and the next record overwrites it. */
  lemma MinExactWhen(h: seq<int>)
    requires h != [] && NonNegative(h)
    ensures IsMin(h, RunningMin(h)) <==> 0 !in h || h[|h| - 1] == 0
  {
    RunningMinBasics(h);
  }

  lemma {:induction false} ElapsedBounds(h: seq<int>, lo: int, hi: int)
    requires forall x :: x in h ==> lo <= x <= hi
    ensures lo * |h| <= Elapsed(h) <= hi * |h|
  {
    if h != [] {
      var n := |h| - 1;
      assert forall x :: x in h[..n] ==> x in h;
      assert h[n] in h;
      ElapsedBounds(h[..n], lo, hi);
    }
  }

  lemma {:induction false} ElapsedNonNegative(h: seq<int>)
    requires NonNegative(h)
    ensures Elapsed(h) >= 0
  {
    if h != [] {
      ElapsedNonNegative(h[..|h| - 1]);
    }
  }

  // The fields as values.

  datatype Stats = Stats(count: nat, total: int, min: int, max: int, average: int)

  /** The count, the sum, the running extremes and the average of h. */
  ghost function StatsOf(h: seq<int>): Stats {
    Stats(|h|, Elapsed(h), RunningMin(h), RunningMax(h), if h == [] then 0 else TruncDiv(Elapsed(h), |h|))
  }

  lemma StatsGrow(h: seq<int>, d: int)
    ensures var s := StatsOf(h);
            StatsOf(h + [d]) == Stats(s.count + 1, s.total + d, if s.min == 0 || d < s.min then d else s.min,
                                      if d > s.max then d else s.max, TruncDiv(s.total + d, s.count + 1))
  {
    assert (h + [d])[..|h|] == h;
  }

  /** Reading the sorted samples at n * q / 100 stays within them, and further up for a higher percentile. */
  lemma Positions(n: nat)
    requires 0 < n
    ensures 0 <= n * 50 / 100 <= n * 95 / 100 <= n * 99 / 100 < n
  {
  }

  /** The median, the 95th and the 99th percentile. */
  ghost predicate Percentiles(samples: seq<int>, p50: int, p95: int, p99: int) {
    samples != [] ==>
      && IsKth(samples, |samples| * 50 / 100, p50)
      && IsKth(samples, |samples| * 95 / 100, p95)
      && IsKth(samples, |samples| * 99 / 100, p99)
  }

  /** v is a sample below which lie at most q percent of the samples, while more than q percent, rounded down, are at
      most v. */
  ghost predicate CutsAt(samples: seq<int>, q: nat, v: int) {
    && v in samples
    && 100 * Below(samples, v) <= q * |samples|
    && 100 * AtMost(samples, v) > q * |samples|
  }

  lemma KthCuts(samples: seq<int>, q: nat, v: int)
    requires IsKth(samples, |samples| * q / 100, v)
    ensures CutsAt(samples, q, v)
  {
    KthOrdered(samples, |samples| * q / 100, v, |samples| * q / 100, v);
  }

  lemma SamplesSlide(h: seq<int>, samples: seq<int>, d: int)
    requires samples == Last(h, WINDOW)
    ensures (if |samples| >= WINDOW then samples[1..] else samples) + [d] == Last(h + [d], WINDOW)
  {
    LastSlides(h, WINDOW, d);
  }

  class DurationTracker {
    var count: nat
    var total: int
    var min: int
    var max: int
    var average: int
    var p50: int
    var p95: int
    var p99: int
    var samples: seq<int>
    ghost var history: seq<int>

    ghost predicate Valid()
      reads this
    {
      && Stats(count, total, min, max, average) == StatsOf(history)
      && samples == Last(history, WINDOW) && Percentiles(samples, p50, p95, p99)
    }

    constructor ()
      ensures Valid() && history == []
    {
      count, total, min, max, average := 0, 0, 0, 0, 0;
      p50, p95, p99, samples, history := 0, 0, 0, [], [];
    }

    /** After any records the fields are the running statistics of the whole history, and each percentile is
        the (len * q / 100)-th smallest of the last thousand samples. */
    method Record(duration: int)
      requires Valid()
      modifies this
      ensures Valid() && history == old(history) + [duration]
      ensures count == |history| && total == Elapsed(history) && samples == Last(history, 1000)
      ensures IsKth(samples, |samples| * 50 / 100, p50)
      ensures IsKth(samples, |samples| * 95 / 100, p95)
      ensures IsKth(samples, |samples| * 99 / 100, p99)
    {
      Tally(duration);
      Sample(duration);
      history := history + [duration];
      UpdatePercentiles();
    }

    /** The first half of Record: the running statistics. */
    method Tally(duration: int)
      requires Stats(count, total, min, max, average) == StatsOf(history)
      modifies `count, `total, `min, `max, `average
      ensures Stats(count, total, min, max, average) == StatsOf(history + [duration])
    {
      StatsGrow(history, duration);
      count := count + 1;
      total := total + duration;
      if min == 0 || duration < min { min := duration; }
      if duration > max { max := duration; }
      average := TruncDiv(total, count);
    }

    /** The second half: the sliding window. */
    method Sample(duration: int)
      requires samples == Last(history, WINDOW)
      modifies `samples
      ensures samples == Last(history + [duration], WINDOW)
    {
      SamplesSlide(history, samples, duration);
      if |samples| >= WINDOW { samples := samples[1..]; }
      samples := samples + [duration];
    }

    method UpdatePercentiles()
      modifies `p50, `p95, `p99
      ensures samples != [] ==>
                && IsKth(samples, |samples| * 50 / 100, p50)
                && IsKth(samples, |samples| * 95 / 100, p95)
                && IsKth(samples, |samples| * 99 / 100, p99)
    {
      if samples == [] { return; }
      var sorted := new int[|samples|](i requires 0 <= i < |samples| reads this => samples[i]);
      assert sorted[..] == samples;
      ExchangeSort(sorted);
      var n := |samples|;
      Positions(n);
      SortedKth(samples, sorted[..], n * 50 / 100);
      SortedKth(samples, sorted[..], n * 95 / 100);
      SortedKth(samples, sorted[..], n * 99 / 100);
      p50 := sorted[n * 50 / 100];
      p95 := sorted[n * 95 / 100];
      p99 := sorted[n * 99 / 100];
    }

    /** What the percentiles are, for any durations. */
    lemma Cuts()
      requires Valid() && history != []
      ensures CutsAt(samples, 50, p50) && CutsAt(samples, 95, p95) && CutsAt(samples, 99, p99)
    {
      KthCuts(samples, 50, p50);
      KthCuts(samples, 95, p95);
      KthCuts(samples, 99, p99);
    }

    /** For non-negative durations, Average is the mean rounded down, Max is exact, and so is Min unless a
        zero was overwritten; and where Min is exact everything lies in order between them. */
    lemma Summary()
      requires Valid() && history != [] && NonNegative(history)
      ensures IsMax(history, max)
      ensures IsMin(history, min) <==> 0 !in history || history[|history| - 1] == 0
      ensures average * |history| <= Elapsed(history) < (average + 1) * |history|
      ensures IsMin(history, min) ==> min <= average <= max && min <= p50 <= p95 <= p99 <= max
    {
      RunningMaxIsMax(history);
      MinExactWhen(history);
      ElapsedNonNegative(history);
      TruncDivIs(Elapsed(history), |history|);
      if IsMin(history, min) {
        ElapsedBounds(history, min, max);
        DivBounds(total, count, min, max);
        var n := |samples|;
        Positions(n);
        KthOrdered(samples, n * 50 / 100, p50, n * 95 / 100, p95);
        KthOrdered(samples, n * 95 / 100, p95, n * 99 / 100, p99);
        LastWithin(history, WINDOW, p50);
        LastWithin(history, WINDOW, p99);
      }
    }
  }

  /** The nested exchange loops leave an ordered permutation. */
  method ExchangeSort(a: array<int>)
    modifies a
    ensures Sorted(a[..]) && multiset(a[..]) == multiset(old(a[..]))
  {
    for i := 0 to a.Length
      invariant multiset(a[..]) == multiset(old(a[..]))
      invariant Front(a[..], i)
    {
      PlaceSmallest(a, i);
    }
  }

  /** The first i elements are in order and no later element is smaller. */
  ghost predicate Front(s: seq<int>, i: nat) {
    forall j, k :: 0 <= j < k < |s| && j < i ==> s[j] <= s[k]
  }

  /** The inner loop: exchange position i with every later smaller element. */
  method PlaceSmallest(a: array<int>, i: nat)
    requires i < a.Length && Front(a[..], i)
    modifies a
    ensures Front(a[..], i + 1) && multiset(a[..]) == multiset(old(a[..]))
  {
    for j := i + 1 to a.Length
      invariant multiset(a[..]) == multiset(old(a[..]))
      invariant Front(a[..], i)
      invariant forall k :: i < k < j ==> a[i] <= a[k]
    {
      if a[i] > a[j] {
        Exchange(a, i, j);
      }
    }
  }

  method Exchange(a: array<int>, i: nat, j: nat)
    requires i < j < a.Length
    modifies a
    ensures a[i] == old(a[j]) && a[j] == old(a[i])
    ensures forall k :: 0 <= k < a.Length && k != i && k != j ==> a[k] == old(a[k])
    ensures multiset(a[..]) == multiset(old(a[..]))
  {
    a[i], a[j] := a[j], a[i];
  }
}
