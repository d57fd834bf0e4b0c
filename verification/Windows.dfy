/** Sliding windows: the last n of what was appended. */
module Windows {

  ghost function Last<T>(log: seq<T>, n: nat): seq<T> {
    if |log| <= n then log else log[|log| - n..]
  }

  /** One more entry pushes out the oldest once n are held. */
  lemma LastSlides<T>(log: seq<T>, n: nat, x: T)
    requires n > 0
    ensures |log| < n ==> |Last(log, n)| < n && Last(log + [x], n) == Last(log, n) + [x]
    ensures |log| >= n ==> |Last(log, n)| == n && Last(log + [x], n) == Last(log, n)[1..] + [x]
  {
  }

  lemma LastWithin<T>(log: seq<T>, n: nat, x: T)
    ensures x in Last(log, n) ==> x in log
  {
  }

  /** Appending and then trimming to n keeps the last n. */
  lemma LastTrims<T>(log: seq<T>, n: nat, x: T)
    requires n > 0
    ensures Last(Last(log, n) + [x], n) == Last(log + [x], n)
  {
    LastSlides(log, n, x);
  }
}
