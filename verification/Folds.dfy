/** Sums over the processes of a step system and counts over its channels and sequences. */
module Folds {

  /** The total of a per-process number. */
  ghost function Total<P>(f: P -> int, ps: seq<P>): int {
    if ps == [] then 0 else f(ps[0]) + Total(f, ps[1..])
  }

  /** When process i moves to p, its old contribution is exchanged for the new one. */
  lemma {:induction false} TotalMove<P>(f: P -> int, ps: seq<P>, i: nat, p: P)
    requires i < |ps|
    ensures Total(f, ps[i := p]) == Total(f, ps) - f(ps[i]) + f(p)
  {
    if i == 0 {
      assert ps[0 := p][1..] == ps[1..];
    } else {
      TotalMove(f, ps[1..], i - 1, p);
      assert ps[i := p][1..] == ps[1..][i - 1 := p];
    }
  }

  lemma {:induction false} TotalNonNegative<P>(f: P -> int, ps: seq<P>)
    requires forall k :: 0 <= k < |ps| ==> 0 <= f(ps[k])
    ensures 0 <= Total(f, ps)
  {
    if ps != [] {
      assert forall k :: 0 <= k < |ps[1..]| ==> ps[1..][k] == ps[k + 1];
      TotalNonNegative(f, ps[1..]);
    }
  }

  /** With non-negative contributions, the total is zero exactly when every contribution is. */
  lemma {:induction false} TotalZero<P>(f: P -> int, ps: seq<P>)
    requires forall k :: 0 <= k < |ps| ==> 0 <= f(ps[k])
    ensures Total(f, ps) == 0 <==> forall k :: 0 <= k < |ps| ==> f(ps[k]) == 0
  {
    if ps != [] {
      assert forall k :: 0 <= k < |ps[1..]| ==> ps[1..][k] == ps[k + 1];
      assert forall k :: 0 < k < |ps| ==> ps[k] == ps[1..][k - 1];
      TotalNonNegative(f, ps[1..]);
      TotalZero(f, ps[1..]);
    }
  }

  /** No process contributes more than the total. */
  lemma {:induction false} TotalMember<P>(f: P -> int, ps: seq<P>, i: nat)
    requires i < |ps|
    requires forall k :: 0 <= k < |ps| ==> 0 <= f(ps[k])
    ensures f(ps[i]) <= Total(f, ps)
  {
    assert forall k :: 0 <= k < |ps[1..]| ==> ps[1..][k] == ps[k + 1];
    if i == 0 {
      TotalNonNegative(f, ps[1..]);
    } else {
      TotalMember(f, ps[1..], i - 1);
    }
  }

  /** A pointwise order carries over to the totals. */
  lemma {:induction false} TotalMonotone<P>(f: P -> int, g: P -> int, ps: seq<P>)
    requires forall k :: 0 <= k < |ps| ==> f(ps[k]) <= g(ps[k])
    ensures Total(f, ps) <= Total(g, ps)
  {
    if ps != [] {
      assert forall k :: 0 <= k < |ps[1..]| ==> ps[1..][k] == ps[k + 1];
      TotalMonotone(f, g, ps[1..]);
    }
  }

  /** Contributions within bounds give a total within their multiples. */
  lemma {:induction false} TotalWithin<P>(f: P -> int, ps: seq<P>, lo: int, hi: int)
    requires forall k :: 0 <= k < |ps| ==> lo <= f(ps[k]) <= hi
    ensures lo * |ps| <= Total(f, ps) <= hi * |ps|
  {
    if ps != [] {
      assert forall k :: 0 <= k < |ps[1..]| ==> ps[1..][k] == ps[k + 1];
      TotalWithin(f, ps[1..], lo, hi);
      OneMoreTime(lo, |ps|);
      OneMoreTime(hi, |ps|);
    }
  }

  lemma OneMoreTime(x: int, n: int)
    ensures x * n == x * (n - 1) + x
  {
  }

  lemma {:induction false} TotalAppend<P>(f: P -> int, xs: seq<P>, ys: seq<P>)
    ensures Total(f, xs + ys) == Total(f, xs) + Total(f, ys)
  {
    if xs == [] {
      assert xs + ys == ys;
    } else {
      assert (xs + ys)[1..] == xs[1..] + ys;
      TotalAppend(f, xs[1..], ys);
    }
  }

  lemma TotalSnoc<P>(f: P -> int, xs: seq<P>, y: P)
    ensures Total(f, xs + [y]) == Total(f, xs) + f(y)
  {
    TotalAppend(f, xs, [y]);
    assert [y][1..] == [];
  }

  /** Leaving out position i takes one occurrence out of the bag. */
  lemma DropAt<X>(xs: seq<X>, i: nat)
    requires i < |xs|
    ensures multiset(xs[..i] + xs[i + 1..]) == multiset(xs) - multiset{xs[i]}
  {
    assert xs == xs[..i] + [xs[i]] + xs[i + 1..];
  }

  /** A permutation of p holds p[0] somewhere, and permutes p[1..] without it. */
  lemma Counterpart<X>(p: seq<X>, q: seq<X>) returns (i: nat)
    requires p != [] && multiset(p) == multiset(q)
    ensures i < |q| && q[i] == p[0] && multiset(p[1..]) == multiset(q[..i] + q[i + 1..])
  {
    i := Position(q, p[0]);
    DropAt(q, i);
    assert p == [p[0]] + p[1..];
  }

  lemma Position<X>(q: seq<X>, x: X) returns (i: nat)
    requires x in multiset(q)
    ensures i < |q| && q[i] == x
  {
    i :| i < |q| && q[i] == x;
  }

  /** The sum of a real-valued measure. */
  ghost function Sum<X>(f: X -> real, xs: seq<X>): real {
    if xs == [] then 0.0 else f(xs[0]) + Sum(f, xs[1..])
  }

  lemma {:induction false} SumDrop<X>(f: X -> real, xs: seq<X>, i: nat)
    requires i < |xs|
    ensures Sum(f, xs) == Sum(f, xs[..i] + xs[i + 1..]) + f(xs[i])
  {
    var rest := xs[..i] + xs[i + 1..];
    if i == 0 {
      assert rest == xs[1..];
    } else {
      SumDrop(f, xs[1..], i - 1);
      assert rest[1..] == xs[1..][..i - 1] + xs[1..][i..];
    }
  }

  /** Sums do not depend on the order. */
  lemma {:induction false} SumPermute<X>(f: X -> real, p: seq<X>, q: seq<X>)
    requires multiset(p) == multiset(q)
    ensures Sum(f, p) == Sum(f, q)
  {
    if p == [] {
      assert |multiset(q)| == 0;
    } else {
      var i := Counterpart(p, q);
      SumPermute(f, p[1..], q[..i] + q[i + 1..]);
      SumDrop(f, q, i);
    }
  }

  lemma {:induction false} SumOrdered<X>(f: X -> real, g: X -> real, xs: seq<X>)
    requires forall i :: 0 <= i < |xs| ==> f(xs[i]) <= g(xs[i])
    ensures Sum(f, xs) <= Sum(g, xs)
  {
    if xs != [] {
      assert forall i :: 0 <= i < |xs[1..]| ==> xs[1..][i] == xs[i + 1];
      SumOrdered(f, g, xs[1..]);
    }
  }

  lemma {:induction false} SumEqual<X>(f: X -> real, g: X -> real, xs: seq<X>)
    requires forall i :: 0 <= i < |xs| ==> f(xs[i]) == g(xs[i])
    ensures Sum(f, xs) == Sum(g, xs)
  {
    if xs != [] {
      assert forall i :: 0 <= i < |xs[1..]| ==> xs[1..][i] == xs[i + 1];
      SumEqual(f, g, xs[1..]);
    }
  }

  ghost predicate Distinct<X>(xs: seq<X>) { forall i, j :: 0 <= i < j < |xs| ==> xs[i] != xs[j] }

  lemma {:induction false} DistinctOnce<X>(xs: seq<X>, x: X)
    requires Distinct(xs)
    ensures multiset(xs)[x] == if x in xs then 1 else 0
  {
    if xs != [] {
      assert xs == [xs[0]] + xs[1..];
      DistinctOnce(xs[1..], x);
      assert forall i :: 0 <= i < |xs[1..]| ==> xs[1..][i] == xs[i + 1];
    }
  }

  /** Two listings of the same elements without repetition are permutations of each other. */
  lemma ListingsPermute<X>(p: seq<X>, q: seq<X>)
    requires Distinct(p) && Distinct(q) && forall x :: x in p <==> x in q
    ensures multiset(p) == multiset(q)
  {
    forall x ensures multiset(p)[x] == multiset(q)[x] {
      DistinctOnce(p, x);
      DistinctOnce(q, x);
    }
  }
}
