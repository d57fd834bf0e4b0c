/** The delays of the two retry policies, over the reals. */
module Backoff {

  function Pow(x: real, n: nat): real {
    if n == 0 then 1.0 else x * Pow(x, n - 1)
  }

  lemma {:induction false} PowNonNegative(x: real, n: nat)
    requires x >= 0.0
    ensures Pow(x, n) >= 0.0
  {
    if n > 0 {
      PowNonNegative(x, n - 1);
      Times(x, Pow(x, n - 1));
    }
  }

  lemma PowGrows(x: real, n: nat)
    requires x >= 1.0
    ensures Pow(x, n) <= Pow(x, n + 1)
  {
    PowNonNegative(x, n);
    Times(x - 1.0, Pow(x, n));
    assert (x - 1.0) * Pow(x, n) == Pow(x, n + 1) - Pow(x, n);
  }

  lemma Times(x: real, y: real)
    requires x >= 0.0 && y >= 0.0
    ensures x * y >= 0.0
  {
  }

  /** n times the cap, one delay at a time. */
  ghost function Allowance(n: nat, cap: real): real {
    if n == 0 then 0.0 else Allowance(n - 1, cap) + cap
  }

  lemma {:induction false} AllowanceIs(n: nat, cap: real)
    ensures Allowance(n, cap) == n as real * cap
  {
    if n > 0 {
      AllowanceIs(n - 1, cap);
    }
  }

  function Min(x: real, y: real): real { if x < y then x else y }

  ghost predicate Draw(d: real) { 0.0 <= d < 1.0 }

  // The diagnostics policy: jitter first, then the cap, then the fallback for a negative delay.

  datatype Strategy = Linear | Exponential | Jittered | Unknown

  datatype Config = Config(baseDelay: real, maxDelay: real, strategy: Strategy, multiplier: real, jitterFactor: real) {
    ghost predicate Sane() { baseDelay >= 0.0 && maxDelay >= 0.0 && multiplier >= 0.0 && jitterFactor >= 0.0 }

    /** The configurations that can exceed the cap: the jitter can turn the delay negative, and the base delay
        that replaces it is above the cap. */
    ghost predicate Leaks() { strategy == Jittered && jitterFactor > 1.0 && baseDelay > maxDelay }

    ghost predicate Capped() { Sane() && !Leaks() }
  }

  function RawDelay(c: Config, attempt: nat, draw: real): real
    requires attempt >= 1
  {
    match c.strategy
    case Linear => c.baseDelay * attempt as real
    case Exponential => c.baseDelay * Pow(c.multiplier, attempt - 1)
    case Jittered =>
      var base := c.baseDelay * Pow(c.multiplier, attempt - 1);
      base + (draw - 0.5) * 2.0 * (base * c.jitterFactor)
    case Unknown => c.baseDelay * Pow(2.0, attempt - 1)
  }

  function Delay(c: Config, attempt: nat, draw: real): real
    requires attempt >= 1
  {
    var d := Min(RawDelay(c, attempt, draw), c.maxDelay);
    if d < 0.0 then c.baseDelay else d
  }

  lemma RawNonNegative(c: Config, attempt: nat, draw: real)
    requires c.Sane() && attempt >= 1 && Draw(draw)
    requires c.strategy == Jittered ==> c.jitterFactor <= 1.0
    ensures RawDelay(c, attempt, draw) >= 0.0
  {
    match c.strategy
    case Linear => Times(c.baseDelay, attempt as real);
    case Unknown =>
      PowNonNegative(2.0, attempt - 1);
      Times(c.baseDelay, Pow(2.0, attempt - 1));
    case Exponential =>
      PowNonNegative(c.multiplier, attempt - 1);
      Times(c.baseDelay, Pow(c.multiplier, attempt - 1));
    case Jittered =>
      PowNonNegative(c.multiplier, attempt - 1);
      Times(c.baseDelay, Pow(c.multiplier, attempt - 1));
      JitterKeepsSign(c.baseDelay * Pow(c.multiplier, attempt - 1), c.jitterFactor, draw);
  }

  lemma JitterKeepsSign(base: real, factor: real, draw: real)
    requires base >= 0.0 && 0.0 <= factor <= 1.0 && Draw(draw)
    ensures base + (draw - 0.5) * 2.0 * (base * factor) >= 0.0
  {
    Times(base, factor);
    Times(draw, base * factor);
    Times(base, 1.0 - factor);
    assert base + (draw - 0.5) * 2.0 * (base * factor) == base * (1.0 - factor) + 2.0 * (draw * (base * factor));
  }

  /** Every delay, for every attempt and every random draw, is at most MaxDelay exactly when the configuration
      does not leak; it is never negative. */
  lemma DelayCappedExactly(c: Config)
    requires c.Sane()
    ensures (forall attempt: nat, draw: real :: attempt >= 1 && Draw(draw) ==> Delay(c, attempt, draw) <= c.maxDelay)
            <==> !c.Leaks()
    ensures forall attempt: nat, draw: real :: attempt >= 1 && Draw(draw) ==> Delay(c, attempt, draw) >= 0.0
  {
    if c.Leaks() {
      var d := c.baseDelay;
      assert RawDelay(c, 1, 0.0) == d * (1.0 - c.jitterFactor);
      Shrink(d, c.jitterFactor);
      assert Draw(0.0) && Delay(c, 1, 0.0) == d;
    } else {
      forall attempt: nat, draw: real | attempt >= 1 && Draw(draw) ensures Delay(c, attempt, draw) <= c.maxDelay {
        if c.strategy != Jittered || c.jitterFactor <= 1.0 {
          RawNonNegative(c, attempt, draw);
        }
      }
    }
  }

  lemma Shrink(d: real, factor: real)
    requires d > 0.0 && factor > 1.0
    ensures d * (1.0 - factor) < 0.0
  {
  }

  /** Exponential delays without jitter never decrease. */
  lemma ExponentialMonotone(c: Config, attempt: nat, d: real, e: real)
    requires c.Sane() && c.strategy == Exponential && c.multiplier >= 1.0 && attempt >= 1
    ensures Delay(c, attempt, d) <= Delay(c, attempt + 1, e)
  {
    PowGrows(c.multiplier, attempt - 1);
    PowNonNegative(c.multiplier, attempt - 1);
    Times(c.baseDelay, Pow(c.multiplier, attempt) - Pow(c.multiplier, attempt - 1));
    Times(c.baseDelay, Pow(c.multiplier, attempt - 1));
    assert c.baseDelay * (Pow(c.multiplier, attempt) - Pow(c.multiplier, attempt - 1))
        == c.baseDelay * Pow(c.multiplier, attempt) - c.baseDelay * Pow(c.multiplier, attempt - 1);
  }

  // What the delays are, from one attempt to the next.

  /** The delay before jitter and cap: from the base delay on, one more base delay or one more factor per attempt. */
  ghost function Uncapped(c: Config, attempt: nat): real
    requires attempt >= 1
  {
    if attempt == 1 then c.baseDelay
    else
      var before := Uncapped(c, attempt - 1);
      match c.strategy
      case Linear => before + c.baseDelay
      case Unknown => before * 2.0
      case _ => before * c.multiplier
  }

  lemma OneMoreFactor(base: real, factor: real, n: nat)
    ensures base * Pow(factor, n) * factor == base * Pow(factor, n + 1)
  {
    var p := Pow(factor, n);
    assert base * (factor * p) == base * p * factor;
  }

  lemma {:induction false} LinearIs(c: Config, attempt: nat)
    requires c.strategy == Linear && attempt >= 1
    ensures Uncapped(c, attempt) == c.baseDelay * attempt as real
  {
    if attempt > 1 {
      LinearIs(c, attempt - 1);
      assert c.baseDelay * attempt as real == c.baseDelay * (attempt - 1) as real + c.baseDelay;
    }
  }

  function Factor(c: Config): real { if c.strategy == Unknown then 2.0 else c.multiplier }

  lemma {:induction false} GeometricIs(c: Config, attempt: nat)
    requires c.strategy != Linear && attempt >= 1
    ensures Uncapped(c, attempt) == c.baseDelay * Pow(Factor(c), attempt - 1)
  {
    if attempt > 1 {
      GeometricIs(c, attempt - 1);
      OneMoreFactor(c.baseDelay, Factor(c), attempt - 2);
    }
  }

  /** The formulas give the uncapped delay, and the jitter around it. */
  lemma RawIs(c: Config, attempt: nat, draw: real)
    requires attempt >= 1
    ensures RawDelay(c, attempt, draw)
            == if c.strategy == Jittered then Off(Uncapped(c, attempt), c.jitterFactor, draw) else Uncapped(c, attempt)
  {
    if c.strategy == Linear {
      LinearIs(c, attempt);
    } else {
      GeometricIs(c, attempt);
    }
  }

  ghost function Off(base: real, factor: real, draw: real): real {
    base + (draw - 0.5) * 2.0 * (base * factor)
  }

  lemma {:induction false} UncappedNonNegative(c: Config, attempt: nat)
    requires c.Sane() && attempt >= 1
    ensures Uncapped(c, attempt) >= 0.0
  {
    if attempt > 1 {
      UncappedNonNegative(c, attempt - 1);
      Times(Uncapped(c, attempt - 1), c.multiplier);
    }
  }

  /** The delay without jitter: the uncapped one, up to the cap. */
  ghost function Steady(c: Config, attempt: nat): real
    requires attempt >= 1
  {
    Min(Uncapped(c, attempt), c.maxDelay)
  }

  /** Without jitter that is the delay, whatever the draw. */
  lemma DelayIs(c: Config, attempt: nat, draw: real)
    requires c.Sane() && c.strategy != Jittered && attempt >= 1
    ensures Delay(c, attempt, draw) == Steady(c, attempt)
  {
    RawIs(c, attempt, draw);
    UncappedNonNegative(c, attempt);
  }

  /** With jitter it moves around it by at most the jitter factor, in proportion to how far the draw is from one half;
      a negative delay gives way to the base delay. */
  lemma JitteredDelayIs(c: Config, attempt: nat, draw: real)
    requires c.Sane() && c.strategy == Jittered && attempt >= 1
    ensures Delay(c, attempt, draw) == Clamped(c, Off(Uncapped(c, attempt), c.jitterFactor, draw))
  {
    RawIs(c, attempt, draw);
  }

  /** What is left of an uncapped delay. */
  ghost function Clamped(c: Config, d: real): real { if d < 0.0 then c.baseDelay else Min(d, c.maxDelay) }

  /** So for a jitter factor of at most one, and every draw, the delay stays within that share of the uncapped one, up
      to the cap; and for a draw of one half it is the steady delay. */
  lemma JitterStays(c: Config, u: real, draw: real)
    requires c.Sane() && c.jitterFactor <= 1.0 && u >= 0.0 && Draw(draw)
    ensures var d := Clamped(c, Off(u, c.jitterFactor, draw));
            && Min(u - c.jitterFactor * u, c.maxDelay) <= d <= Min(u + c.jitterFactor * u, c.maxDelay)
            && (draw == 0.5 ==> d == Min(u, c.maxDelay))
  {
    OffIs(u, c.jitterFactor, draw);
    Times(u, 1.0 - c.jitterFactor);
    assert u * (1.0 - c.jitterFactor) == u - c.jitterFactor * u;
  }

  lemma OffIs(base: real, factor: real, draw: real)
    requires base >= 0.0 && factor >= 0.0 && Draw(draw)
    ensures Off(base, factor, draw) == base + (2.0 * draw - 1.0) * (factor * base)
    ensures base - factor * base <= Off(base, factor, draw) <= base + factor * base
    ensures draw == 0.5 ==> Off(base, factor, draw) == base
  {
    var w := factor * base;
    Times(factor, base);
    assert base * factor == w;
    assert (draw - 0.5) * 2.0 * w == (2.0 * draw - 1.0) * w;
    Times(w, draw);
    Times(w, 1.0 - draw);
    assert (2.0 * draw - 1.0) * w == 2.0 * (w * draw) - w;
    assert w * (1.0 - draw) == w - w * draw;
  }

  /** The first steady delay is the base delay; from one attempt to the next a linear one grows by the base delay and
      the others by their factor, up to the cap. (A factor below one is applied to the uncapped delay, so that a capped
      one does not tell the next.) */
  lemma SteadySteps(c: Config, attempt: nat)
    requires c.Sane() && attempt >= 1
    ensures Steady(c, 1) == Min(c.baseDelay, c.maxDelay)
    ensures var now, next := Steady(c, attempt), Steady(c, attempt + 1);
            && (c.strategy == Linear ==> next == Min(now + c.baseDelay, c.maxDelay))
            && (c.strategy == Unknown ==> next == Min(now * 2.0, c.maxDelay))
            && (c.strategy in {Exponential, Jittered} && (now < c.maxDelay || c.multiplier >= 1.0) ==>
                  next == Min(now * c.multiplier, c.maxDelay))
  {
    UncappedNonNegative(c, attempt);
    if c.strategy != Linear {
      MultiplyCapped(Steady(c, attempt), Uncapped(c, attempt), Uncapped(c, attempt + 1), Factor(c), c.maxDelay);
    }
  }

  lemma MultiplyCapped(now: real, u: real, v: real, factor: real, cap: real)
    requires cap >= 0.0 && u >= 0.0 && now == Min(u, cap) && v == u * factor
    ensures now < cap || factor >= 1.0 ==> Min(v, cap) == Min(now * factor, cap)
  {
    CappedStays(u, cap, factor);
  }

  lemma CappedStays(u: real, cap: real, factor: real)
    requires cap >= 0.0
    ensures u >= cap && factor >= 1.0 ==> u * factor >= cap && cap * factor >= cap
  {
    if u >= cap && factor >= 1.0 {
      Times(u, factor - 1.0);
      Times(cap, factor - 1.0);
      assert u * (factor - 1.0) == u * factor - u;
      assert cap * (factor - 1.0) == cap * factor - cap;
    }
  }

  /** If no factor shrinks it, the steady delay reaches the cap exactly from the first attempt on whose uncapped delay
      does, and keeps it. */
  lemma {:induction false} CapReachedExactly(c: Config, attempt: nat, later: nat)
    requires c.Sane() && (c.strategy in {Exponential, Jittered} ==> c.multiplier >= 1.0) && 1 <= attempt <= later
    ensures Steady(c, attempt) == c.maxDelay <==> Uncapped(c, attempt) >= c.maxDelay
    ensures Uncapped(c, attempt) >= c.maxDelay ==> Uncapped(c, later) >= c.maxDelay && Steady(c, later) == c.maxDelay
    decreases later
  {
    if attempt < later {
      CapReachedExactly(c, attempt, later - 1);
      if c.strategy != Linear {
        CappedStays(Uncapped(c, later - 1), c.maxDelay, Factor(c));
      }
    }
  }

  /** The delays of the first n attempts, added up. */
  ghost function Waits(c: Config, draw: nat -> real, n: nat): real {
    if n == 0 then 0.0 else Waits(c, draw, n - 1) + Delay(c, n, draw(n))
  }

  lemma {:induction false} WaitsBounded(c: Config, draw: nat -> real, n: nat)
    requires c.Capped() && forall i :: Draw(draw(i))
    ensures 0.0 <= Waits(c, draw, n) <= Allowance(n, c.maxDelay)
  {
    if n > 0 {
      DelayCappedExactly(c);
      assert Draw(draw(n));
      WaitsBounded(c, draw, n - 1);
    }
  }

  // A loop refers to its delays by number; a plan says which they are. It is read at the numbers named by Nth only, so
  // that the formulas stay out of the loops.

  ghost predicate Nth(k: nat) { true }

  ghost predicate Plan(f: nat -> real, c: Config, draw: nat -> real) {
    forall k: nat {:trigger Nth(k)} :: Nth(k) && k >= 1 ==> f(k) == Delay(c, k, draw(k))
  }

  ghost function SumTo(f: nat -> real, n: nat): real {
    if n == 0 then 0.0 else SumTo(f, n - 1) + f(n)
  }

  lemma PlanOf(c: Config, draw: nat -> real) returns (f: nat -> real)
    ensures Plan(f, c, draw)
  {
    f := (k: nat) => if k >= 1 then Delay(c, k, draw(k)) else 0.0;
  }

  lemma {:induction false} SumIsWaits(f: nat -> real, c: Config, draw: nat -> real, n: nat)
    requires Plan(f, c, draw)
    ensures SumTo(f, n) == Waits(c, draw, n)
  {
    if n > 0 {
      assert Nth(n);
      SumIsWaits(f, c, draw, n - 1);
    }
  }

  // The Docker client's policy: the cap first, then jitter of a tenth either way.

  function CappedBackoff(initial: real, factor: real, cap: real, attempt: nat): real {
    Min(initial * Pow(factor, attempt), cap)
  }

  function Jittery(b: real, draw: real): real { b + b * 0.1 * (2.0 * draw - 1.0) }

  function DockerDelay(initial: real, factor: real, cap: real, attempt: nat, draw: real): real {
    Jittery(CappedBackoff(initial, factor, cap, attempt), draw)
  }

  /** The backoff without its cap: from the initial one on, one more factor per attempt. */
  ghost function Grown(initial: real, factor: real, attempt: nat): real {
    if attempt == 0 then initial else Grown(initial, factor, attempt - 1) * factor
  }

  lemma {:induction false} GrownIs(initial: real, factor: real, cap: real, attempt: nat)
    ensures Grown(initial, factor, attempt) == initial * Pow(factor, attempt)
    ensures CappedBackoff(initial, factor, cap, attempt) == Min(Grown(initial, factor, attempt), cap)
  {
    if attempt > 0 {
      GrownIs(initial, factor, cap, attempt - 1);
      OneMoreFactor(initial, factor, attempt - 1);
    }
  }

  /** The delays before the first n retries, added up. */
  ghost function DockerWaits(initial: real, factor: real, cap: real, draw: nat -> real, n: nat): real {
    if n == 0 then 0.0
    else DockerWaits(initial, factor, cap, draw, n - 1) + DockerDelay(initial, factor, cap, n - 1, draw(n - 1))
  }

  ghost predicate DockerPlan(f: nat -> real, initial: real, factor: real, cap: real, draw: nat -> real) {
    forall k: nat {:trigger Nth(k)} :: Nth(k) && k >= 1 ==>
      f(k) == DockerDelay(initial, factor, cap, k - 1, draw(k - 1))
  }

  lemma DockerPlanOf(initial: real, factor: real, cap: real, draw: nat -> real) returns (f: nat -> real)
    ensures DockerPlan(f, initial, factor, cap, draw)
  {
    f := (k: nat) => if k >= 1 then DockerDelay(initial, factor, cap, k - 1, draw(k - 1)) else 0.0;
  }

  lemma {:induction false} SumIsDockerWaits(
      f: nat -> real, initial: real, factor: real, cap: real, draw: nat -> real, n: nat)
    requires DockerPlan(f, initial, factor, cap, draw)
    ensures SumTo(f, n) == DockerWaits(initial, factor, cap, draw, n)
  {
    if n > 0 {
      assert Nth(n);
      SumIsDockerWaits(f, initial, factor, cap, draw, n - 1);
    }
  }

  lemma DockerDelayBounded(initial: real, factor: real, cap: real, attempt: nat, draw: real)
    requires initial >= 0.0 && factor >= 0.0 && cap >= 0.0 && Draw(draw)
    ensures 0.0 <= DockerDelay(initial, factor, cap, attempt, draw) <= 1.1 * cap
    ensures var b := CappedBackoff(initial, factor, cap, attempt);
            0.9 * b <= DockerDelay(initial, factor, cap, attempt, draw) <= 1.1 * b
  {
    PowNonNegative(factor, attempt);
    Times(initial, Pow(factor, attempt));
    JitterBounded(CappedBackoff(initial, factor, cap, attempt), draw);
  }

  lemma JitterBounded(b: real, draw: real)
    requires b >= 0.0 && Draw(draw)
    ensures 0.9 * b <= Jittery(b, draw) <= 1.1 * b
  {
    Times(b, draw);
    Times(b, 1.0 - draw);
    assert b * 0.1 * (2.0 * draw - 1.0) == 0.2 * (b * draw) - 0.1 * b;
    assert b * (1.0 - draw) == b - b * draw;
  }

  /** Once the cap is reached, exactly the draws above one half exceed it. */
  lemma DockerCapExceededExactly(initial: real, factor: real, cap: real, attempt: nat, draw: real)
    requires cap > 0.0 && initial * Pow(factor, attempt) >= cap
    ensures DockerDelay(initial, factor, cap, attempt, draw) > cap <==> draw > 0.5
  {
    assert DockerDelay(initial, factor, cap, attempt, draw) == cap + cap * 0.1 * (2.0 * draw - 1.0);
    if draw > 0.5 {
      Product(cap, draw - 0.5);
    } else {
      Times(cap, 0.5 - draw);
    }
    assert cap * 0.1 * (2.0 * draw - 1.0) == 0.2 * (cap * (draw - 0.5)) == -0.2 * (cap * (0.5 - draw));
  }

  lemma Product(x: real, y: real)
    requires x > 0.0 && y > 0.0
    ensures x * y > 0.0
  {
  }

  /** All draws at an attempt stay within MaxBackoff exactly when the uncapped backoff leaves room for the jitter,
      or the cap is zero. */
  lemma DockerWithinCapExactly(initial: real, factor: real, cap: real, attempt: nat)
    requires initial >= 0.0 && factor >= 0.0 && cap >= 0.0
    ensures (forall draw :: Draw(draw) ==> DockerDelay(initial, factor, cap, attempt, draw) <= cap)
            <==> cap == 0.0 || 1.1 * (initial * Pow(factor, attempt)) <= cap
  {
    if cap == 0.0 || 1.1 * (initial * Pow(factor, attempt)) <= cap {
      forall draw | Draw(draw) ensures DockerDelay(initial, factor, cap, attempt, draw) <= cap {
        LeavesRoom(initial, factor, cap, attempt, draw);
      }
    } else {
      var draw := LeavesNoRoom(initial, factor, cap, attempt);
    }
  }

  lemma LeavesRoom(initial: real, factor: real, cap: real, attempt: nat, draw: real)
    requires initial >= 0.0 && factor >= 0.0 && cap >= 0.0 && Draw(draw)
    requires cap == 0.0 || 1.1 * (initial * Pow(factor, attempt)) <= cap
    ensures DockerDelay(initial, factor, cap, attempt, draw) <= cap
  {
    DockerDelayBounded(initial, factor, cap, attempt, draw);
    PowNonNegative(factor, attempt);
    Times(initial, Pow(factor, attempt));
  }

  lemma LeavesNoRoom(initial: real, factor: real, cap: real, attempt: nat) returns (draw: real)
    requires cap > 0.0 && 1.1 * (initial * Pow(factor, attempt)) > cap
    ensures Draw(draw) && DockerDelay(initial, factor, cap, attempt, draw) > cap
  {
    draw := SomeDrawExceeds(initial * Pow(factor, attempt), cap);
  }

  lemma SomeDrawExceeds(raw: real, cap: real) returns (draw: real)
    requires 0.0 < cap < 1.1 * raw
    ensures Draw(draw) && Jittery(Min(raw, cap), draw) > cap
  {
    if raw < cap {
      draw := NearlyOne(raw, cap);
    } else {
      draw := 0.75;
    }
  }

  /** A draw close enough to one that the jittered backoff passes the cap. */
  lemma NearlyOne(raw: real, cap: real) returns (draw: real)
    requires 0.0 < raw < cap < 1.1 * raw
    ensures Draw(draw) && Jittery(raw, draw) > cap
  {
    var q := cap / raw;
    assert q * raw == cap;
    Quotient(raw, cap);
    draw := (q - 0.9) * 2.5 + 0.5;
    Product(raw, 0.2 * draw + 0.9 - q);
    assert raw * (0.2 * draw + 0.9 - q) == raw + raw * 0.1 * (2.0 * draw - 1.0) - cap;
  }

  lemma Quotient(raw: real, cap: real)
    requires 0.0 < raw < cap < 1.1 * raw
    ensures 1.0 < cap / raw < 1.1
  {
    var q := cap / raw;
    assert q * raw == cap;
    Scale(q, 1.0, raw);
    Scale(1.1, q, raw);
  }

  lemma Scale(q: real, r: real, raw: real)
    requires 0.0 < raw
    ensures q <= r ==> q * raw <= r * raw
  {
    if q <= r {
      Times(raw, r - q);
      assert raw * (r - q) == r * raw - q * raw;
    }
  }
}
