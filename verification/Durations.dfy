/** time.Duration: its range and its division. */
module Durations {

  const MAX_DURATION: int := 0x7FFF_FFFF_FFFF_FFFF

  type Duration = d: int | -MAX_DURATION - 1 <= d <= MAX_DURATION

  /** Integer division, rounding towards zero. */
  function TruncDiv(x: int, n: nat): int
    requires n > 0
  {
    if x >= 0 then x / n else -(-x / n)
  }

  /** The quotient is off by less than one, towards zero. */
  lemma TruncDivIs(x: int, n: nat)
    requires n > 0
    ensures x >= 0 ==> TruncDiv(x, n) * n <= x < (TruncDiv(x, n) + 1) * n
    ensures x < 0 ==> (TruncDiv(x, n) - 1) * n < x <= TruncDiv(x, n) * n
  {
    var y := if x >= 0 then x else -x;
    var q := y / n;
    assert y == q * n + y % n;
    assert (q + 1) * n == q * n + n && (-q - 1) * n == -(q * n) - n && -q * n == -(q * n);
  }

  /** An average lies between the bounds of what it averages. */
  lemma DivBounds(x: int, n: nat, lo: int, hi: int)
    requires n > 0 && 0 <= lo && lo * n <= x <= hi * n
    ensures lo <= TruncDiv(x, n) <= hi
  {
    Scaled(0, lo, n);
    var q := x / n;
    assert x == q * n + x % n;
    if q < lo {
      Scaled(q + 1, lo, n);
    } else if hi < q {
      Scaled(hi + 1, q, n);
    }
  }

  lemma Scaled(x: int, y: int, n: nat)
    requires x <= y
    ensures x * n <= y * n
  {
  }
}
