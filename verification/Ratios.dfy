/** Rates of event counts, over the reals. */
module Ratios {

  /** part / whole >= rate. A zero whole gives no rate when part is zero, and an infinite one otherwise. */
  predicate AtLeast(part: nat, whole: nat, rate: real) {
    if whole == 0 then part > 0 else part as real / whole as real >= rate
  }
}
