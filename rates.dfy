/**
 * Percentages as the sources compute them in floating point
 * (`part as f64 / whole as f64 * 100.0`), modelled exactly over the reals,
 * with their integer cross-multiplication equivalents.
 */
module Rates {

  /** `part` as a percentage of a non-zero `whole`. */
  function Percent(part: nat, whole: nat): real
    requires whole > 0
  {
    (part as real / whole as real) * 100.0
  }

  /** Comparing a percentage with a whole threshold needs no division. */
  lemma PercentCompare(part: nat, whole: nat, pct: nat)
    requires whole > 0
    ensures Percent(part, whole) > pct as real <==> part * 100 > pct * whole
    ensures Percent(part, whole) < pct as real <==> part * 100 < pct * whole
  {
    var q := part as real / whole as real;
    assert q * whole as real == part as real;
    assert (q * 100.0) * whole as real == (part * 100) as real;
  }
}
