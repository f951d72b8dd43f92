/** Facts about multiplication and Euclidean remainders the solver does not find alone. */
module Arith {
  lemma MulAtLeast(k: int, d: int)
    requires d >= 0
    ensures k >= 1 ==> k * d >= d
    ensures k <= -1 ==> k * d <= -d
  {
    if k >= 1 {
      assert k * d == (k - 1) * d + d;
    } else if k <= -1 {
      assert k * d == (k + 1) * d - d;
      assert (-(k + 1)) * d >= 0;
    }
  }

  /** Euclidean division has one remainder: a multiple plus `r < d` leaves `r`. */
  lemma ModUnique(x: nat, d: nat, q: nat, r: nat)
    requires d > 0 && r < d && x == q * d + r
    ensures x % d == r
  {
    var q2, r2 := x / d, x % d;
    assert x == q2 * d + r2;
    assert (q2 - q) * d == r - r2;
    MulAtLeast(q2 - q, d);
  }
}
