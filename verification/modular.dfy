/** Remainders, as used for machine words. */
module Modular {

  lemma ProductSign(d: int, m: nat)
    ensures d >= 1 ==> d * m >= m
    ensures d <= -1 ==> d * m + m <= 0
  {
  }

  /** The remainder is the only number below `m` that differs from `x` by a multiple of `m`. */
  lemma ModUnique(x: int, m: nat, q: int, r: nat)
    requires m > 0 && x == q * m + r && r < m
    ensures x % m == r
  {
    ProductSign(x / m - q, m);
    assert (x / m - q) * m == r - x % m;
  }

  /** Equal remainders of two numbers less than a whole word apart mean equal numbers. */
  lemma ModInjective(x: int, y: int, m: nat)
    requires m > 0 && x % m == y % m && -(m as int) < x - y < m
    ensures x == y
  {
    ProductSign(x / m - y / m, m);
    assert (x / m - y / m) * m == x - y;
  }

  lemma ModShift(x: int, k: int, m: nat)
    requires m > 0
    ensures (x + k * m) % m == x % m
  {
    assert x + k * m == (x / m + k) * m + x % m;
    ModUnique(x + k * m, m, x / m + k, x % m);
  }

  /** Reducing a summand first does not change the remainder of the sum. */
  lemma ModAdd(x: int, y: int, m: nat)
    requires m > 0
    ensures (x % m + y) % m == (x + y) % m
  {
    assert x + y == (x % m + y) + (x / m) * m;
    ModShift(x % m + y, x / m, m);
  }
}
