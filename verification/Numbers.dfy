/** A few functions on integers. */
module Numbers {
  function Min(a: int, b: int): int {
    if a < b then a else b
  }

  function Max(a: int, b: int): int {
    if a > b then a else b
  }

  /** Powers of two, as produced by a left shift of 1. */
  function Pow2(k: nat): (p: nat)
    ensures p >= 1
  {
    if k == 0 then 1 else 2 * Pow2(k - 1)
  }

  /** Quotient and remainder are unique. */
  lemma QuotientRest(m: nat, n: nat, q: nat, r: nat)
    requires m == n * q + r && r < n
    ensures m % n == r
  {
    var d := m / n - q;
    assert n * d == r - m % n;
    AtLeastOnce(n, d);
  }

  lemma AtLeastOnce(n: int, d: int)
    requires n > 0
    ensures d >= 1 ==> n * d >= n
    ensures d <= -1 ==> n * d <= -n
  {
  }
}
