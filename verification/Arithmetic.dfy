/** Quotients and remainders, as the proofs of several modules need them. */
module Arithmetic {

  /** A remainder in range determines quotient and remainder. */
  lemma QuotientUnique(a: int, q: int, r: nat, n: nat)
    requires r < n && a == q * n + r
    ensures a / n == q && a % n == r
  {
    var d := q - a / n;
    assert d * n == q * n - (a / n) * n;
    assert d * n == a % n - r;
    assert d >= 1 ==> d * n >= n;
    assert d <= -1 ==> d * n <= 0 - n;
  }

  lemma {:induction false} TimesMonotone(a: nat, b: nat, n: nat)
    requires a < b
    ensures a * n + n <= b * n
  {
    assert b * n == (b - 1) * n + n;
    if a < b - 1 { TimesMonotone(a, b - 1, n); }
  }
}
