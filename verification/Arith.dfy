/** Facts about products that the solver does not find by itself. */
module Arith {

  lemma MulLe(x: int, y: int, k: nat)
    requires x <= y
    ensures x * k <= y * k
  {
  }

  lemma MulLt(x: int, y: int, k: nat)
    requires x < y && 0 < k
    ensures x * k < y * k
  {
  }

  // The quotient is the only q with q*d <= n < (q+1)*d.
  lemma QuotientUnique(n: int, d: int, q: int)
    requires 0 < d
    requires q * d <= n < (q + 1) * d
    ensures n / d == q
    ensures n % d == n - q * d
  {
    var p := n / d;
    assert n == p * d + n % d;
    if p < q {
      MulLe(p + 1, q, d);
    } else if q < p {
      MulLe(q + 1, p, d);
    }
  }
}
