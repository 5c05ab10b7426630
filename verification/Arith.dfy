/** Facts about products and quotients of natural numbers. */
module Arith {

  lemma MulMonotone(n: nat, a: nat, b: nat)
    requires a <= b
    ensures n * a <= n * b
  {
  }

  /** A number has one quotient and one remainder. */
  lemma DivModUnique(a: nat, q: nat, r: nat, n: nat)
    requires r < n && a == q * n + r
    ensures a / n == q && a % n == r
  {
    var p := a / n;
    assert a == p * n + a % n;
    if p < q {
      MulMonotone(n, 1, q - p);
    } else if p > q {
      MulMonotone(n, 1, p - q);
    }
  }
}
