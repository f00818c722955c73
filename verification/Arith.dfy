/** Facts about products and quotients of variables. */
module Arith {
  lemma MulAtLeast(d: int, x: int)
    requires d >= 0
    ensures x >= 1 ==> d * x >= d
    ensures x <= -1 ==> d * x <= -d
  {
    assert d * x == d + d * (x - 1) == -d + d * (x + 1);
  }

  /** A quotient and remainder are the only ones. */
  lemma DivModUnique(n: int, d: int, q: int, r: int)
    requires 0 <= r < d && n == d * q + r
    ensures n / d == q && n % d == r
  {
    var k, s := n / d, n % d;
    assert n == d * k + s;
    assert d * (k - q) == r - s;
    MulAtLeast(d, k - q);
  }
}
