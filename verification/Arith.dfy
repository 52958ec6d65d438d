/** Facts about products and quotients that the solver needs spelled out. */
module Arith {

  lemma MulAtLeast(d: nat, k: int)
    requires k >= 1
    ensures d * k >= d
  {
    MulNonNegative(d, k - 1);
    assert d * k == d * (k - 1) + d;
  }

  lemma MulNonNegative(d: nat, k: nat)
    ensures d * k >= 0
  {
  }

  lemma MulDistributes(d: int, x: int, y: int)
    ensures d * (x - y) == d * x - d * y
    ensures d * (x + y) == d * x + d * y
  {
  }

  /** Division by a positive number: the quotient and remainder are the only pair that fits. */
  lemma DivModUnique(n: int, m: int, q: int, r: int)
    requires m > 0 && n == m * q + r && 0 <= r < m
    ensures n / m == q && n % m == r
  {
    var q', r' := n / m, n % m;
    DivModIdentity(n, m);
    MulDistributes(m, q, q');
    MulDistributes(m, q', q);
    if q > q' {
      MulAtLeast(m, q - q');
    } else if q < q' {
      MulAtLeast(m, q' - q);
    }
  }

  lemma DivModIdentity(n: int, m: int)
    requires m > 0
    ensures n == m * (n / m) + n % m && 0 <= n % m < m
  {
  }

  lemma DivShrinks(a: nat, d: nat)
    requires d > 0
    ensures 0 <= a / d <= a
  {
    DivModIdentity(a, d);
    if a / d > 0 {
      MulAtLeast(a / d, d);
      assert d * (a / d) == (a / d) * d;
    } else if a / d < 0 {
      MulAtLeast(d, -(a / d));
      MulDistributes(d, 0, a / d);
    }
  }

  /** A number is fixed by its quotient by d and its remainder by m when d <= m. */
  lemma SameQuotientAndRemainder(a: nat, b: nat, d: nat, m: nat)
    requires 0 < d <= m
    requires a / d == b / d && a % m == b % m && a <= b
    ensures a == b
  {
    DivModIdentity(a, d);
    DivModIdentity(b, d);
    assert b - a < d;
    DivModIdentity(a, m);
    DivModIdentity(b, m);
    MulDistributes(m, b / m, a / m);
    MulDistributes(m, a / m, b / m);
    if b / m > a / m {
      MulAtLeast(m, b / m - a / m);
    } else if b / m < a / m {
      MulAtLeast(m, a / m - b / m);
    }
  }
}
