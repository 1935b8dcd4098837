/** Multiplication and order. */
module Arithmetic {
  function Min(a: int, b: int): int { if a < b then a else b }

  function Max(a: int, b: int): int { if a > b then a else b }

  lemma MulMonotone(n: nat, x: int, y: int)
    requires x <= y
    ensures n * x <= n * y
  {
    assert n * (y - x) >= 0;
  }

  /** Quotient and remainder are determined. */
  lemma DivModIs(x: int, d: nat, q: int, r: nat)
    requires d > 0 && x == q * d + r && r < d
    ensures x / d == q && x % d == r
  {
    if x / d > q { MulMonotone(d, q + 1, x / d); }
    if x / d < q { MulMonotone(d, x / d + 1, q); }
  }

  /** Going on by less than a turn. */
  lemma ModAhead(x: nat, ahead: nat, n: nat)
    requires ahead < n
    ensures (x + ahead) % n == if x % n + ahead < n then x % n + ahead else x % n + ahead - n
  {
    var q, r := x / n, x % n;
    assert x == q * n + r;
    if r + ahead < n {
      DivModIs(x + ahead, n, q, r + ahead);
    } else {
      assert (q + 1) * n == q * n + n;
      DivModIs(x + ahead, n, q + 1, r + ahead - n);
    }
  }
}
