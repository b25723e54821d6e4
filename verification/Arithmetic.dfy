/** Facts about Go's integer division on non-negative operands, where it agrees
    with Dafny's. */
module Arithmetic {
  function Max(a: int, b: int): int { if a >= b then a else b }
  function Min(a: int, b: int): int { if a <= b then a else b }

  /** The ceiling of a / b as the source writes it: (a + b - 1) / b. */
  function CeilDiv(a: int, b: int): int
    requires b >= 1
  {
    (a + b - 1) / b
  }

  lemma MulAtLeast(r: int, d: int)
    requires r >= 0 && d >= 1
    ensures r * d >= r
  {
    assert r * d == r * (d - 1) + r;
  }

  /** Quotient and remainder are unique. */
  lemma DivMod(x: int, r: int, q: int, m: int)
    requires r >= 1 && x == r * q + m && 0 <= m < r
    ensures x / r == q && x % r == m
  {
    var d := q - x / r;
    Distribute(r, q, x / r);
    assert r * d == x % r - m;
    if d >= 1 {
      MulAtLeast(r, d);
    } else if d <= -1 {
      MulAtLeast(r, -d);
      Negate(r, d);
    }
  }

  lemma Distribute(r: int, a: int, b: int)
    ensures r * (a - b) == r * a - r * b
  {
  }

  lemma Negate(r: int, d: int)
    ensures r * -d == -(r * d)
  {
  }

  lemma MulMonotone(r: int, a: int, b: int)
    requires r >= 0 && a <= b
    ensures r * a <= r * b
  {
    Distribute(r, b, a);
  }

  /** q*r < n exactly when q < ceil(n/r). */
  lemma BelowCeil(n: int, r: int, q: int)
    requires r >= 1
    ensures r * q < n <==> q < CeilDiv(n, r)
  {
    var c := CeilDiv(n, r);
    var m := (n + r - 1) % r;
    assert n + r - 1 == r * c + m;
    if q < c {
      MulMonotone(r, q, c - 1);
      Distribute(r, c, 1);
    } else {
      MulMonotone(r, c, q);
    }
  }

  /** ceil(n/r) grows exactly when n is a multiple of r. */
  lemma CeilStep(n: int, r: int)
    requires r >= 1 && n >= 0
    ensures CeilDiv(n + 1, r) == CeilDiv(n, r) + (if n % r == 0 then 1 else 0)
  {
    var q, m := n / r, n % r;
    Distribute(r, q, -1);
    DivMod(n + r, r, q + 1, m);
    if m == 0 {
      DivMod(n + r - 1, r, q, r - 1);
    } else {
      DivMod(n + r - 1, r, q + 1, m - 1);
    }
  }

  /** Iteration n opens block n/r anew exactly when n is a multiple of r. */
  lemma BlockOf(n: int, r: int)
    requires r >= 1 && n >= 0
    ensures n / r >= 0 && CeilDiv(n, r) >= 0
    ensures n % r == 0 ==> n / r == CeilDiv(n, r)
    ensures n % r != 0 ==> n / r == CeilDiv(n, r) - 1
  {
    var q, m := n / r, n % r;
    if q < 0 {
      MulMonotone(r, q, -1);
    }
    if m == 0 {
      DivMod(n + r - 1, r, q, r - 1);
    } else {
      Distribute(r, q, -1);
      DivMod(n + r - 1, r, q + 1, m - 1);
    }
  }
}
