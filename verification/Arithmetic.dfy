/** Division and modulo facts used by the ring-shaped structures. */
module Arithmetic {

  lemma {:induction false} MulNonNegative(n: int, a: int)
    requires n >= 0 && a >= 0
    ensures n * a >= 0
  {
  }

  lemma {:induction false} LargeMultiple(n: int, a: int)
    requires n > 0 && a >= 1
    ensures n * a >= n && n * -a <= -n
  {
    MulNonNegative(n, a - 1);
    assert n * a == n * (a - 1) + n;
  }

  lemma {:induction false} SmallMultiple(n: int, a: int)
    requires n > 0 && -n < n * a < n
    ensures a == 0
  {
    if a >= 1 {
      LargeMultiple(n, a);
    } else if a <= -1 {
      LargeMultiple(n, -a);
    }
  }

  /** Quotient and remainder are determined by the division equation. */
  lemma {:induction false} DivModUnique(x: int, n: int, q: int, r: int)
    requires 0 <= r < n && x == n * q + r
    ensures x / n == q && x % n == r
  {
    var d := x / n - q;
    assert n * (x / n) == n * q + n * d;
    SmallMultiple(n, d);
  }
}
