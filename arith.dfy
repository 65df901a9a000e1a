/**
 * Facts about Euclidean division by a positive divisor, shared by the range
 * arithmetic of the payload generator and by string repetition.
 */
module Arith {
  lemma DivModUnique(a: int, m: int, q: int, r: int)
    requires m > 0 && 0 <= r < m && a == q * m + r
    ensures a / m == q && a % m == r
  {
    var q', r' := a / m, a % m;
    assert (q' - q) * m == r - r';
    MulSmall(q' - q, m);
  }

  lemma MulSmall(d: int, m: int)
    requires m > 0 && -m < d * m < m
    ensures d == 0
  {
    if d > 0 {
      MulAtLeast(d, m);
    } else if d < 0 {
      MulAtLeast(-d, m);
    }
  }

  lemma {:induction false} MulAtLeast(d: int, m: int)
    requires d >= 1 && m > 0
    ensures d * m >= m
    decreases d
  {
    if d > 1 {
      MulAtLeast(d - 1, m);
      assert d * m == (d - 1) * m + m;
    }
  }

  lemma MulPositive(a: int, b: int)
    requires a >= 0 && b >= 0 && a * b > 0
    ensures a > 0 && b > 0
  {
  }

  /** Euclidean division by a positive number keeps the sign of the dividend. */
  lemma DivSign(a: int, m: int)
    requires m > 0
    ensures a < 0 <==> a / m < 0
  {
    var q := a / m;
    assert a == q * m + a % m;
    if q > 0 {
      MulAtLeast(q, m);
    } else if q < 0 {
      MulAtLeast(-q, m);
      assert q * m == -((-q) * m);
    }
  }

  lemma DivModStep(a: int, m: int)
    requires m > 0
    ensures (a - m) / m == a / m - 1
    ensures (a - m) % m == a % m
  {
    var q, r := a / m, a % m;
    assert a - m == (q - 1) * m + r;
    DivModUnique(a - m, m, q - 1, r);
  }
}
