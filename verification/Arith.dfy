// Facts about products and floor quotients that the solver needs one at a time.

module Arith {

  lemma MulLe(a: int, b: int, d: int)
    requires d >= 0
    ensures a <= b ==> a * d <= b * d
  {
    if a <= b {
      assert (b - a) * d >= 0;
    }
  }

  lemma MulLt(a: int, b: int, d: int)
    requires d > 0
    ensures a < b <==> a * d < b * d
  {
    MulLe(b, a, d);
    MulLe(a + 1, b, d);
    Distribute(a, 1, d);
  }

  lemma Distribute(a: int, b: int, d: int)
    ensures (a + b) * d == a * d + b * d
  {
  }

  lemma DivBound(x: int, d: int)
    requires d > 0
    ensures (x / d) * d <= x < (x / d + 1) * d
    ensures (x / d + 1) * d == (x / d) * d + d
  {
    Distribute(x / d, 1, d);
    assert x == (x / d) * d + x % d;
  }

  lemma DivUnique(x: int, d: int, q: int)
    requires d > 0 && q * d <= x < (q + 1) * d
    ensures x / d == q
  {
    DivBound(x, d);
    MulLt(x / d, q + 1, d);
    MulLt(q, x / d + 1, d);
  }
}
