/** Quotients, remainders, products and powers of ten: the arithmetic several models share. */
module Arithmetic {

  function Pow10(k: nat): (p: nat)
    ensures p >= 1
  {
    if k == 0 then 1 else 10 * Pow10(k - 1)
  }

  lemma Parts(a: int, m: int)
    requires m > 0
    ensures a == a / m * m + a % m && 0 <= a % m < m
  {
  }

  lemma ProductOrder(a: int, b: int, d: int)
    requires a <= b && d >= 0
    ensures a * d <= b * d && d * a <= d * b
  {
  }

  lemma Apart(p: int, q: int, m: int)
    requires p < q && m > 0
    ensures p * m + m <= q * m
  {
    var d := q - p - 1;
    assert q * m == p * m + m + d * m;
  }

  lemma DivDiv(v: nat, a: nat, b: nat)
    requires a > 0 && b > 0
    ensures a * b > 0 && v / a / b == v / (a * b)
  {
    var x := v / a;
    Parts(v, a);
    Parts(x, b);
    var q, t, r := x / b, x % b, v % a;
    ProductOrder(1, b, a);
    assert v == q * (a * b) + (t * a + r);
    ProductOrder(t + 1, b, a);
    assert (t + 1) * a == t * a + a;
    ProductOrder(0, t, a);
    DivMod(v, a * b, q, t * a + r);
  }

  /** Quotient and remainder are the only such decomposition. */
  lemma DivMod(a: int, m: int, q: int, r: int)
    requires m > 0 && a == q * m + r && 0 <= r < m
    ensures a / m == q && a % m == r
  {
    Parts(a, m);
    var p := a / m;
    if p > q {
      Apart(q, p, m);
    } else if p < q {
      Apart(p, q, m);
    }
  }
}
