/** Facts about products and quotients that the solver does not find by itself. */
module Arithmetic {

  lemma MulOrder(a: int, b: int, n: int)
    requires n > 0
    ensures a <= b <==> a * n <= b * n
  {
  }

  lemma MulMonotone(a: int, b: int, n: int)
    requires n >= 0 && a <= b
    ensures a * n <= b * n
  {
  }

  lemma DivUnique(q: int, r: int, n: int)
    requires n > 0 && 0 <= r < n
    ensures (q * n + r) / n == q && (q * n + r) % n == r
  {
    var x := q * n + r;
    var d := x / n;
    assert x == d * n + x % n;
    assert (d + 1) * n == d * n + n && (q + 1) * n == q * n + n;
    MulOrder(d + 1, q, n);
    MulOrder(q + 1, d, n);
  }

  lemma MultipleMod(q: int, n: int)
    requires n > 0
    ensures (q * n) % n == 0 && (q * n) / n == q
  {
    DivUnique(q, 0, n);
  }
}
