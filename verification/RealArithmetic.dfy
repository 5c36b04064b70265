/** The few facts about products and quotients of reals that the score proofs need. */
module RealArithmetic {
  lemma ProductOrdered(w: real, x: real, y: real)
    requires 0.0 <= w && x <= y
    ensures w * x <= w * y
  {}

  lemma ProductsOrdered(w: real, x: real, y: real, wx: real, wy: real)
    requires 0.0 <= w && x <= y && wx == w * x && wy == w * y
    ensures wx <= wy
  {
    ProductOrdered(w, x, y);
  }

  lemma ProductBounds(x: real, y: real)
    requires 0.0 <= x <= 1.0 && 0.0 <= y <= 1.0
    ensures 0.0 <= x * y <= x && x * y <= y
  {
    ProductOrdered(x, y, 1.0);
    ProductOrdered(y, x, 1.0);
    ProductOrdered(x, 0.0, y);
  }

  lemma DivideBack(x: real, t: real)
    requires t > 0.0
    ensures t * (x / t) == x
  {}

  lemma QuotientBounds(n: real, d: real, lo: real, hi: real)
    requires d > 0.0 && lo * d <= n <= hi * d
    ensures lo <= n / d <= hi
  {
    var q := n / d;
    assert q * d == n;
    if q < lo { ProductStrict(d, q, lo); }
    if q > hi { ProductStrict(d, hi, q); }
  }

  lemma ProductStrict(d: real, x: real, y: real)
    requires d > 0.0 && x < y
    ensures x * d < y * d
  {}

  lemma QuotientOrdered(x: real, y: real, d: real)
    requires d > 0.0 && x <= y
    ensures x / d <= y / d
  {
    QuotientBounds(x, d, x / d, y / d);
  }

  lemma QuotientScales(n: real, d: real, k: real)
    requires d > 0.0 && k > 0.0 && k * d > 0.0
    ensures (k * n) / (k * d) == n / d
  {
    var q := n / d;
    assert q * d == n;
    assert k * n == k * (q * d) == q * (k * d);
    QuotientBounds(k * n, k * d, q, q);
  }

  lemma UnitFactor(t: real, x: real, product: real)
    requires t > 0.0 && product == t && product == t * x
    ensures x == 1.0
  {
    if x < 1.0 { ProductStrict(t, x, 1.0); }
    if x > 1.0 { ProductStrict(t, 1.0, x); }
  }
}
