/** Facts about products and quotients of reals that the solver does not find by itself. */
module RealArithmetic {
  lemma ProductSigns(a: real, b: real)
    ensures a >= 0.0 && b >= 0.0 ==> a * b >= 0.0
    ensures a > 0.0 && b > 0.0 ==> a * b > 0.0
    ensures a < 0.0 && b > 0.0 ==> a * b < 0.0
    ensures a > 0.0 && b < 0.0 ==> a * b < 0.0
    ensures a < 0.0 && b < 0.0 ==> a * b > 0.0
    ensures a <= 0.0 && b >= 0.0 ==> a * b <= 0.0
  {
  }

  lemma QuotientTimes(x: real, d: real)
    requires d != 0.0
    ensures (x / d) * d == x
  {
  }

  lemma QuotientSigns(x: real, d: real)
    requires d != 0.0
    ensures x > 0.0 && d > 0.0 ==> x / d > 0.0
    ensures x > 0.0 && d < 0.0 ==> x / d < 0.0
    ensures x < 0.0 && d > 0.0 ==> x / d < 0.0
    ensures x == 0.0 ==> x / d == 0.0
  {
    QuotientTimes(x, d);
    ProductSigns(x / d, d);
  }

  lemma QuotientSign(y: real, d: real)
    requires d > 0.0
    ensures (y / d < 0.0 <==> y < 0.0) && (y / d == 0.0 <==> y == 0.0)
    ensures (y / d < 1.0 <==> y < d) && (y / d == 1.0 <==> y == d)
  {
    var q := y / d;
    assert q * d == y;
    ProductSigns(q, d);
    ProductSigns(q - 1.0, d);
    assert (q - 1.0) * d == y - d;
  }

  lemma TimesQuotient(q: real, d: real)
    requires d != 0.0
    ensures (q * d) / d == q
  {
  }

  lemma QuotientIncreasing(a: real, b: real, d: real)
    requires a < b && d > 0.0
    ensures a / d < b / d
  {
    assert (a / d) * d == a && (b / d) * d == b;
  }

  /** `x / d <= y` by cross-multiplying. */
  lemma QuotientAtMost(x: real, d: real, y: real)
    requires d > 0.0 && x <= y * d
    ensures x / d <= y
  {
    QuotientTimes(x, d);
    CancelFactor(x / d, y, d);
  }

  lemma CancelFactor(q: real, y: real, d: real)
    requires d > 0.0 && q * d <= y * d
    ensures q <= y
  {
    ProductSigns(q - y, d);
    assert (q - y) * d == q * d - y * d;
  }
}
