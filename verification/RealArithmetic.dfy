/** Order facts about real products and quotients that the solver does not find unaided. */
module RealArithmetic {

  lemma ScaleLess(a: real, b: real, d: real)
    requires d > 0.0
    ensures a < b <==> a * d < b * d
  {
    if a < b {
      assert (b - a) * d > 0.0;
    } else {
      assert (a - b) * d >= 0.0;
    }
  }

  /** A product, with the facts about it proved once. */
  function Scaled(x: real, d: real): real {
    x * d
  }

  lemma ScaledLess(a: real, b: real, d: real)
    requires d > 0.0
    ensures a < b <==> Scaled(a, d) < Scaled(b, d)
  {
    ScaleLess(a, b, d);
  }

  lemma ScaledZero(x: real)
    ensures Scaled(x, 0.0) == 0.0
  {
  }

  lemma ScaledOne(d: real)
    ensures Scaled(1.0, d) == d
  {
  }

  lemma ScaledAssociate(x: real, y: real, d: real)
    ensures Scaled(x * y, d) == Scaled(x, Scaled(y, d))
  {
  }

  lemma ScaledNext(x: real, d: real)
    ensures Scaled(x, d + 1.0) == Scaled(x, d) + x
  {
  }

  /** Comparing a quotient with r is comparing the dividend with r times the divisor. */
  lemma QuotientCompares(x: real, y: real, r: real)
    requires y > 0.0
    ensures x / y < r <==> x < r * y
    ensures x / y > r <==> x > r * y
  {
    assert (x / y) * y == x;
    ScaleLess(x / y, r, y);
    ScaleLess(r, x / y, y);
  }

  lemma QuotientLess(x: real, y: real, d: real)
    requires x < y && d > 0.0
    ensures x / d < y / d
  {
    QuotientCompares(x, d, y / d);
    assert (y / d) * d == y;
  }
}
