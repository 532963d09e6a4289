/** Small facts about real products and quotients. */
module RealArithmetic {

  lemma DivMul(x: real, y: real)
    requires y != 0.0
    ensures x / y * y == x
  {
  }

  lemma Cancel(x: real, y: real, c: real)
    requires c > 0.0
    ensures x * c <= y * c <==> x <= y
    ensures x * c == y * c <==> x == y
  {
    if x < y {
      assert (y - x) * c > 0.0;
    } else if x > y {
      assert (x - y) * c > 0.0;
    }
  }

  lemma Quotient(x: real, y: real, q: real)
    requires y > 0.0 && q * y == x
    ensures x / y == q
  {
    DivMul(x, y);
    Cancel(x / y, q, y);
  }

  /** Relative to a higher peak, the same equity has fallen further. */
  lemma RelativeFallGrows(x: real, low: real, high: real)
    requires 0.0 < low <= high && x >= 0.0
    ensures (low - x) / low <= (high - x) / high
  {
    var a, b := (low - x) / low, (high - x) / high;
    DivMul(low - x, low);
    DivMul(high - x, high);
    Cancel(a, 1.0, low);
    MulNonNegative(1.0 - a, high - low);
    assert (1.0 - a) * (high - low) == (high - low) - (a * high - a * low);
    Cancel(a, b, high);
  }

  lemma MulNonNegative(x: real, y: real)
    requires x >= 0.0 && y >= 0.0
    ensures x * y >= 0.0
  {
  }

  function Sq(x: real): real { x * x }

  lemma SquareVanishes(d: real)
    ensures d == 0.0 ==> Sq(d) == 0.0
    ensures d != 0.0 ==> Sq(d) > 0.0
  {
    if d == 0.0 {
      assert Sq(0.0) == 0.0;
    } else if d < 0.0 {
      SquarePositive(-d);
      assert Sq(-d) == Sq(d);
    } else {
      SquarePositive(d);
    }
  }

  lemma SquarePositive(x: real)
    requires x > 0.0
    ensures Sq(x) > 0.0
  {
    Positive(x, x);
    assert Sq(x) == Times(x, x);
  }

  lemma Positive(x: real, y: real)
    requires x > 0.0 && y > 0.0
    ensures Times(x, y) > 0.0
  {
  }

  lemma QuotientPositive(x: real, y: real)
    requires x > 0.0 && y > 0.0
    ensures x / y > 0.0 && x / y * y == x
  {
    DivMul(x, y);
  }

  lemma RelativeFallBelowOne(peak: real, x: real)
    requires peak > 0.0
    ensures (peak - x) / peak < 1.0 <==> x > 0.0
    ensures (peak - x) / peak <= 1.0 <==> x >= 0.0
  {
    DivMul(peak - x, peak);
    Cancel(1.0, (peak - x) / peak, peak);
    Cancel((peak - x) / peak, 1.0, peak);
  }

  /** Below zero it is the other way round: a lower peak gives a strictly deeper relative fall. */
  lemma RelativeFallShrinks(x: real, low: real, high: real)
    requires 0.0 < low <= high && x < 0.0
    requires (low - x) / low <= (high - x) / high
    ensures low == high
  {
    var a, b := (low - x) / low, (high - x) / high;
    DivMul(low - x, low);
    DivMul(high - x, high);
    Cancel(a, 1.0, low);
    Cancel(a, b, high);
    assert (a - 1.0) * (high - low) == (a * high - a * low) - (high - low);
    if low < high {
      Positive(a - 1.0, high - low);
    }
  }

  function Times(c: real, x: real): real { c * x }

  /** Scaling by c > 0 keeps sign, order, differences and quotients. */
  lemma Scaled(x: real, y: real, c: real)
    requires c > 0.0
    ensures Times(c, x) > Times(c, y) <==> x > y
    ensures Times(c, x) - Times(c, y) == Times(c, x - y)
    ensures Times(c, x) > 0.0 <==> x > 0.0
    ensures Times(c, x) < 0.0 <==> x < 0.0
  {
    Cancel(x, y, c);
    Cancel(x, 0.0, c);
    assert x * c == c * x && y * c == c * y && 0.0 * c == 0.0;
  }

  lemma ScaledQuotient(x: real, y: real, c: real)
    requires c > 0.0 && y > 0.0
    ensures Times(c, y) > 0.0 && Times(c, x) / Times(c, y) == x / y
  {
    Scaled(y, 0.0, c);
    DivMul(x, y);
    Rotate(x / y, c, y);
    Quotient(Times(c, x), Times(c, y), x / y);
  }

  lemma Rotate(p: real, q: real, r: real)
    ensures p * (q * r) == q * (p * r)
  {
  }
}
