// Facts about real division that the score computations need.
module Reals {

  lemma MulPositive(x: real, y: real)
    requires x > 0.0 && y > 0.0
    ensures x * y > 0.0
  {}

  // A quotient of a part by its whole lies in [0, 1], and is 1 only for the whole.
  lemma QuotientInUnit(a: real, r: real)
    requires 0.0 <= a <= r && r > 0.0
    ensures 0.0 <= a / r <= 1.0 && (a / r == 1.0 <==> a == r)
  {
    assert (a / r) * r == a;
    FactorInUnit(a / r, r, a);
  }

  lemma FactorInUnit(q: real, r: real, a: real)
    requires 0.0 <= a <= r && r > 0.0 && q * r == a
    ensures 0.0 <= q <= 1.0 && (q == 1.0 <==> a == r)
  {
    if q > 1.0 { MulAbove(q, r); }
    if q < 0.0 { MulNegative(q, r); }
    if a == r && q < 1.0 { MulBelow(q, r); }
  }

  lemma MulBelow(q: real, r: real)
    requires q < 1.0 && r > 0.0
    ensures q * r < r
  {
    MulPositive(1.0 - q, r);
    assert (1.0 - q) * r == r - q * r;
  }

  lemma MulAbove(q: real, r: real)
    requires q > 1.0 && r > 0.0
    ensures q * r > r
  {
    MulPositive(q - 1.0, r);
    assert (q - 1.0) * r == q * r - r;
  }

  lemma MulNegative(q: real, r: real)
    requires q < 0.0 && r > 0.0
    ensures q * r < 0.0
  {
    MulPositive(-q, r);
    assert (-q) * r == -(q * r);
  }

  // A share of a non-negative weight.
  lemma ShareOfWeight(q: real, w: real)
    requires 0.0 <= q <= 1.0 && w >= 0.0
    ensures 0.0 <= q * w <= w
  {
    assert q * w + (1.0 - q) * w == w;
    if q > 0.0 && w > 0.0 { MulPositive(q, w); }
    if q < 1.0 && w > 0.0 { MulPositive(1.0 - q, w); }
  }

  lemma QuotientOf(a: real, r: real)
    requires r > 0.0
    ensures (a / r) * r == a && 0.0 / r == 0.0 && r / r == 1.0
  {}

  // Quotients by one positive number compare like their dividends, and differ in proportion.
  lemma QuotientsCompare(a: real, b: real, r: real)
    requires r > 0.0
    ensures a < b <==> a / r < b / r
    ensures a == b <==> a / r == b / r
    ensures (a / r - b / r) * r == a - b
  {
    var x, y := a / r, b / r;
    QuotientOf(a, r);
    QuotientOf(b, r);
    MulCompares(x, y, r);
    MulCompares(y, x, r);
    Distributes(x, y, r);
  }

  lemma MulCompares(x: real, y: real, r: real)
    requires r > 0.0
    ensures x < y <==> x * r < y * r
  {
    if x < y { MulKeepsOrder(x, y, r); }
    if y < x { MulKeepsOrder(y, x, r); }
  }

  lemma MulKeepsOrder(x: real, y: real, r: real)
    requires x < y && r > 0.0
    ensures x * r < y * r
  {
    MulPositive(y - x, r);
    Distributes(y, x, r);
  }

  lemma Distributes(x: real, y: real, r: real)
    ensures (x - y) * r == x * r - y * r
  {}

  // Two quotients by r, and two more: their differences are in the proportion of the dividends'.
  lemma QuotientsInProportion(u: real, v: real, w: real, z: real, a: real, b: real, c: real, d: real, r: real)
    requires r > 0.0 && u == a / r && v == b / r && w == c / r && z == d / r
    ensures InProportion(u - v, w - z, a - b, c - d)
  {
    QuotientsCompare(a, b, r);
    QuotientsCompare(c, d, r);
    CrossProducts(u - v, w - z, a - b, c - d, r);
  }

  ghost predicate InProportion(a: real, b: real, p: real, q: real) {
    a * q == b * p
  }

  lemma CrossProducts(a: real, b: real, p: real, q: real, r: real)
    requires a * r == p && b * r == q
    ensures InProportion(a, b, p, q)
  {
    assert a * (b * r) == b * (a * r);
  }
}
