/** Real arithmetic shared by the other modules. Products are passed as parameters where
    that keeps a step linear. */
module Arithmetic {

  /** A product, named so that a proof can hide its arithmetic. */
  function Times(x: real, y: real): real {
    x * y
  }

  function Min(x: real, y: real): real {
    if y < x then y else x
  }

  function Max(x: real, y: real): real {
    if y > x then y else x
  }

  function Abs(x: real): real {
    if x < 0.0 then -x else x
  }

  lemma NonNegative(a: real, b: real)
    requires 0.0 <= a && 0.0 <= b
    ensures 0.0 <= a * b
  {
  }

  lemma PositiveProduct(x: real, y: real, xy: real)
    requires 0.0 < x && 0.0 < y && xy == x * y
    ensures 0.0 < xy
  {
  }

  lemma Associate(k: real, x: real, y: real, kx: real)
    requires kx == k * x
    ensures kx * y == k * (x * y)
  {
  }

  lemma Quotient(a: real, b: real)
    requires 0.0 <= a && 0.0 < b
    ensures a / b * b == a && 0.0 <= a / b
  {
    var q := a / b;
    assert q * b == a;
    if q < 0.0 {
      PositiveProduct(-q, b, -q * b);
    }
  }

  /** Squares keep the order of non-negative numbers. */
  lemma SquareOrder(r: real, c: real)
    requires 0.0 <= r && 0.0 <= c
    ensures r <= c <==> r * r <= c * c
  {
    if r <= c {
      NonNegative(r, c - r);
      NonNegative(c, c - r);
    } else {
      NonNegative(c, r - c);
      assert 0.0 < r * (r - c);
    }
  }
}
