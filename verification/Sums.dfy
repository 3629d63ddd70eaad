/** Sums over a set of symbols: `sum(... for s in ...)` over a dictionary. */
module Sums {
  import opened Arithmetic
  import opened Ordering

  type Vector = string -> real

  function Sum(keys: set<string>, f: Vector): real {
    if keys == {} then 0.0
    else
      var k := Least(keys);
      f(k) + Sum(keys - {k}, f)
  }

  /** The order of addition does not matter: any key may be taken out first. */
  lemma {:induction false} SumRemove(keys: set<string>, k: string, f: Vector)
    requires k in keys
    ensures Sum(keys, f) == f(k) + Sum(keys - {k}, f)
  {
    var m := Least(keys);
    if m != k {
      SumRemove(keys - {m}, k, f);
      SumRemove(keys - {k}, m, f);
      assert keys - {m} - {k} == keys - {k} - {m};
    }
  }

  lemma SumAdd(keys: set<string>, k: string, f: Vector)
    requires k !in keys
    ensures Sum(keys + {k}, f) == Sum(keys, f) + f(k)
  {
    SumRemove(keys + {k}, k, f);
    assert keys + {k} - {k} == keys;
  }

  /** h = a*f + b*g, key by key. */
  ghost predicate Combines(keys: set<string>, a: real, f: Vector, b: real, g: Vector, h: Vector) {
    forall k {:trigger h(k)} :: k in keys ==> h(k) == a * f(k) + b * g(k)
  }

  /** A pointwise linear combination carries over to the sums. */
  lemma {:induction false} SumLinear(keys: set<string>, a: real, f: Vector, b: real, g: Vector, h: Vector)
    requires Combines(keys, a, f, b, g, h)
    ensures Sum(keys, h) == a * Sum(keys, f) + b * Sum(keys, g)
  {
    if keys != {} {
      var k := Least(keys);
      SumLinear(keys - {k}, a, f, b, g, h);
    }
  }

  lemma SumScaled(keys: set<string>, a: real, f: Vector, h: Vector)
    requires forall k :: k in keys ==> h(k) == a * f(k)
    ensures Sum(keys, h) == a * Sum(keys, f)
  {
    forall k | k in keys ensures h(k) == a * f(k) + 0.0 * f(k) {}
    SumLinear(keys, a, f, 0.0, f, h);
  }

  lemma {:induction false} SumMonotone(keys: set<string>, f: Vector, g: Vector)
    requires forall k :: k in keys ==> f(k) <= g(k)
    ensures Sum(keys, f) <= Sum(keys, g)
  {
    if keys != {} {
      var k := Least(keys);
      SumMonotone(keys - {k}, f, g);
    }
  }

  lemma SumEqual(keys: set<string>, f: Vector, g: Vector)
    requires forall k :: k in keys ==> f(k) == g(k)
    ensures Sum(keys, f) == Sum(keys, g)
  {
    SumMonotone(keys, f, g);
    SumMonotone(keys, g, f);
  }

  lemma {:induction false} SumNonNegative(keys: set<string>, f: Vector)
    requires forall k :: k in keys ==> 0.0 <= f(k)
    ensures 0.0 <= Sum(keys, f)
  {
    if keys != {} {
      SumNonNegative(keys - {Least(keys)}, f);
    }
  }

  lemma SumAtLeastOne(keys: set<string>, k: string, f: Vector)
    requires k in keys
    requires forall j :: j in keys ==> 0.0 <= f(j)
    ensures f(k) <= Sum(keys, f)
  {
    SumRemove(keys, k, f);
    SumNonNegative(keys - {k}, f);
  }

  lemma {:induction false} SumZero(keys: set<string>, f: Vector)
    requires forall k :: k in keys ==> f(k) == 0.0
    ensures Sum(keys, f) == 0.0
  {
    if keys != {} {
      SumZero(keys - {Least(keys)}, f);
    }
  }

  /** Keys that contribute nothing may be added. */
  lemma {:induction false} SumWiden(small: set<string>, large: set<string>, f: Vector)
    requires small <= large
    requires forall k :: k in large - small ==> f(k) == 0.0
    ensures Sum(small, f) == Sum(large, f)
    decreases large
  {
    if small != large {
      assert large - small != {} by { assert forall k :: k in large ==> k in small || k in large - small; }
      var k := Least(large - small);
      SumRemove(large, k, f);
      SumWiden(small, large - {k}, f);
    }
  }

  /** `weights.get(symbol, ZERO)`. */
  function Get(w: map<string, real>, s: string): real {
    if s in w then w[s] else 0.0
  }

  function Entry(w: map<string, real>): Vector {
    s => Get(w, s)
  }

  function Product(f: Vector, g: Vector): Vector {
    s => f(s) * g(s)
  }

  /** `sum(w.values())`. */
  function Total(w: map<string, real>): real {
    Sum(w.Keys, Entry(w))
  }

  lemma TotalOver(w: map<string, real>, keys: set<string>)
    requires w.Keys <= keys
    ensures Total(w) == Sum(keys, Entry(w))
  {
    SumWiden(w.Keys, keys, Entry(w));
  }

  /** `sum(w * coefficients.get(s, ZERO) for s, w in weights.items())`. */
  function Dot(w: map<string, real>, c: map<string, real>): real {
    Sum(w.Keys, Product(Entry(w), Entry(c)))
  }

  lemma DotOver(w: map<string, real>, c: map<string, real>, keys: set<string>)
    requires w.Keys <= keys
    ensures Dot(w, c) == Sum(keys, Product(Entry(w), Entry(c)))
  {
    SumWiden(w.Keys, keys, Product(Entry(w), Entry(c)));
  }

  /** The quadratic form w' C w of a covariance given as nested dictionaries. */
  type Covariance = map<string, map<string, real>>

  function Cell(c: Covariance, a: string, b: string): real {
    if a in c then Get(c[a], b) else 0.0
  }

  function CellProduct(x: Vector, y: Vector, c: Covariance, a: string): Vector {
    b => x(a) * y(b) * Cell(c, a, b)
  }

  function RowSum(keys: set<string>, x: Vector, y: Vector, c: Covariance): Vector {
    a => Sum(keys, CellProduct(x, y, c, a))
  }

  function Bilinear(keys: set<string>, x: Vector, y: Vector, c: Covariance): real {
    Sum(keys, RowSum(keys, x, y, c))
  }

  function Variance(w: map<string, real>, c: Covariance): real {
    Bilinear(w.Keys, Entry(w), Entry(w), c)
  }

  lemma VarianceOver(w: map<string, real>, c: Covariance, keys: set<string>)
    requires w.Keys <= keys
    ensures Variance(w, c) == Bilinear(keys, Entry(w), Entry(w), c)
  {
    var x := Entry(w);
    var narrow, wide := RowSum(w.Keys, x, x, c), RowSum(keys, x, x, c);
    forall a ensures narrow(a) == wide(a) {
      SumWiden(w.Keys, keys, CellProduct(x, x, c, a));
    }
    SumEqual(w.Keys, narrow, wide);
    forall a | a in keys - w.Keys ensures wide(a) == 0.0 {
      SumZero(keys, CellProduct(x, x, c, a));
    }
    SumWiden(w.Keys, keys, wide);
  }

  /** The form is linear in its first argument ... */
  lemma BilinearLeft(keys: set<string>, p: real, x: Vector, q: real, z: Vector, h: Vector, y: Vector, c: Covariance)
    requires Combines(keys, p, x, q, z, h)
    ensures Bilinear(keys, h, y, c) == p * Bilinear(keys, x, y, c) + q * Bilinear(keys, z, y, c)
  {
    hide Sum;
    var rh, rx, rz := RowSum(keys, h, y, c), RowSum(keys, x, y, c), RowSum(keys, z, y, c);
    forall a | a in keys ensures rh(a) == p * rx(a) + q * rz(a) {
      RowLeft(keys, p, x, q, z, h, y, c, a);
    }
    SumLinear(keys, p, rx, q, rz, rh);
  }

  lemma RowLeft(keys: set<string>, p: real, x: Vector, q: real, z: Vector, h: Vector, y: Vector, c: Covariance, a: string)
    requires h(a) == p * x(a) + q * z(a)
    ensures RowSum(keys, h, y, c)(a) == p * RowSum(keys, x, y, c)(a) + q * RowSum(keys, z, y, c)(a)
  {
    hide Sum;
    var ch, cx, cz := CellProduct(h, y, c, a), CellProduct(x, y, c, a), CellProduct(z, y, c, a);
    forall b | b in keys ensures ch(b) == p * cx(b) + q * cz(b) {
      Distribute(p, x(a), q, z(a), y(b), Cell(c, a, b), h(a));
    }
    SumLinear(keys, p, cx, q, cz, ch);
  }

  /** ... and in its second. */
  lemma BilinearRight(keys: set<string>, y: Vector, p: real, x: Vector, q: real, z: Vector, h: Vector, c: Covariance)
    requires Combines(keys, p, x, q, z, h)
    ensures Bilinear(keys, y, h, c) == p * Bilinear(keys, y, x, c) + q * Bilinear(keys, y, z, c)
  {
    hide Sum;
    var rh, rx, rz := RowSum(keys, y, h, c), RowSum(keys, y, x, c), RowSum(keys, y, z, c);
    forall a | a in keys ensures rh(a) == p * rx(a) + q * rz(a) {
      RowRight(keys, y, p, x, q, z, h, c, a);
    }
    SumLinear(keys, p, rx, q, rz, rh);
  }

  lemma RowRight(keys: set<string>, y: Vector, p: real, x: Vector, q: real, z: Vector, h: Vector, c: Covariance, a: string)
    requires Combines(keys, p, x, q, z, h)
    ensures RowSum(keys, y, h, c)(a) == p * RowSum(keys, y, x, c)(a) + q * RowSum(keys, y, z, c)(a)
  {
    hide Sum;
    var ch, cx, cz := CellProduct(y, h, c, a), CellProduct(y, x, c, a), CellProduct(y, z, c, a);
    forall b | b in keys ensures ch(b) == p * cx(b) + q * cz(b) {
      Distribute(p, x(b), q, z(b), y(a), Cell(c, a, b), h(b));
    }
    SumLinear(keys, p, cx, q, cz, ch);
  }

  lemma Distribute(p: real, x: real, q: real, z: real, y: real, c: real, h: real)
    requires h == p * x + q * z
    ensures h * y * c == p * (x * y * c) + q * (z * y * c)
    ensures y * h * c == p * (y * x * c) + q * (y * z * c)
  {
    var d := y * c;
    assert h * y * c == h * d && x * y * c == x * d && z * y * c == z * d;
    assert y * h * c == h * d && y * x * c == x * d && y * z * c == z * d;
    assert h * d == p * (x * d) + q * (z * d);
  }

  /** A covariance no book of weights gives a negative variance. */
  ghost predicate PositiveSemidefinite(c: Covariance) {
    forall w: map<string, real> :: 0.0 <= Variance(w, c)
  }

  /** `start + t * (end - start)`, name by name. */
  function Blend(x: map<string, real>, y: map<string, real>, t: real): map<string, real> {
    map s | s in x.Keys + y.Keys :: Between(Get(x, s), Get(y, s), t)
  }

  function Between(start: real, end: real, t: real): real {
    start + t * (end - start)
  }

  lemma BlendCombines(keys: set<string>, x: map<string, real>, y: map<string, real>, t: real)
    ensures Combines(keys, 1.0 - t, Entry(x), t, Entry(y), Entry(Blend(x, y, t)))
  {
    var z := Blend(x, y, t);
    forall s | s in keys ensures Entry(z)(s) == (1.0 - t) * Get(x, s) + t * Get(y, s) {
      assert Get(z, s) == Between(Get(x, s), Get(y, s), t);
    }
  }

  function Scale(k: real, w: map<string, real>): map<string, real> {
    map s | s in w :: k * w[s]
  }

  lemma ScaleAt(k: real, w: map<string, real>, s: string)
    ensures Get(Scale(k, w), s) == k * Get(w, s)
  {
  }

  lemma TotalScale(k: real, w: map<string, real>)
    ensures Total(Scale(k, w)) == k * Total(w)
  {
    hide Sum;
    assert Scale(k, w).Keys == w.Keys;
    SumScaled(w.Keys, k, Entry(w), Entry(Scale(k, w)));
  }

  lemma DotScale(k: real, w: map<string, real>, c: map<string, real>)
    ensures Dot(Scale(k, w), c) == k * Dot(w, c)
  {
    hide Sum;
    assert Scale(k, w).Keys == w.Keys;
    var f, h := Product(Entry(w), Entry(c)), Product(Entry(Scale(k, w)), Entry(c));
    forall s | s in w.Keys ensures h(s) == k * f(s) {
      Associate(k, Get(w, s), Get(c, s), Get(Scale(k, w), s));
    }
    SumScaled(w.Keys, k, f, h);
  }

  /** Scaling a book by k scales its variance by k squared. */
  lemma VarianceScale(k: real, w: map<string, real>, c: Covariance)
    ensures Variance(Scale(k, w), c) == (k * k) * Variance(w, c)
  {
    hide Sum;
    var keys, x, z := w.Keys, Entry(w), Entry(Scale(k, w));
    assert Scale(k, w).Keys == keys;
    assert Combines(keys, k, x, 0.0, x, z) by {
      forall s | s in keys ensures z(s) == k * x(s) + 0.0 * x(s) { ScaleAt(k, w, s); }
    }
    BilinearLeft(keys, k, x, 0.0, x, z, z, c);
    BilinearRight(keys, x, k, x, 0.0, x, z, c);
    Associate(k, k, Bilinear(keys, x, x, c), k * k);
  }

  /** Linear measures of a blend lie between those of its ends. */
  lemma TotalBlend(x: map<string, real>, y: map<string, real>, t: real)
    ensures Total(Blend(x, y, t)) == (1.0 - t) * Total(x) + t * Total(y)
  {
    hide Sum;
    var keys := x.Keys + y.Keys;
    TotalOver(x, keys);
    TotalOver(y, keys);
    BlendCombines(keys, x, y, t);
    assert Blend(x, y, t).Keys == keys;
    SumLinear(keys, 1.0 - t, Entry(x), t, Entry(y), Entry(Blend(x, y, t)));
  }

  lemma DotBlend(x: map<string, real>, y: map<string, real>, t: real, c: map<string, real>)
    ensures Dot(Blend(x, y, t), c) == (1.0 - t) * Dot(x, c) + t * Dot(y, c)
  {
    hide Sum;
    var keys := x.Keys + y.Keys;
    var z := Blend(x, y, t);
    assert z.Keys == keys;
    DotOver(x, c, keys);
    DotOver(y, c, keys);
    BlendCombines(keys, x, y, t);
    ProductCombines(keys, 1.0 - t, Entry(x), t, Entry(y), Entry(z), Entry(c));
    SumLinear(keys, 1.0 - t, Product(Entry(x), Entry(c)), t, Product(Entry(y), Entry(c)), Product(Entry(z), Entry(c)));
  }

  lemma ProductCombines(keys: set<string>, p: real, x: Vector, q: real, y: Vector, h: Vector, c: Vector)
    requires Combines(keys, p, x, q, y, h)
    ensures Combines(keys, p, Product(x, c), q, Product(y, c), Product(h, c))
  {
    forall s | s in keys ensures h(s) * c(s) == p * (x(s) * c(s)) + q * (y(s) * c(s)) {
      Distribute(p, x(s), q, y(s), c(s), 1.0, h(s));
    }
  }

  /** Q(p*x + q*y), multiplied out. */
  function Expanded(p: real, q: real, xx: real, xy: real, yx: real, yy: real): real {
    p * (p * xx + q * xy) + q * (p * yx + q * yy)
  }

  function ExpandedOver(keys: set<string>, p: real, x: Vector, q: real, y: Vector, c: Covariance): real {
    Expanded(p, q, Bilinear(keys, x, x, c), Bilinear(keys, x, y, c), Bilinear(keys, y, x, c), Bilinear(keys, y, y, c))
  }

  lemma VarianceExpand(keys: set<string>, p: real, x: Vector, q: real, y: Vector, h: Vector, c: Covariance)
    requires Combines(keys, p, x, q, y, h)
    ensures Bilinear(keys, h, h, c) == ExpandedOver(keys, p, x, q, y, c)
  {
    hide Bilinear, Combines;
    BilinearLeft(keys, p, x, q, y, h, h, c);
    BilinearRight(keys, x, p, x, q, y, h, c);
    BilinearRight(keys, y, p, x, q, y, h, c);
  }

  /** A covariance no book of weights gives a negative variance has Q(x - y) >= 0, which
      bounds the mixed terms. */
  lemma MixedTerms(x: map<string, real>, y: map<string, real>, c: Covariance)
    requires PositiveSemidefinite(c)
    ensures var keys, f, g := x.Keys + y.Keys, Entry(x), Entry(y);
            Bilinear(keys, f, g, c) + Bilinear(keys, g, f, c)
            <= Bilinear(keys, f, f, c) + Bilinear(keys, g, g, c)
  {
    hide Sum;
    var keys, f, g := x.Keys + y.Keys, Entry(x), Entry(y);
    var d := map s | s in keys :: Get(x, s) - Get(y, s);
    assert Combines(keys, 1.0, f, -1.0, g, Entry(d));
    hide Bilinear;
    VarianceExpand(keys, 1.0, f, -1.0, g, Entry(d), c);
    assert d.Keys == keys;
    assert 0.0 <= Variance(d, c);
  }

  lemma VarianceOfBlend(x: map<string, real>, y: map<string, real>, t: real, c: Covariance)
    ensures Variance(Blend(x, y, t), c) == ExpandedOver(x.Keys + y.Keys, 1.0 - t, Entry(x), t, Entry(y), c)
  {
    hide Bilinear, ExpandedOver, Combines;
    var keys := x.Keys + y.Keys;
    assert Blend(x, y, t).Keys == keys;
    BlendCombines(keys, x, y, t);
    VarianceExpand(keys, 1.0 - t, Entry(x), t, Entry(y), Entry(Blend(x, y, t)), c);
  }

  /** Convexity: a blend of two books is no more variable than the same blend of their
      variances. Symmetry of the covariance is not needed. */
  lemma VarianceConvex(x: map<string, real>, y: map<string, real>, t: real, c: Covariance)
    requires PositiveSemidefinite(c)
    requires 0.0 <= t <= 1.0
    ensures Variance(Blend(x, y, t), c) <= (1.0 - t) * Variance(x, c) + t * Variance(y, c)
  {
    hide Bilinear, Variance, Blend, Expanded, PositiveSemidefinite;
    var keys, f, g := x.Keys + y.Keys, Entry(x), Entry(y);
    VarianceOver(x, c, keys);
    VarianceOver(y, c, keys);
    VarianceOfBlend(x, y, t, c);
    MixedTerms(x, y, c);
    ConvexArithmetic(t, Bilinear(keys, f, f, c), Bilinear(keys, f, g, c), Bilinear(keys, g, f, c), Bilinear(keys, g, g, c));
  }

  lemma ConvexArithmetic(t: real, xx: real, xy: real, yx: real, yy: real)
    requires 0.0 <= t <= 1.0
    requires xy + yx <= xx + yy
    ensures Expanded(1.0 - t, t, xx, xy, yx, yy) <= (1.0 - t) * xx + t * yy
  {
    var u := t * (1.0 - t);
    var slack := xx - xy - yx + yy;
    NonNegative(t, 1.0 - t);
    NonNegative(u, slack);
    assert (1.0 - t) * xx + t * yy
           - ((1.0 - t) * ((1.0 - t) * xx + t * xy) + t * ((1.0 - t) * yx + t * yy))
           == u * (xx - xy - yx + yy);
  }
}
