/**
 * Two-dimensional vectors over the reals, standing for the p5 `Vector`
 * operations the physics uses (add, sub, mult, div, dot, magSq, reflect).
 * Square roots are avoided: every length comparison is made on squared
 * lengths, and reflection is written so that it needs no normalisation.
 */
module Vectors {

  datatype Vec = Vec(x: real, y: real)

  const Zero: Vec := Vec(0.0, 0.0)

  function Add(a: Vec, b: Vec): Vec {
    Vec(a.x + b.x, a.y + b.y)
  }

  /** `a - b`, as p5's `Vector.sub(a, b)`. */
  function Sub(a: Vec, b: Vec): Vec {
    Vec(a.x - b.x, a.y - b.y)
  }

  function Scale(k: real, a: Vec): Vec {
    Vec(k * a.x, k * a.y)
  }

  /** p5's `div` by a scalar; every caller in the model divides by a non-zero amount. */
  function Div(a: Vec, k: real): Vec
    requires k != 0.0
  {
    Vec(a.x / k, a.y / k)
  }

  lemma AddAssoc(a: Vec, b: Vec, c: Vec)
    ensures Add(Add(a, b), c) == Add(a, Add(b, c))
  {
  }

  function Dot(a: Vec, b: Vec): real {
    a.x * b.x + a.y * b.y
  }

  /** The squared length (p5 `magSq`). */
  function MagSq(a: Vec): (r: real)
    ensures r >= 0.0
  {
    SquareNonNegative(a.x);
    SquareNonNegative(a.y);
    a.x * a.x + a.y * a.y
  }

  /** The squared distance between two points (p5 `dist`, squared). */
  function DistSq(a: Vec, b: Vec): (r: real)
    ensures r >= 0.0
  {
    MagSq(Sub(a, b))
  }

  /**
   * Products, named so that facts about them survive the solver's own
   * rewriting of squares.
   */
  function Mul(t: real, u: real): real {
    t * u
  }

  lemma ProductPositive(t: real, u: real)
    requires t > 0.0 && u > 0.0
    ensures Mul(t, u) > 0.0
  {
  }

  lemma SquarePositive(t: real)
    requires t != 0.0
    ensures Mul(t, t) > 0.0
  {
    if t > 0.0 {
      ProductPositive(t, t);
    } else {
      ProductPositive(-t, -t);
      assert Mul(-t, -t) == Mul(t, t);
    }
  }

  lemma SquareNonNegative(t: real)
    ensures Mul(t, t) >= 0.0
  {
    if t != 0.0 {
      SquarePositive(t);
    }
  }

  /** The squared length vanishes exactly on the zero vector. */
  lemma MagSqZero(a: Vec)
    ensures MagSq(a) == 0.0 <==> a == Zero
  {
    SquareNonNegative(a.x);
    SquareNonNegative(a.y);
    if a.x != 0.0 {
      SquarePositive(a.x);
    } else if a.y != 0.0 {
      SquarePositive(a.y);
    }
  }

  /** The vector `(-e.y, e.x)`: `e` turned a quarter turn. */
  function Perp(e: Vec): Vec {
    Vec(-e.y, e.x)
  }

  /**
   * p5's `v.reflect(n)`: p5 first normalises `n` (a zero vector stays zero)
   * and returns `v - 2 (v . n^) n^`. Written with the squared length of `n`,
   * this is `v - (2 (v . n) / |n|^2) n`, and `v` itself when `n` is zero.
   */
  function Reflect(v: Vec, n: Vec): Vec {
    if MagSq(n) == 0.0 then v
    else Sub(v, Scale(ReflectFactor(v, n), n))
  }

  /** The multiple of the normal that reflection subtracts. */
  function ReflectFactor(v: Vec, n: Vec): real
    requires MagSq(n) != 0.0
  {
    2.0 * Dot(v, n) / MagSq(n)
  }

  lemma PerpOrthogonal(e: Vec)
    ensures Dot(Perp(e), e) == 0.0
    ensures MagSq(Perp(e)) == MagSq(e)
  {
  }

  lemma ExpandMagSq(v: Vec, n: Vec, c: real)
    ensures MagSq(Sub(v, Scale(c, n))) == MagSq(v) - 2.0 * c * Dot(v, n) + c * (c * MagSq(n))
  {
    ExpandSquare(v.x, n.x, c);
    ExpandSquare(v.y, n.y, c);
  }

  lemma ExpandSquare(a: real, b: real, c: real)
    ensures (a - c * b) * (a - c * b) == a * a - 2.0 * c * (a * b) + c * (c * (b * b))
  {
  }

  lemma ExpandDot(v: Vec, n: Vec, c: real, w: Vec)
    ensures Dot(Sub(v, Scale(c, n)), w) == Dot(v, w) - c * Dot(n, w)
  {
  }

  lemma DivMul(a: real, m: real)
    requires m != 0.0
    ensures a / m * m == a
  {
  }

  lemma MulCancel(a: real, b: real, m: real)
    requires m != 0.0
    requires a * m == b * m
    ensures a == b
  {
    assert a == a * m / m;
  }

  /** Reflection keeps the speed: no energy is gained or lost in a bounce. */
  lemma ReflectPreservesMagSq(v: Vec, n: Vec)
    ensures MagSq(Reflect(v, n)) == MagSq(v)
  {
    var m := MagSq(n);
    if m != 0.0 {
      var d := Dot(v, n);
      var c := ReflectFactor(v, n);
      ExpandMagSq(v, n, c);
      DivMul(2.0 * d, m);
      assert c * m == 2.0 * d;
      assert c * (c * m) == c * (2.0 * d);
    }
  }

  /** The component along a non-zero normal changes sign; the tangential one is kept. */
  lemma ReflectNegatesNormalComponent(v: Vec, n: Vec)
    requires n != Zero
    ensures Dot(Reflect(v, n), n) == -Dot(v, n)
    ensures Dot(Reflect(v, n), Perp(n)) == Dot(v, Perp(n))
  {
    MagSqZero(n);
    var m := MagSq(n);
    var c := ReflectFactor(v, n);
    ExpandDot(v, n, c, n);
    ExpandDot(v, n, c, Perp(n));
    PerpOrthogonal(n);
    DivMul(2.0 * Dot(v, n), m);
  }

  /** Only the direction of the normal matters, so an unnormalised normal gives p5's result. */
  lemma ReflectScaleInvariant(v: Vec, n: Vec, k: real)
    requires k > 0.0
    ensures Reflect(v, Scale(k, n)) == Reflect(v, n)
  {
    var kn := Scale(k, n);
    MagSqScale(k, n);
    SquarePositive(k);
    if MagSq(n) != 0.0 {
      ScaledFactor(v, n, k);
      var c' := ReflectFactor(v, kn);
      ScaleOfScale(c', k, n);
    } else {
      assert MagSq(kn) == 0.0;
    }
  }

  lemma ScaleOfScale(a: real, b: real, n: Vec)
    ensures Scale(a, Scale(b, n)) == Scale(a * b, n)
  {
  }

  lemma MagSqScale(k: real, n: Vec)
    ensures MagSq(Scale(k, n)) == (k * k) * MagSq(n)
  {
  }

  /** Scaling the normal by `k` divides the reflection factor by `k`. */
  lemma ScaledFactor(v: Vec, n: Vec, k: real)
    requires k > 0.0 && MagSq(n) != 0.0
    ensures MagSq(Scale(k, n)) != 0.0
    ensures ReflectFactor(v, Scale(k, n)) * k == ReflectFactor(v, n)
  {
    var kn := Scale(k, n);
    var m := MagSq(n);
    var d := Dot(v, n);
    MagSqScale(k, n);
    SquarePositive(k);
    if MagSq(kn) == 0.0 {
      MulCancel(k * k, 0.0, m);
    }
    assert Dot(v, kn) == k * d;
    var c := ReflectFactor(v, n);
    var c' := ReflectFactor(v, kn);
    DivMul(2.0 * d, m);
    DivMul(2.0 * (k * d), (k * k) * m);
    assert c' * ((k * k) * m) == 2.0 * (k * d);
    assert (c' * k) * (k * m) == c * (k * m);
    MulCancel(c' * k, c, k * m);
  }

  /** Reflecting twice about the same normal gives the velocity back. */
  lemma ReflectInvolutive(v: Vec, n: Vec)
    ensures Reflect(Reflect(v, n), n) == v
  {
    var m := MagSq(n);
    if m != 0.0 {
      var c := ReflectFactor(v, n);
      var r := Reflect(v, n);
      ExpandDot(v, n, c, n);
      DivMul(2.0 * Dot(v, n), m);
      assert Dot(r, n) == -Dot(v, n);
      assert ReflectFactor(r, n) == -c;
    }
  }
}
