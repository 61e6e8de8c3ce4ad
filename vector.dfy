/**
 * Three-dimensional vectors and rays (src/vector.rs). `Float` is a real
 * number here; rounding is not modelled.
 */
module Vector {
  import opened Maths

  /** A vector; a plain value, copied wherever it is passed. */
  datatype Vec3 = Vec3(x: real, y: real, z: real)

  /** The value the source gives `PI`, to five decimals. */
  const PI: real := 3.14159

  const ZERO: Vec3 := Vec3(0.0, 0.0, 0.0)
  const X: Vec3 := Vec3(1.0, 0.0, 0.0)
  const Y: Vec3 := Vec3(0.0, 1.0, 0.0)
  const Z: Vec3 := Vec3(0.0, 0.0, 1.0)

  /** A ray: an origin and a direction, not necessarily of unit length. `Ray::new` is the constructor. */
  datatype Ray = Ray(origin: Vec3, direction: Vec3)

  function Dot(u: Vec3, v: Vec3): real
  {
    u.x * v.x + u.y * v.y + u.z * v.z
  }

  function Cross(u: Vec3, v: Vec3): Vec3
  {
    Vec3(u.y * v.z - u.z * v.y,
         u.z * v.x - u.x * v.z,
         u.x * v.y - u.y * v.x)
  }

  /** The squared length is never negative, and is zero only for the zero vector. */
  function NormSquared(v: Vec3): (r: real)
    ensures r >= 0.0
    ensures r == 0.0 <==> v == ZERO
  {
    DotOfEquals(v, v);
    Dot(v, v)
  }

  /** The length: the non-negative number whose square is the squared length. */
  function Norm(m: Maths, v: Vec3): (r: real)
    ensures m.Valid() ==> r >= 0.0 && r * r == NormSquared(v)
    ensures m.Valid() && v != ZERO ==> r > 0.0
  {
    m.sqrt(NormSquared(v))
  }

  function Neg(v: Vec3): Vec3
  {
    Vec3(-v.x, -v.y, -v.z)
  }

  function Add(u: Vec3, v: Vec3): Vec3
  {
    Vec3(u.x + v.x, u.y + v.y, u.z + v.z)
  }

  function Sub(u: Vec3, v: Vec3): Vec3
  {
    Vec3(u.x - v.x, u.y - v.y, u.z - v.z)
  }

  /** `Float * Vec3`; the source has no product the other way round. */
  function Scale(k: real, v: Vec3): Vec3
  {
    Vec3(k * v.x, k * v.y, k * v.z)
  }

  /** `Vec3 / Float`, defined for a non-zero divisor. */
  function Div(v: Vec3, k: real): Vec3
    requires k != 0.0
  {
    Vec3(v.x / k, v.y / k, v.z / k)
  }

  /** Division by k undoes scaling by k. */
  lemma ScaleDiv(v: Vec3, k: real)
    requires k != 0.0
    ensures Scale(k, Div(v, k)) == v
  {
    DivMul(v.x, k);
    DivMul(v.y, k);
    DivMul(v.z, k);
  }

  /**
   * The unit vector along a non-zero vector: it has length one, and the
   * vector is its length times that unit vector.
   */
  function Normalise(m: Maths, v: Vec3): (r: Vec3)
    requires m.Valid()
    requires v != ZERO
    ensures NormSquared(r) == 1.0
    ensures Scale(Norm(m, v), r) == v
  {
    var n := Norm(m, v);
    var r := Div(v, n);
    var q := NormSquared(v);
    ScaleDiv(v, n);
    NormSquaredScale(n, r);
    UnitFactor(q, n * n, NormSquared(r));
    r
  }

  /** `Ray::eval`, which the shown source uses but does not define: the point at parameter t. */
  function Eval(ray: Ray, t: real): Vec3
  {
    Add(ray.origin, Scale(t, ray.direction))
  }

  // ---------------------------------------------------------------------
  // Algebraic laws of the operators

  lemma DotSymmetric(u: Vec3, v: Vec3)
    ensures Dot(u, v) == Dot(v, u)
  {
  }

  /** The dot product is linear in its first argument. */
  lemma DotLinear(a: Vec3, t: real, b: Vec3, c: Vec3)
    ensures Dot(Add(a, Scale(t, b)), c) == Dot(a, c) + t * Dot(b, c)
  {
  }

  lemma DotScaleLeft(k: real, a: Vec3, b: Vec3)
    ensures Dot(Scale(k, a), b) == k * Dot(a, b)
  {
  }

  /**
   * The dot product of a vector with (a copy of) itself is never negative
   * and is positive for a non-zero vector. The two arguments are kept
   * apart so that each product is one of two equal factors.
   */
  lemma DotOfEquals(u: Vec3, v: Vec3)
    requires u == v
    ensures Dot(u, v) >= 0.0
    ensures u != ZERO ==> Dot(u, v) > 0.0
  {
    assert Dot(u, v) == u.x * v.x + u.y * v.y + u.z * v.z;
    ProductOfEquals(u.x, v.x);
    ProductOfEquals(u.y, v.y);
    ProductOfEquals(u.z, v.z);
  }

  /** The cross product is orthogonal to both of its arguments. */
  lemma CrossOrthogonal(u: Vec3, v: Vec3)
    ensures Dot(Cross(u, v), u) == 0.0 && Dot(Cross(u, v), v) == 0.0
  {
  }

  /** Swapping the arguments of the cross product negates it. */
  lemma CrossAntiCommutative(u: Vec3, v: Vec3)
    ensures Cross(u, v) == Neg(Cross(v, u))
  {
  }

  /** The cross product distributes over a sum in its first argument. */
  lemma CrossAddLeft(a: Vec3, b: Vec3, n: Vec3)
    ensures Cross(Add(a, b), n) == Add(Cross(a, n), Cross(b, n))
  {
  }

  lemma CrossScaleLeft(k: real, v: Vec3, n: Vec3)
    ensures Cross(Scale(k, v), n) == Scale(k, Cross(v, n))
  {
    var c := Cross(v, n);
    assert (k * v.y) * n.z - (k * v.z) * n.y == k * c.x;
    assert (k * v.z) * n.x - (k * v.x) * n.z == k * c.y;
    assert (k * v.x) * n.y - (k * v.y) * n.x == k * c.z;
  }

  /** A vector crossed with a multiple of itself gives zero. */
  lemma CrossParallel(t: real, n: Vec3)
    ensures Cross(Scale(t, n), n) == ZERO
  {
  }

  /** Adding a multiple of `n` does not change the cross product with `n`. */
  lemma CrossAddMultiple(k: real, v: Vec3, t: real, n: Vec3)
    ensures Cross(Add(Scale(k, v), Scale(t, n)), n) == Scale(k, Cross(v, n))
  {
    CrossAddLeft(Scale(k, v), Scale(t, n), n);
    CrossScaleLeft(k, v, n);
    CrossParallel(t, n);
  }

  lemma NegInvolutive(a: Vec3)
    ensures Neg(Neg(a)) == a
  {
  }

  lemma AddNeg(a: Vec3)
    ensures Add(a, Neg(a)) == ZERO
  {
  }

  /** Subtraction is addition of the negation. */
  lemma SubIsAddNeg(a: Vec3, b: Vec3)
    ensures Sub(a, b) == Add(a, Neg(b))
  {
  }

  lemma ScaleDistributes(k: real, a: Vec3, b: Vec3)
    ensures Scale(k, Add(a, b)) == Add(Scale(k, a), Scale(k, b))
  {
  }

  lemma ScaleOne(v: Vec3)
    ensures Scale(1.0, v) == v
  {
  }

  lemma ScaleScale(a: real, b: real, v: Vec3)
    ensures Scale(a, Scale(b, v)) == Scale(a * b, v)
  {
  }

  /** Scaling a vector scales its squared length by the square of the factor. */
  lemma NormSquaredScale(k: real, v: Vec3)
    ensures NormSquared(Scale(k, v)) == k * k * NormSquared(v)
  {
  }

  /** A non-zero factor can be cancelled. */
  lemma ScaleCancel(k: real, u: Vec3, v: Vec3)
    requires k != 0.0
    requires Scale(k, u) == Scale(k, v)
    ensures u == v
  {
    assert u.x == k * u.x / k == k * v.x / k == v.x;
    assert u.y == k * u.y / k == k * v.y / k == v.y;
    assert u.z == k * u.z / k == k * v.z / k == v.z;
  }

  /** A non-zero multiple of a non-zero vector is non-zero. */
  lemma ScaleNonZero(k: real, v: Vec3)
    requires k != 0.0 && v != ZERO
    ensures Scale(k, v) != ZERO
  {
    if Scale(k, v) == ZERO {
      assert Scale(k, ZERO) == ZERO;
      ScaleCancel(k, v, ZERO);
    }
  }

  /** A vector orthogonal to `e` is orthogonal to the unit vector along `e`. */
  lemma NormaliseOrthogonal(m: Maths, e: Vec3, u: Vec3)
    requires m.Valid() && e != ZERO
    requires Dot(e, u) == 0.0
    ensures Dot(Normalise(m, e), u) == 0.0
  {
    var k := Norm(m, e);
    var n := Normalise(m, e);
    DotScaleLeft(k, n, u);
    ZeroProduct(k, Dot(n, u));
  }

  /** A unit vector is its own normalisation. */
  lemma NormaliseUnit(m: Maths, u: Vec3)
    requires m.Valid()
    requires NormSquared(u) == 1.0
    ensures Normalise(m, u) == u
  {
    SqrtOfSquare(m, 1.0);
    var r := Normalise(m, u);
    assert Scale(1.0, r) == u;
  }

  /** Normalising a positive multiple of a unit vector gives back the unit vector. */
  lemma NormaliseScaledUnit(m: Maths, k: real, u: Vec3)
    requires m.Valid()
    requires k > 0.0 && NormSquared(u) == 1.0
    ensures Scale(k, u) != ZERO
    ensures Normalise(m, Scale(k, u)) == u
  {
    var w := Scale(k, u);
    ScaleNonZero(k, u);
    NormSquaredScale(k, u);
    assert NormSquared(w) == k * k;
    SqrtOfSquare(m, k);
    assert Norm(m, w) == k;
    ScaleCancel(k, Normalise(m, w), u);
  }
}
