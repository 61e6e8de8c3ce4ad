/**
 * Geometric primitives and their ray intersection tests (src/shape.rs). A
 * shape knows nothing of colour or material; `Hit` is what a test reports.
 */
module Shapes {
  import opened Wrappers
  import opened Maths
  import opened Vector

  /** Where a ray met a surface: the ray parameter, the point, and the surface normal there. */
  datatype Hit = Hit(dist: real, point: Vec3, norm: Vec3)

  /**
   * The shapes whose intersection code is part of this model. A triangle
   * keeps the normal computed when it was built.
   */
  datatype Shape =
    | Triangle(a: Vec3, b: Vec3, c: Vec3, normal: Vec3)
    | Sphere(centre: Vec3, radius: real)

  /** A sphere divides by its radius to get a normal, so the radius is not zero. */
  predicate ValidShape(s: Shape)
  {
    s.Sphere? ==> s.radius != 0.0
  }

  // ---------------------------------------------------------------------
  // Triangles

  /**
   * `Triangle::new`: the vertices are kept as given and the normal is the
   * unit vector along `(b - a) x (c - a)`, so it is orthogonal to both edges
   * from `a`. For collinear vertices the source normalises the zero vector
   * and gets a NaN normal, which no ray can hit; the model stores the zero
   * vector, which no ray can hit either (`DegenerateTriangleMisses`).
   */
  function NewTriangle(m: Maths, a: Vec3, b: Vec3, c: Vec3): (t: Shape)
    requires m.Valid()
    ensures t.Triangle? && t.a == a && t.b == b && t.c == c
    ensures Cross(Sub(b, a), Sub(c, a)) != ZERO ==>
      && NormSquared(t.normal) == 1.0
      && Dot(t.normal, Sub(b, a)) == 0.0 && Dot(t.normal, Sub(c, a)) == 0.0
    ensures Cross(Sub(b, a), Sub(c, a)) != ZERO ==>
      Scale(Norm(m, Cross(Sub(b, a), Sub(c, a))), t.normal) == Cross(Sub(b, a), Sub(c, a))
    ensures Cross(Sub(b, a), Sub(c, a)) == ZERO ==> t.normal == ZERO
  {
    var e := Cross(Sub(b, a), Sub(c, a));
    if e == ZERO then Triangle(a, b, c, ZERO)
    else
      var n := Normalise(m, e);
      CrossOrthogonal(Sub(b, a), Sub(c, a));
      NormaliseOrthogonal(m, e, Sub(b, a));
      NormaliseOrthogonal(m, e, Sub(c, a));
      Triangle(a, b, c, n)
  }

  /** The three edge tests: the point is on the inner side of every edge, seen along the normal. */
  predicate InsideEdges(tri: Shape, p: Vec3)
    requires tri.Triangle?
  {
    && Dot(tri.normal, Cross(Sub(p, tri.a), Sub(tri.b, tri.a))) <= 0.0
    && Dot(tri.normal, Cross(Sub(p, tri.b), Sub(tri.c, tri.b))) <= 0.0
    && Dot(tri.normal, Cross(Sub(p, tri.c), Sub(tri.a, tri.c))) <= 0.0
  }

  /** The ray parameter where a ray that faces the normal crosses the triangle's plane. */
  function PlaneParameter(tri: Shape, ray: Ray): real
    requires tri.Triangle?
    requires Dot(ray.direction, tri.normal) < 0.0
  {
    (Dot(tri.a, tri.normal) - Dot(ray.origin, tri.normal)) / Dot(ray.direction, tri.normal)
  }

  /** The point at that parameter lies in the plane through `a` orthogonal to the normal. */
  lemma PlaneParameterOnPlane(tri: Shape, ray: Ray)
    requires tri.Triangle?
    requires Dot(ray.direction, tri.normal) < 0.0
    ensures Dot(Eval(ray, PlaneParameter(tri, ray)), tri.normal) == Dot(tri.a, tri.normal)
  {
    var t := PlaneParameter(tri, ray);
    DivMul(Dot(tri.a, tri.normal) - Dot(ray.origin, tri.normal), Dot(ray.direction, tri.normal));
    DotLinear(ray.origin, t, ray.direction, tri.normal);
  }

  /**
   * `Triangle::intersect` as the source writes it: single-sided (only a ray
   * against the normal can hit), then the plane solve and the edge tests.
   * A hit is the point of the ray at the hit's distance, lies in the
   * triangle's plane, carries the triangle's normal and passes the three
   * edge tests; a ray facing the normal hits exactly when the point where it
   * crosses the plane passes them. Nothing rejects a crossing behind the
   * ray's origin.
   */
  function TriangleIntersectAsWritten(tri: Shape, ray: Ray): (r: Option<Hit>)
    requires tri.Triangle?
    ensures Dot(ray.direction, tri.normal) >= 0.0 ==> r.None?
    ensures Dot(ray.direction, tri.normal) < 0.0 ==>
      (r.Some? <==> InsideEdges(tri, Eval(ray, PlaneParameter(tri, ray))))
    ensures r.Some? ==>
      && r.value.point == Eval(ray, r.value.dist)
      && Dot(r.value.point, tri.normal) == Dot(tri.a, tri.normal)
      && r.value.norm == tri.normal
      && InsideEdges(tri, r.value.point)
  {
    if Dot(ray.direction, tri.normal) < 0.0 then
      var t := PlaneParameter(tri, ray);
      var p := Eval(ray, t);
      PlaneParameterOnPlane(tri, ray);
      if InsideEdges(tri, p) then Some(Hit(t, p, tri.normal)) else None
    else
      None
  }

  /** A triangle built on collinear vertices is never hit. */
  lemma DegenerateTriangleMisses(m: Maths, a: Vec3, b: Vec3, c: Vec3, ray: Ray)
    requires m.Valid()
    requires Cross(Sub(b, a), Sub(c, a)) == ZERO
    ensures TriangleIntersectAsWritten(NewTriangle(m, a, b, c), ray).None?
  {
  }

  /** A triangle whose edge cross product already has unit length keeps it as its normal. */
  lemma NewTriangleUnitCross(m: Maths, a: Vec3, b: Vec3, c: Vec3)
    requires m.Valid()
    requires NormSquared(Cross(Sub(b, a), Sub(c, a))) == 1.0
    ensures Cross(Sub(b, a), Sub(c, a)) != ZERO
    ensures NewTriangle(m, a, b, c) == Triangle(a, b, c, Cross(Sub(b, a), Sub(c, a)))
  {
    NormaliseUnit(m, Cross(Sub(b, a), Sub(c, a)));
  }

  /** The triangle built on ZERO, X and Y has the normal Z. */
  lemma UnitTriangleNormal(m: Maths)
    requires m.Valid()
    ensures Cross(Sub(X, ZERO), Sub(Y, ZERO)) != ZERO
    ensures NewTriangle(m, ZERO, X, Y) == Triangle(ZERO, X, Y, Z)
  {
    UnitTriangleCross();
    NewTriangleUnitCross(m, ZERO, X, Y);
  }

  lemma UnitTriangleCross()
    ensures Cross(Sub(X, ZERO), Sub(Y, ZERO)) == Z
    ensures NormSquared(Z) == 1.0
  {
    assert Sub(X, ZERO) == X;
    assert Sub(Y, ZERO) == Y;
  }

  // The three edge tests of that triangle at a point (u, v, 0) inside it,
  // one lemma each to keep every proof small.

  lemma UnitTriangleEdgeAB(u: real, v: real)
    requires v >= 0.0
    ensures Dot(Z, Cross(Sub(Vec3(u, v, 0.0), ZERO), Sub(X, ZERO))) <= 0.0
  {
  }

  lemma UnitTriangleEdgeBC(u: real, v: real)
    requires u + v <= 1.0
    ensures Dot(Z, Cross(Sub(Vec3(u, v, 0.0), X), Sub(Y, X))) <= 0.0
  {
  }

  lemma UnitTriangleEdgeCA(u: real, v: real)
    requires u >= 0.0
    ensures Dot(Z, Cross(Sub(Vec3(u, v, 0.0), Y), Sub(ZERO, Y))) <= 0.0
  {
  }

  /**
   * A ray that starts at depth h behind that triangle, below a point of it,
   * and moves away from it is reported as hitting it at distance -h.
   */
  lemma TriangleHitBehindOrigin(u: real, v: real, h: real)
    requires 0.0 <= u && 0.0 <= v && u + v <= 1.0
    ensures TriangleIntersectAsWritten(Triangle(ZERO, X, Y, Z), Ray(Vec3(u, v, -h), Vec3(0.0, 0.0, -1.0)))
      == Some(Hit(-h, Vec3(u, v, 0.0), Z))
  {
    UnitTrianglePlaneBehind(u, v, h);
    UnitTriangleInside(u, v);
  }

  lemma UnitTrianglePlaneBehind(u: real, v: real, h: real)
    ensures Dot(Vec3(0.0, 0.0, -1.0), Z) < 0.0
    ensures PlaneParameter(Triangle(ZERO, X, Y, Z), Ray(Vec3(u, v, -h), Vec3(0.0, 0.0, -1.0))) == -h
    ensures Eval(Ray(Vec3(u, v, -h), Vec3(0.0, 0.0, -1.0)), -h) == Vec3(u, v, 0.0)
  {
  }

  lemma UnitTriangleInside(u: real, v: real)
    requires 0.0 <= u && 0.0 <= v && u + v <= 1.0
    ensures InsideEdges(Triangle(ZERO, X, Y, Z), Vec3(u, v, 0.0))
  {
    UnitTriangleEdgeAB(u, v);
    UnitTriangleEdgeBC(u, v);
    UnitTriangleEdgeCA(u, v);
  }

  /**
   * The triangle test with the crossing required to lie in front of the
   * origin, as for spheres: the same hit as the source's test, or none.
   */
  function TriangleIntersect(tri: Shape, ray: Ray): (r: Option<Hit>)
    requires tri.Triangle?
    ensures r.Some? ==> r.value.dist > 0.0
    ensures r.Some? ==> r == TriangleIntersectAsWritten(tri, ray)
    ensures r.None? && TriangleIntersectAsWritten(tri, ray).Some? ==>
      TriangleIntersectAsWritten(tri, ray).value.dist <= 0.0
  {
    match TriangleIntersectAsWritten(tri, ray)
    case Some(h) => if h.dist > 0.0 then Some(h) else None
    case None => None
  }

  /** The corrected test hits exactly when the source's does, at a positive distance. */
  lemma TriangleIntersectHits(tri: Shape, ray: Ray)
    requires tri.Triangle?
    ensures TriangleIntersect(tri, ray).Some? <==>
      && Dot(ray.direction, tri.normal) < 0.0
      && PlaneParameter(tri, ray) > 0.0
      && InsideEdges(tri, Eval(ray, PlaneParameter(tri, ray)))
  {
  }

  // ---------------------------------------------------------------------
  // Quadratics, for the sphere test

  /** `a t^2 + b t + c`. */
  datatype Quadratic = Quadratic(a: real, b: real, c: real)

  function Value(q: Quadratic, t: real): real
  {
    q.a * t * t + q.b * t + q.c
  }

  predicate IsRoot(q: Quadratic, t: real)
  {
    Value(q, t) == 0.0
  }

  function QuadDiscriminant(q: Quadratic): real
  {
    q.b * q.b - 4.0 * q.a * q.c
  }

  /**
   * Lines 82-94 of the sphere test: no root for a negative discriminant,
   * otherwise the smaller root `(-b - sqrt d) / 2a` when it is not negative,
   * else the larger one when that is not negative.
   */
  function NearestRoot(m: Maths, q: Quadratic): (r: Option<real>)
    requires q.a != 0.0
    ensures QuadDiscriminant(q) < 0.0 ==> r.None?
    ensures r.Some? ==> r.value >= 0.0
  {
    var d2 := QuadDiscriminant(q);
    if d2 < 0.0 then None
    else
      var res := (-q.b - m.sqrt(d2)) / (2.0 * q.a);
      if res < 0.0 then
        var res2 := (-q.b + m.sqrt(d2)) / (2.0 * q.a);
        if res2 < 0.0 then None else Some(res2)
      else
        Some(res)
  }

  /** Completing the square: `(2at + b)^2 = b^2 - 4ac + 4a(at^2 + bt + c)`. */
  lemma CompletedSquare(q: Quadratic, t: real)
    ensures (2.0 * q.a * t + q.b) * (2.0 * q.a * t + q.b) == QuadDiscriminant(q) + 4.0 * q.a * Value(q, t)
  {
  }

  /** `(-b +- s) / 2a` is a root whenever `s^2` is the discriminant. */
  lemma RootFromHalf(q: Quadratic, s: real, t: real)
    requires q.a != 0.0
    requires s * s == QuadDiscriminant(q)
    requires 2.0 * q.a * t + q.b == s || 2.0 * q.a * t + q.b == -s
    ensures IsRoot(q, t)
  {
    var u := 2.0 * q.a * t + q.b;
    CompletedSquare(q, t);
    assert u * u == s * s;
    ZeroProduct(4.0 * q.a, Value(q, t));
  }

  /** Every root is one of `(-b +- s) / 2a`. */
  lemma RootIsHalf(q: Quadratic, s: real, t: real)
    requires s * s == QuadDiscriminant(q)
    requires IsRoot(q, t)
    ensures 2.0 * q.a * t + q.b == s || 2.0 * q.a * t + q.b == -s
  {
    var u := 2.0 * q.a * t + q.b;
    CompletedSquare(q, t);
    assert (u - s) * (u + s) == 0.0;
    ZeroProduct(u - s, u + s);
  }

  /** With a negative discriminant there is no real root. */
  lemma NoRootBelowZero(q: Quadratic, t: real)
    requires QuadDiscriminant(q) < 0.0
    ensures !IsRoot(q, t)
  {
    if IsRoot(q, t) {
      var u := 2.0 * q.a * t + q.b;
      CompletedSquare(q, t);
      SquareNonNegative(u, u, QuadDiscriminant(q));
    }
  }

  /**
   * For a positive leading coefficient, `NearestRoot` is the least
   * non-negative root, and None means there is no non-negative root.
   */
  lemma NearestRootIsLeast(m: Maths, q: Quadratic)
    requires m.Valid()
    requires q.a > 0.0
    ensures NearestRoot(m, q).Some? ==>
      var t := NearestRoot(m, q).value;
      && t >= 0.0
      && IsRoot(q, t)
      && forall t' :: t' >= 0.0 && IsRoot(q, t') ==> t <= t'
    ensures NearestRoot(m, q).None? ==> forall t :: t >= 0.0 ==> !IsRoot(q, t)
  {
    var d2 := QuadDiscriminant(q);
    if d2 < 0.0 {
      forall t | t >= 0.0
        ensures !IsRoot(q, t)
      {
        NoRootBelowZero(q, t);
      }
    } else {
      var s := m.sqrt(d2);
      RootsOfQuadratic(q, s);
    }
  }

  /**
   * For a positive leading coefficient and s >= 0 with s^2 the
   * discriminant, the roots are exactly `(-b - s) / 2a <= (-b + s) / 2a`.
   */
  lemma RootsOfQuadratic(q: Quadratic, s: real)
    requires q.a > 0.0
    requires s >= 0.0 && s * s == QuadDiscriminant(q)
    ensures (-q.b - s) / (2.0 * q.a) <= (-q.b + s) / (2.0 * q.a)
    ensures IsRoot(q, (-q.b - s) / (2.0 * q.a)) && IsRoot(q, (-q.b + s) / (2.0 * q.a))
    ensures forall t :: IsRoot(q, t) ==> t == (-q.b - s) / (2.0 * q.a) || t == (-q.b + s) / (2.0 * q.a)
  {
    var k := 2.0 * q.a;
    var t1 := (-q.b - s) / k;
    var t2 := (-q.b + s) / k;
    DivMul(-q.b - s, k);
    DivMul(-q.b + s, k);
    RootFromHalf(q, s, t1);
    RootFromHalf(q, s, t2);
    assert k * (t2 - t1) == 2.0 * s;
    NonNegativeFactor(k, t2 - t1);
    forall t | IsRoot(q, t)
      ensures t == t1 || t == t2
    {
      RootIsHalf(q, s, t);
      if k * t + q.b == -s {
        CancelFactor(k, t, t1);
      } else {
        CancelFactor(k, t, t2);
      }
    }
  }

  // ---------------------------------------------------------------------
  // Spheres

  /** `Sphere::normal`: the offset from the centre divided by the radius. */
  function SphereNormal(s: Shape, p: Vec3): (n: Vec3)
    requires s.Sphere? && s.radius != 0.0
    ensures Scale(s.radius, n) == Sub(p, s.centre)
  {
    Div(Sub(p, s.centre), s.radius)
  }

  /** The points at squared distance radius^2 from the centre. */
  predicate OnSphere(s: Shape, p: Vec3)
    requires s.Sphere?
  {
    NormSquared(Sub(p, s.centre)) == s.radius * s.radius
  }

  /** On the sphere the normal has unit length. */
  lemma SphereNormalUnit(s: Shape, p: Vec3)
    requires s.Sphere? && s.radius != 0.0
    requires OnSphere(s, p)
    ensures NormSquared(SphereNormal(s, p)) == 1.0
  {
    var x := Sub(p, s.centre);
    var n := SphereNormal(s, p);
    NormSquaredScale(s.radius, n);
    SquarePositive(s.radius, s.radius, NormSquared(x));
    UnitFactor(NormSquared(x), s.radius * s.radius, NormSquared(n));
  }

  /** The coefficients of lines 77-80: `|o + t d - centre|^2 - r^2` as a polynomial in t. */
  function SphereQuadratic(s: Shape, ray: Ray): Quadratic
    requires s.Sphere?
  {
    var to := Sub(ray.origin, s.centre);
    Quadratic(
      Dot(ray.direction, ray.direction),
      2.0 * Dot(ray.direction, to),
      Dot(to, to) - s.radius * s.radius)
  }

  /** The point at parameter t is on the sphere exactly when t is a root of the sphere's quadratic. */
  lemma SphereEquation(s: Shape, ray: Ray, t: real)
    requires s.Sphere?
    ensures OnSphere(s, Eval(ray, t)) <==> IsRoot(SphereQuadratic(s, ray), t)
  {
    SphereQuadraticValue(s, ray, t);
    ShiftedZero(s, Eval(ray, t), SphereQuadratic(s, ray), t);
  }

  /** A point whose squared distance from the centre exceeds q's value at t by radius^2 is on the sphere exactly at a root. */
  lemma ShiftedZero(s: Shape, p: Vec3, q: Quadratic, t: real)
    requires s.Sphere?
    requires NormSquared(Sub(p, s.centre)) == Value(q, t) + s.radius * s.radius
    ensures OnSphere(s, p) <==> IsRoot(q, t)
  {
  }

  /** The squared distance from the centre at parameter t is the quadratic's value there plus the squared radius. */
  lemma SphereQuadraticValue(s: Shape, ray: Ray, t: real)
    requires s.Sphere?
    ensures NormSquared(Sub(Eval(ray, t), s.centre)) == Value(SphereQuadratic(s, ray), t) + s.radius * s.radius
  {
    var d := ray.direction;
    var to := Sub(ray.origin, s.centre);
    var w := Add(to, Scale(t, d));
    var q := SphereQuadratic(s, ray);
    assert Sub(Eval(ray, t), s.centre) == w;
    assert q.a == Dot(d, d) && q.b == 2.0 * Dot(d, to) && q.c == Dot(to, to) - s.radius * s.radius;
    DotAlong(to, d, to, d, t);
    DotSymmetric(d, to);
    ShiftedQuadratic(Dot(w, w), Dot(d, d), Dot(d, to), Dot(to, d), Dot(to, to), s.radius * s.radius, t, q);
  }

  /** The arithmetic step of `SphereEquation`: a symmetric middle term counts twice. */
  lemma ShiftedQuadratic(n: real, a: real, b: real, b': real, c: real, r2: real, t: real, q: Quadratic)
    requires b == b' && n == a * t * t + (b + b') * t + c
    requires q.a == a && q.b == 2.0 * b && q.c == c - r2
    ensures n == Value(q, t) + r2
  {
  }

  /** The product of two points moving along their rays, as a polynomial in the parameter. */
  lemma DotAlong(o: Vec3, d: Vec3, p: Vec3, e: Vec3, t: real)
    ensures Dot(Add(o, Scale(t, d)), Add(p, Scale(t, e))) == Dot(d, e) * t * t + (Dot(d, p) + Dot(o, e)) * t + Dot(o, p)
  {
  }

  /**
   * `Sphere::intersect`. A ray with a zero direction, for which the source
   * divides by zero, is reported as a miss.
   */
  function SphereIntersect(m: Maths, s: Shape, ray: Ray): (r: Option<Hit>)
    requires s.Sphere? && s.radius != 0.0
    ensures r.Some? ==> r.value.point == Eval(ray, r.value.dist)
    ensures r.Some? ==> r.value.norm == SphereNormal(s, r.value.point)
    ensures ray.direction == ZERO ==> r.None?
  {
    var q := SphereQuadratic(s, ray);
    if q.a == 0.0 then None
    else
      match NearestRoot(m, q)
      case None => None
      case Some(t) =>
        var p := Eval(ray, t);
        Some(Hit(t, p, SphereNormal(s, p)))
  }

  /**
   * A sphere hit is the nearest point of the sphere in front of the origin,
   * with a unit normal; a miss means no such point exists.
   */
  lemma SphereIntersectNearest(m: Maths, s: Shape, ray: Ray)
    requires m.Valid()
    requires s.Sphere? && s.radius != 0.0
    requires ray.direction != ZERO
    ensures SphereIntersect(m, s, ray).Some? ==>
      var h := SphereIntersect(m, s, ray).value;
      && h.dist >= 0.0
      && OnSphere(s, h.point)
      && NormSquared(h.norm) == 1.0
      && forall t :: t >= 0.0 && OnSphere(s, Eval(ray, t)) ==> h.dist <= t
    ensures SphereIntersect(m, s, ray).None? ==>
      forall t :: t >= 0.0 ==> !OnSphere(s, Eval(ray, t))
  {
    var q := SphereQuadratic(s, ray);
    assert q.a == NormSquared(ray.direction);
    NearestRootIsLeast(m, q);
    forall t
      ensures OnSphere(s, Eval(ray, t)) <==> IsRoot(q, t)
    {
      SphereEquation(s, ray, t);
    }
    if SphereIntersect(m, s, ray).Some? {
      SphereNormalUnit(s, SphereIntersect(m, s, ray).value.point);
    }
  }

  // ---------------------------------------------------------------------
  // Any shape

  /** A sphere hit never lies behind the ray's origin. */
  lemma SphereHitAhead(m: Maths, s: Shape, ray: Ray)
    requires s.Sphere? && s.radius != 0.0
    ensures m.Valid() && SphereIntersect(m, s, ray).Some? ==> SphereIntersect(m, s, ray).value.dist >= 0.0
  {
    if m.Valid() && ray.direction != ZERO {
      SphereIntersectNearest(m, s, ray);
    }
  }

  /**
   * `Shape::intersect`, dispatched on the kind of shape. Triangles use the
   * corrected test `TriangleIntersect`, so a hit is never behind the ray's
   * origin; the source's triangle test would also report the crossings at
   * a distance of 0 or less that the last clause names.
   */
  function Intersect(m: Maths, s: Shape, ray: Ray): (r: Option<Hit>)
    requires ValidShape(s)
    ensures r.Some? ==> r.value.point == Eval(ray, r.value.dist)
    ensures m.Valid() && r.Some? ==> r.value.dist >= 0.0
    ensures s.Triangle? && r.Some? ==> r == TriangleIntersectAsWritten(s, ray)
    ensures s.Triangle? && r.None? && TriangleIntersectAsWritten(s, ray).Some? ==>
      TriangleIntersectAsWritten(s, ray).value.dist <= 0.0
  {
    match s
    case Triangle(_, _, _, _) => TriangleIntersect(s, ray)
    case Sphere(_, _) =>
      SphereHitAhead(m, s, ray);
      SphereIntersect(m, s, ray)
  }
}
