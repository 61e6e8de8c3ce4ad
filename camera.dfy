/**
 * The pinhole camera of src/camera.rs: the frame built around the viewing
 * direction, the mapping from pixels to rays, and movement along the
 * camera's own axes. The field of view is horizontal.
 */
module Cameras {
  import opened Maths
  import opened Vector

  /**
   * `directions`: the side vector is the unit vector along
   * `global_up x looking`, and up is `looking x side`. Side is orthogonal to
   * the viewing direction and to the world's up; up is orthogonal to both
   * the viewing direction and side, and it leans towards the world's up
   * rather than away from it.
   */
  function Directions(m: Maths, looking: Vec3, globalUp: Vec3): (r: (Vec3, Vec3))
    requires m.Valid()
    requires Cross(globalUp, looking) != ZERO
    ensures NormSquared(r.0) == 1.0
    ensures Scale(Norm(m, Cross(globalUp, looking)), r.0) == Cross(globalUp, looking)
    ensures Dot(r.0, looking) == 0.0 && Dot(r.0, globalUp) == 0.0
    ensures r.1 == Cross(looking, r.0)
    ensures Dot(r.1, looking) == 0.0 && Dot(r.1, r.0) == 0.0
    ensures Dot(r.1, globalUp) > 0.0
  {
    var e := Cross(globalUp, looking);
    var side := Normalise(m, e);
    CrossOrthogonal(globalUp, looking);
    DotSymmetric(e, looking);
    DotSymmetric(e, globalUp);
    NormaliseOrthogonal(m, e, looking);
    NormaliseOrthogonal(m, e, globalUp);
    CrossOrthogonal(looking, side);
    UpLeansUp(m, looking, globalUp, side);
    (side, Cross(looking, side))
  }

  /**
   * `(looking x side) . global_up = side . (global_up x looking)`, which is
   * the length of `global_up x looking` once side is its unit vector.
   */
  lemma UpLeansUp(m: Maths, looking: Vec3, globalUp: Vec3, side: Vec3)
    requires m.Valid() && Cross(globalUp, looking) != ZERO
    requires NormSquared(side) == 1.0
    requires Scale(Norm(m, Cross(globalUp, looking)), side) == Cross(globalUp, looking)
    ensures Dot(Cross(looking, side), globalUp) > 0.0
  {
    var e := Cross(globalUp, looking);
    var k := Norm(m, e);
    TripleProduct(looking, side, globalUp);
    DotScaleLeft(k, side, side);
    DotSymmetric(side, e);
    assert Dot(Cross(looking, side), globalUp) == k * NormSquared(side);
  }

  /** The scalar triple product is unchanged by rotating its factors. */
  lemma TripleProduct(a: Vec3, b: Vec3, c: Vec3)
    ensures Dot(Cross(a, b), c) == Dot(b, Cross(c, a))
  {
  }

  /** Lagrange's identity: `|u x v|^2 = |u|^2 |v|^2 - (u . v)^2`. */
  lemma CrossNormSquared(u: Vec3, v: Vec3)
    ensures NormSquared(Cross(u, v)) == NormSquared(u) * NormSquared(v) - Dot(u, v) * Dot(u, v)
  {
    Lagrange(u.x, u.y, u.z, v.x, v.y, v.z);
  }

  /** Lagrange's identity written out over the components. */
  lemma Lagrange(a: real, b: real, c: real, d: real, e: real, f: real)
    ensures (b * f - c * e) * (b * f - c * e) + (c * d - a * f) * (c * d - a * f) + (a * e - b * d) * (a * e - b * d)
         == (a * a + b * b + c * c) * (d * d + e * e + f * f) - (a * d + b * e + c * f) * (a * d + b * e + c * f)
  {
  }

  /**
   * For a unit viewing direction the frame is orthonormal: up has unit
   * length as well.
   */
  lemma DirectionsOrthonormal(m: Maths, looking: Vec3, globalUp: Vec3)
    requires m.Valid()
    requires Cross(globalUp, looking) != ZERO
    requires NormSquared(looking) == 1.0
    ensures NormSquared(Directions(m, looking, globalUp).1) == 1.0
  {
    var (side, up) := Directions(m, looking, globalUp);
    CrossNormSquared(looking, side);
    DotSymmetric(looking, side);
  }

  /** A zero vector has a zero cross product with anything. */
  lemma CrossZero(u: Vec3)
    ensures Cross(u, ZERO) == ZERO
  {
  }

  /**
   * The movement `translate` makes: the offset's components taken along the
   * camera's looking, side and up vectors rather than the world's axes.
   */
  function LocalOffset(d: Vec3, looking: Vec3, side: Vec3, up: Vec3): Vec3
  {
    Add(Add(Scale(d.x, looking), Scale(d.y, side)), Scale(d.z, up))
  }

  /** A zero offset does not move the camera. */
  lemma LocalOffsetZero(looking: Vec3, side: Vec3, up: Vec3)
    ensures LocalOffset(ZERO, looking, side, up) == ZERO
  {
  }

  /** Moving by d1 and then by d2 is moving by d1 + d2. */
  lemma LocalOffsetAdd(d1: Vec3, d2: Vec3, looking: Vec3, side: Vec3, up: Vec3)
    ensures Add(LocalOffset(d1, looking, side, up), LocalOffset(d2, looking, side, up))
         == LocalOffset(Add(d1, d2), looking, side, up)
  {
    AddInterleave(Scale(d1.x, looking), Scale(d1.y, side), Scale(d1.z, up),
                  Scale(d2.x, looking), Scale(d2.y, side), Scale(d2.z, up));
    AddScales(d1.x, d2.x, looking);
    AddScales(d1.y, d2.y, side);
    AddScales(d1.z, d2.z, up);
  }

  /** Two multiples of one vector add up to the multiple by the sum. */
  lemma AddScales(a: real, b: real, v: Vec3)
    ensures Add(Scale(a, v), Scale(b, v)) == Scale(a + b, v)
  {
  }

  /** Sums of three vectors add up term by term. */
  lemma AddInterleave(a: Vec3, b: Vec3, c: Vec3, d: Vec3, e: Vec3, f: Vec3)
    ensures Add(Add(Add(a, b), c), Add(Add(d, e), f)) == Add(Add(Add(a, d), Add(b, e)), Add(c, f))
  {
  }

  /** Two translations add up: `translate(d1); translate(d2)` moves as `translate(d1 + d2)`. */
  lemma TranslateCompose(p: Vec3, d1: Vec3, d2: Vec3, looking: Vec3, side: Vec3, up: Vec3)
    ensures Add(Add(p, LocalOffset(d1, looking, side, up)), LocalOffset(d2, looking, side, up))
         == Add(p, LocalOffset(Add(d1, d2), looking, side, up))
  {
    LocalOffsetAdd(d1, d2, looking, side, up);
  }

  /** Moving by d and then by -d returns the camera to where it was. */
  lemma TranslateRoundTrip(p: Vec3, d: Vec3, looking: Vec3, side: Vec3, up: Vec3)
    ensures Add(Add(p, LocalOffset(d, looking, side, up)), LocalOffset(Neg(d), looking, side, up)) == p
  {
    TranslateCompose(p, d, Neg(d), looking, side, up);
    AddNeg(d);
    LocalOffsetZero(looking, side, up);
  }

  /**
   * What `generate_ray` reads of a camera: the tangent of half the field
   * of view, the position, and the looking, side and up vectors.
   */
  datatype View = View(tanHalfFov: real, position: Vec3, looking: Vec3, side: Vec3, up: Vec3)

  /** The viewing direction is not zero and is orthogonal to side and up. */
  predicate ValidView(v: View)
  {
    v.looking != ZERO && Dot(v.side, v.looking) == 0.0 && Dot(v.up, v.looking) == 0.0
  }

  /**
   * `generate_ray` for pixel (x, y) of a width x height image: from the
   * camera's position along the unit vector in the direction of
   * `width * looking + tan(fov / 2) ((width - 2x) side + (height - 2y) up)`,
   * which always points ahead of the camera.
   */
  function ViewRay(m: Maths, v: View, x: nat, y: nat, width: nat, height: nat): (r: Ray)
    requires m.Valid() && ValidView(v)
    requires width > 0
    ensures r.origin == v.position
    ensures NormSquared(r.direction) == 1.0
    ensures Dot(r.direction, v.looking) > 0.0
  {
    var xBar := width as real - (2 * x) as real;
    var yBar := height as real - (2 * y) as real;
    var w := Add(Scale(width as real, v.looking), Scale(v.tanHalfFov, Add(Scale(xBar, v.side), Scale(yBar, v.up))));
    ViewAhead(width as real, v.looking, v.tanHalfFov, xBar, v.side, yBar, v.up);
    var dir := Normalise(m, w);
    UnitAhead(m, w, v.looking);
    Ray(v.position, dir)
  }

  /**
   * `SimpleCamera`: a position, the viewing direction with the side and up
   * vectors of its frame, and the tangent of half the horizontal field of
   * view. Only `translate` changes it, and only its position.
   */
  class SimpleCamera {
    var tanHalfFov: real
    var position: Vec3
    var looking: Vec3
    var side: Vec3
    var up: Vec3

    /** The camera's fields as a value. */
    function State(): View
      reads this
    {
      View(tanHalfFov, position, looking, side, up)
    }

    /** The viewing direction is not zero and is orthogonal to side and up. */
    ghost predicate Valid()
      reads this
    {
      ValidView(State())
    }

    /** `SimpleCamera::new`: position and viewing direction as given, the frame from `directions`. */
    constructor (m: Maths, fov: real, position: Vec3, looking: Vec3, globalUp: Vec3)
      requires m.Valid()
      requires Cross(globalUp, looking) != ZERO
      ensures Valid()
      ensures this.position == position && this.looking == looking
      ensures (side, up) == Directions(m, looking, globalUp)
      ensures tanHalfFov == m.tan(fov / 2.0)
    {
      if looking == ZERO {
        CrossZero(globalUp);
      }
      var (s, u) := Directions(m, looking, globalUp);
      tanHalfFov := m.tan(fov / 2.0);
      this.position := position;
      this.looking := looking;
      side := s;
      up := u;
    }

    /**
     * `generate_ray`: the ray from the camera's position through pixel
     * (x, y), a unit vector pointing ahead of the camera.
     */
    function GenerateRay(m: Maths, x: nat, y: nat, width: nat, height: nat): (r: Ray)
      reads this
      requires m.Valid() && Valid()
      requires width > 0
      ensures r.origin == position
      ensures NormSquared(r.direction) == 1.0
      ensures Dot(r.direction, looking) > 0.0
    {
      ViewRay(m, State(), x, y, width, height)
    }

    /** `translate`: moves the position by the offset taken in the camera's own axes. */
    method Translate(d: Vec3)
      modifies this`position
      ensures position == Add(old(position), LocalOffset(d, looking, side, up))
    {
      position := Add(position, LocalOffset(d, looking, side, up));
    }
  }

  /** The unnormalised view vector's component along `looking` comes from the `width * looking` term alone. */
  lemma ViewAhead(w: real, l: Vec3, t: real, a: real, s: Vec3, b: real, u: Vec3)
    requires w > 0.0 && l != ZERO
    requires Dot(s, l) == 0.0 && Dot(u, l) == 0.0
    ensures Dot(Add(Scale(w, l), Scale(t, Add(Scale(a, s), Scale(b, u)))), l) > 0.0
    ensures Add(Scale(w, l), Scale(t, Add(Scale(a, s), Scale(b, u)))) != ZERO
  {
    var off := Add(Scale(a, s), Scale(b, u));
    DotLinear(Scale(a, s), b, u, l);
    DotScaleLeft(a, s, l);
    assert Dot(off, l) == 0.0;
    DotLinear(Scale(w, l), t, off, l);
    DotScaleLeft(w, l, l);
    DotOfEquals(l, l);
    ProductPositive(w, Dot(l, l));
  }

  /** A vector with a positive component along `l` keeps it when normalised. */
  lemma UnitAhead(m: Maths, v: Vec3, l: Vec3)
    requires m.Valid() && v != ZERO
    requires Dot(v, l) > 0.0
    ensures Dot(Normalise(m, v), l) > 0.0
  {
    var k := Norm(m, v);
    var n := Normalise(m, v);
    DotScaleLeft(k, n, l);
    assert k * Dot(n, l) > 0.0;
  }

  /**
   * At the centre pixel (2x = width, 2y = height) of an image the ray goes
   * straight along the viewing direction when that has unit length.
   */
  lemma CentreRay(m: Maths, cam: SimpleCamera, x: nat, y: nat, width: nat, height: nat)
    requires m.Valid() && cam.Valid()
    requires width > 0 && 2 * x == width && 2 * y == height
    requires NormSquared(cam.looking) == 1.0
    ensures cam.GenerateRay(m, x, y, width, height) == Ray(cam.position, cam.looking)
  {
    var w := width as real;
    assert w - (2 * x) as real == 0.0 && height as real - (2 * y) as real == 0.0;
    CentreView(w, cam.looking, cam.tanHalfFov, cam.side, cam.up);
    NormaliseScaledUnit(m, w, cam.looking);
  }

  /** With both pixel offsets zero only the `width * looking` term is left. */
  lemma CentreView(w: real, l: Vec3, t: real, s: Vec3, u: Vec3)
    ensures Add(Scale(w, l), Scale(t, Add(Scale(0.0, s), Scale(0.0, u)))) == Scale(w, l)
  {
    assert Scale(0.0, s) == ZERO && Scale(0.0, u) == ZERO;
    assert Add(ZERO, ZERO) == ZERO;
    assert Scale(t, ZERO) == ZERO;
    assert Add(Scale(w, l), ZERO) == Scale(w, l);
  }
}
