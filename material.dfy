/**
 * Materials and the optics helpers of src/material.rs: the closed set of
 * materials, Schlick's reflectance approximation, refraction through an
 * interface, and the Henyey-Greenstein phase function.
 */
module Materials {
  import opened Wrappers
  import opened Maths
  import opened Vector

  /** How a surface responds to light; every variant but `Test` carries one number. */
  datatype Material =
    | Lambert(albedo: real)         // diffuse, uniform hemisphere sampling
    | LambertCos(albedo: real)      // diffuse, cosine-weighted sampling
    | Mirror(albedo: real)
    | Glass(index: real)            // refractive index of the dielectric
    | Light(intensity: real)        // emits on both sides
    | LightUni(intensity: real)     // emits on the side the normal points to
    | LightCos(intensity: real)     // cosine-weighted, one-sided emitter
    | Scatter(g: real)              // participating medium, Henyey-Greenstein asymmetry
    | Test

  /**
   * The arithmetic the integrator does with a material is defined: a glass
   * index is neither 0 (the ratio 1/n) nor -1 (Schlick's 1 + n).
   */
  predicate ValidMaterial(mat: Material)
  {
    mat.Glass? ==> mat.index != 0.0 && mat.index != -1.0
  }

  /** Reflectance at normal incidence, `((1 - n) / (1 + n))^2`. */
  function R0(n: real): real
    requires n != -1.0
  {
    Pow((1.0 - n) / (1.0 + n), 2)
  }

  /** Schlick's approximation of the Fresnel reflectance for the cosine of the angle of incidence. */
  function Schlick(cos: real, n: real): real
    requires n != -1.0
  {
    R0(n) + (1.0 - R0(n)) * Pow(1.0 - cos, 5)
  }

  /** Light arriving along the normal is reflected with the normal-incidence reflectance. */
  lemma SchlickNormalIncidence(n: real)
    requires n != -1.0
    ensures Schlick(1.0, n) == R0(n)
  {
    assert Pow(0.0, 5) == 0.0;
  }

  /** Light grazing the surface is reflected completely. */
  lemma SchlickGrazing(n: real)
    requires n != -1.0
    ensures Schlick(0.0, n) == 1.0
  {
    assert Pow(1.0, 5) == 1.0;
  }

  /** For a positive index the normal-incidence reflectance is a probability. */
  lemma R0Bounds(n: real)
    requires n > 0.0
    ensures 0.0 <= R0(n) <= 1.0
  {
    var q := (1.0 - n) / (1.0 + n);
    assert -1.0 <= q <= 1.0 by {
      assert q * (1.0 + n) == 1.0 - n;
    }
    if q >= 0.0 {
      PowUnit(q, 2);
    } else {
      PowUnit(-q, 2);
      PowTwo(q);
      PowTwo(-q);
    }
  }

  /**
   * For a positive index and a cosine in [0, 1], Schlick's value is a
   * probability, which is how the integrator uses it.
   */
  lemma SchlickBounds(cos: real, n: real)
    requires n > 0.0 && 0.0 <= cos <= 1.0
    ensures 0.0 <= Schlick(cos, n) <= 1.0
  {
    R0Bounds(n);
    PowUnit(1.0 - cos, 5);
    ProductInUnitInterval(1.0 - R0(n), Pow(1.0 - cos, 5));
  }

  /** `1 - refr^2 (1 - (v.n)^2)`: positive exactly when a refracted ray exists. */
  function Discriminant(v: Vec3, n: Vec3, refr: real): real
  {
    var dt := Dot(v, n);
    1.0 - refr * refr * (1.0 - dt * dt)
  }

  /**
   * The direction of `v` refracted through a surface with normal `n` and
   * ratio of indices `refr`, or None on total internal reflection.
   */
  function Refract(m: Maths, v: Vec3, n: Vec3, refr: real): (r: Option<Vec3>)
    ensures r.None? <==> Discriminant(v, n, refr) <= 0.0
  {
    var dt := Dot(v, n);
    var disc := Discriminant(v, n, refr);
    if disc > 0.0 then
      Some(Sub(Scale(refr, Add(v, Scale(Abs(dt), n))), Scale(m.sqrt(disc), n)))
    else
      None
  }

  /**
   * Snell's law in vector form: the part of the refracted direction across
   * the normal is the incoming one scaled by the ratio of indices.
   */
  lemma RefractTangential(m: Maths, v: Vec3, n: Vec3, refr: real)
    requires Refract(m, v, n, refr).Some?
    ensures Cross(Refract(m, v, n, refr).value, n) == Scale(refr, Cross(v, n))
  {
    var a := Abs(Dot(v, n));
    var s := m.sqrt(Discriminant(v, n, refr));
    var r := Sub(Scale(refr, Add(v, Scale(a, n))), Scale(s, n));
    assert Refract(m, v, n, refr).value == r;
    RegroupAlongNormal(refr, v, a, n, s);
    CrossAddMultiple(refr, v, refr * a - s, n);
  }

  /** `k (v + a n) - s n` regrouped as a multiple of v plus a multiple of n. */
  lemma RegroupAlongNormal(k: real, v: Vec3, a: real, n: Vec3, s: real)
    ensures Sub(Scale(k, Add(v, Scale(a, n))), Scale(s, n)) == Add(Scale(k, v), Scale(k * a - s, n))
  {
    ScaleDistributes(k, v, Scale(a, n));
    ScaleScale(k, a, n);
    SubAlong(Scale(k, v), k * a, s, n);
  }

  /** Taking away s n from p + b n leaves p + (b - s) n. */
  lemma SubAlong(p: Vec3, b: real, s: real, n: Vec3)
    ensures Sub(Add(p, Scale(b, n)), Scale(s, n)) == Add(p, Scale(b - s, n))
  {
  }

  /** With a ratio of one nothing bends: the ray passes straight through. */
  lemma RefractRatioOne(m: Maths, v: Vec3, n: Vec3)
    requires m.Valid()
    requires Dot(v, n) != 0.0
    ensures Refract(m, v, n, 1.0) == Some(v)
  {
    var dt := Dot(v, n);
    var a := Abs(dt);
    assert Discriminant(v, n, 1.0) == a * a;
    SquarePositive(a, a, Discriminant(v, n, 1.0));
    SqrtOfSquare(m, a);
    assert Refract(m, v, n, 1.0).value == Sub(Scale(1.0, Add(v, Scale(a, n))), Scale(a, n));
  }

  /**
   * The Henyey-Greenstein phase function for the cosine of the scattering
   * angle and asymmetry g. The source divides by `base.powf(1.5)`; the
   * model multiplies by `base^-1.5`, the same number wherever the source's
   * value is finite.
   */
  function HenyeyGreenstein(m: Maths, cos: real, g: real): real
  {
    0.5 * (1.0 - g * g) * m.pow(1.0 + g * g - 2.0 * g * cos, -1.5)
  }

  /** Without asymmetry the phase function is the constant 1/2: scattering is isotropic. */
  lemma HenyeyGreensteinIsotropic(m: Maths, cos: real)
    requires m.Valid()
    ensures HenyeyGreenstein(m, cos, 0.0) == 0.5
  {
    assert m.pow(1.0, -1.5) == 1.0;
  }

  /** For an asymmetry in [-1, 1] and a positive base the phase function is a density: never negative. */
  lemma HenyeyGreensteinNonNegative(m: Maths, cos: real, g: real)
    requires m.Valid()
    requires -1.0 <= g <= 1.0
    requires 1.0 + g * g - 2.0 * g * cos > 0.0
    ensures HenyeyGreenstein(m, cos, g) >= 0.0
  {
    var p := m.pow(1.0 + g * g - 2.0 * g * cos, -1.5);
    assert p > 0.0;
    ProductOfEqualsAtMostOne(g, g);
    ProductInUnitInterval(p, 1.0 - g * g);
  }
}
