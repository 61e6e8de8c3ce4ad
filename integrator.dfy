/**
 * What the two versions of `trace` (src/old.rs and src/main.rs) share: the
 * helpers they call that the shown files do not define, the random numbers
 * one level of the recursion draws, the shape of a material's response to
 * a hit, and the glass branch, which both versions write identically.
 */
module Integrator {
  import opened Wrappers
  import opened Maths
  import opened Vector
  import opened Colours
  import opened Materials

  /**
   * `reflect` and the self-intersection offset `EPS`, which the integrator
   * uses but the shown files do not define, with the transcendental
   * functions.
   */
  datatype Env = Env(m: Maths, reflect: (Vec3, Vec3) -> Vec3, eps: real)

  /**
   * The random numbers one level of `trace` may draw: `random_hemisphere`
   * and `random_hemisphere_cosine` around a normal, `random_vector()`,
   * `random_float()`, and the free-path draw of the medium at each index of
   * the object list. Every branch draws each of them at most once.
   */
  datatype Draw = Draw(
    hemisphere: Vec3 -> Vec3,
    hemisphereCosine: Vec3 -> Vec3,
    vector: Vec3,
    uniform: real,
    medium: nat -> real)

  /**
   * The draws of a whole path. A path never branches, so the level called
   * with remaining depth d draws `draws(d)`.
   */
  type Stream = nat -> Draw

  /**
   * What a material does with a hit: it emits a colour and ends the path,
   * or it traces the ray `next` one level deeper and weights what comes
   * back by the colour filter and the scalar factor.
   */
  datatype Event =
    | Emit(radiance: Colour)
    | Bounce(next: Ray, filter: Colour, factor: real)

  /** The value of a material's branch, given what the recursive call returned. */
  function Gather(e: Event, incoming: Colour): Colour
  {
    match e
    case Emit(c) => c
    case Bounce(_, f, k) => Scale(k, Mul(f, incoming))
  }

  /** An unfiltered bounce returns the weighted incoming colour. */
  lemma GatherUnfiltered(next: Ray, k: real, incoming: Colour)
    ensures Gather(Bounce(next, WHITE, k), incoming) == Scale(k, incoming)
  {
    WhiteIdentity(incoming);
  }

  /** A branch that emits nothing and bounces into darkness returns black. */
  lemma GatherDark(e: Event)
    requires e.Emit? ==> e.radiance == BLACK
    ensures Gather(e, BLACK) == BLACK
  {
    if e.Bounce? {
      BlackAbsorbs(e.filter);
    }
  }

  // ---------------------------------------------------------------------
  // Glass

  /** The ratio of refractive indices: 1/n when entering (cos < 0), n when leaving. */
  function GlassRatio(cos: real, n: real): real
    requires n != 0.0
  {
    if cos < 0.0 then 1.0 / n else n
  }

  /** Leaving the glass undoes entering it: the two ratios are reciprocal. */
  lemma GlassRatioReciprocal(cos: real, n: real)
    requires n != 0.0 && cos != 0.0
    ensures GlassRatio(cos, n) * GlassRatio(-cos, n) == 1.0
  {
  }

  /** The normal turned to face the incoming ray: `-signum(cos) * normal`. */
  function Facing(cos: real, normal: Vec3): Vec3
  {
    Scale(-Signum(cos), normal)
  }

  /** The turned normal meets the ray at `-|cos|`: it never points along the ray. */
  lemma FacingAgainstRay(d: Vec3, normal: Vec3)
    ensures Dot(d, Facing(Dot(d, normal), normal)) == -Abs(Dot(d, normal))
  {
    var cos := Dot(d, normal);
    DotSymmetric(d, Facing(cos, normal));
    DotScaleLeft(-Signum(cos), normal, d);
    DotSymmetric(normal, d);
  }

  /**
   * The glass branch of `trace`. With a refracted direction it reflects
   * when the uniform draw `u` falls below Schlick's reflectance and
   * transmits otherwise; without one (total internal reflection) it always
   * reflects, about the untouched normal. Reflected rays start on the side
   * the ray came from, transmitted rays on the far side.
   */
  function GlassEvent(env: Env, n: real, ray: Ray, point: Vec3, normal: Vec3, u: real): (e: Event)
    requires n != 0.0 && n != -1.0
    ensures e.Bounce? && e.filter == WHITE && e.factor == 1.0
  {
    var cos := Dot(ray.direction, normal);
    var facing := Facing(cos, normal);
    match Refract(env.m, ray.direction, facing, GlassRatio(cos, n))
    case Some(refracted) =>
      if u < Schlick(Abs(cos), n) then
        Bounce(Ray(Add(point, Scale(env.eps * -Signum(cos), normal)), env.reflect(ray.direction, facing)), WHITE, 1.0)
      else
        Bounce(Ray(Add(point, Scale(env.eps * Signum(cos), normal)), refracted), WHITE, 1.0)
    case None =>
      Bounce(Ray(Add(point, Scale(env.eps * -Signum(cos), normal)), env.reflect(ray.direction, normal)), WHITE, 1.0)
  }

  /**
   * Total internal reflection forces the reflection branch whatever the
   * draw: the ray is reflected about the normal and leaves from the
   * incoming side.
   */
  lemma GlassTotalInternalReflection(env: Env, n: real, ray: Ray, point: Vec3, normal: Vec3, u: real)
    requires n != 0.0 && n != -1.0
    requires Discriminant(ray.direction, Facing(Dot(ray.direction, normal), normal),
                          GlassRatio(Dot(ray.direction, normal), n)) <= 0.0
    ensures GlassEvent(env, n, ray, point, normal, u).next.direction == env.reflect(ray.direction, normal)
    ensures GlassEvent(env, n, ray, point, normal, u).next.origin
         == Add(point, Scale(env.eps * -Signum(Dot(ray.direction, normal)), normal))
  {
  }

  /**
   * When refraction is possible the draw decides: below Schlick's
   * reflectance the ray is reflected about the turned normal and starts on
   * the incoming side, otherwise it takes the refracted direction and
   * starts on the far side.
   */
  lemma GlassFresnelChoice(env: Env, n: real, ray: Ray, point: Vec3, normal: Vec3, u: real)
    requires n != 0.0 && n != -1.0
    requires Discriminant(ray.direction, Facing(Dot(ray.direction, normal), normal),
                          GlassRatio(Dot(ray.direction, normal), n)) > 0.0
    ensures var cos := Dot(ray.direction, normal);
      GlassEvent(env, n, ray, point, normal, u).next.direction ==
        if u < Schlick(Abs(cos), n) then env.reflect(ray.direction, Facing(cos, normal))
        else Refract(env.m, ray.direction, Facing(cos, normal), GlassRatio(cos, n)).value
    ensures var cos := Dot(ray.direction, normal);
      GlassEvent(env, n, ray, point, normal, u).next.origin ==
        if u < Schlick(Abs(cos), n) then Add(point, Scale(env.eps * -Signum(cos), normal))
        else Add(point, Scale(env.eps * Signum(cos), normal))
  {
  }

  /**
   * For a positive offset and a ray not parallel to the surface the two
   * points the glass branch starts its rays from are different: the one a
   * reflected ray starts from lies behind the surface as the ray sees it
   * (against its travel) and the one a transmitted ray starts from lies
   * beyond it (along its travel), so neither meets the surface it has just
   * left.
   */
  lemma OffsetSides(point: Vec3, normal: Vec3, d: Vec3, eps: real)
    requires eps > 0.0 && Dot(d, normal) != 0.0
    ensures var cos := Dot(d, normal);
      var back := Add(point, Scale(eps * -Signum(cos), normal));
      var ahead := Add(point, Scale(eps * Signum(cos), normal));
      && back != ahead
      && Dot(Sub(back, point), d) == -eps * Abs(cos)
      && Dot(Sub(ahead, point), d) == eps * Abs(cos)
  {
    var cos := Dot(d, normal);
    var k := eps * Signum(cos);
    assert eps * -Signum(cos) == -k;
    assert Signum(cos) * cos == Abs(cos);
    assert k * cos == eps * Abs(cos);
    assert Sub(Add(point, Scale(-k, normal)), point) == Scale(-k, normal);
    assert Sub(Add(point, Scale(k, normal)), point) == Scale(k, normal);
    DotScaleLeft(k, normal, d);
    DotScaleLeft(-k, normal, d);
    DotSymmetric(normal, d);
    assert normal != ZERO;
    OffsetsDiffer(point, k, normal);
  }

  /** Offsetting by a non-zero amount in opposite directions along a non-zero vector gives two different points. */
  lemma OffsetsDiffer(point: Vec3, k: real, normal: Vec3)
    ensures k != 0.0 && normal != ZERO ==> Add(point, Scale(-k, normal)) != Add(point, Scale(k, normal))
  {
    if k != 0.0 && normal != ZERO && Add(point, Scale(-k, normal)) == Add(point, Scale(k, normal)) {
      assert Scale(2.0 * k, normal) == ZERO;
      ScaleNonZero(2.0 * k, normal);
    }
  }

  /**
   * Glass of index one does not bend light: a ray that is transmitted
   * keeps its direction.
   */
  lemma GlassIndexOne(env: Env, ray: Ray, point: Vec3, normal: Vec3, u: real)
    requires env.m.Valid()
    requires Dot(ray.direction, normal) != 0.0
    requires u >= Schlick(Abs(Dot(ray.direction, normal)), 1.0)
    ensures GlassEvent(env, 1.0, ray, point, normal, u).next.direction == ray.direction
  {
    var cos := Dot(ray.direction, normal);
    var facing := Facing(cos, normal);
    FacingAgainstRay(ray.direction, normal);
    assert GlassRatio(cos, 1.0) == 1.0;
    RefractRatioOne(env.m, ray.direction, facing);
  }
}
