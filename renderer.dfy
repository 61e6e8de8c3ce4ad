/**
 * The integrator of src/old.rs, the version written against the nine
 * materials of src/material.rs: `trace`, the recursive estimate of the
 * light arriving along a ray, and its black test background. The render
 * loops of the same file are in module `Renderer`.
 */
module Tracer {
  import opened Wrappers
  import opened Maths
  import opened Vector
  import opened Colours
  import opened Materials
  import opened Shapes
  import opened Objects
  import opened Integrator

  /** Every object and every material of the scene is usable by the integrator. */
  predicate ValidScene(scene: seq<Object<Material>>)
  {
    && ValidObjects(scene)
    && forall i :: 0 <= i < |scene| ==> ValidMaterial(scene[i].material)
  }

  /** The scene: the list of objects `trace` intersects. */
  type Scene = s: seq<Object<Material>> | ValidScene(s) witness []

  /** `background`: this file's test background, black in every direction. */
  function Background(ray: Ray): Colour
  {
    BLACK
  }

  /** The materials whose branch of `trace` ends the path with their own light. */
  predicate Emitter(mat: Material)
  {
    mat.Light? || mat.LightUni? || mat.LightCos? || mat.Test?
  }

  /** No object of the scene is made of an emitting material. */
  predicate Dark(scene: Scene)
  {
    forall i :: 0 <= i < |scene| ==> !Emitter(scene[i].material)
  }

  /**
   * The `match material` of `trace`, for the ray that arrived and the hit
   * it made, with `d` the draws of this level. Light, LightUni, LightCos
   * and Test emit; LambertCos emits black when the ray meets its back;
   * every other case bounces.
   */
  function Interact(env: Env, ray: Ray, hit: ObjectHit<Material>, d: Draw): Event
    requires ValidMaterial(hit.material)
  {
    var point := hit.point;
    var normal := hit.normal;
    match hit.material
    case Lambert(albedo) =>
      var next := d.hemisphere(normal);
      Bounce(Ray(Add(point, Scale(env.eps, normal)), next), WHITE, 2.0 * Max(Dot(next, normal), 0.0) * albedo)
    case LambertCos(albedo) =>
      if Dot(ray.direction, normal) < 0.0 then
        Bounce(Ray(Add(point, Scale(env.eps, normal)), d.hemisphereCosine(normal)), WHITE, albedo)
      else
        Emit(BLACK)
    case Mirror(albedo) =>
      Bounce(Ray(Add(point, Scale(env.eps, normal)), env.reflect(ray.direction, normal)), WHITE, albedo)
    case Glass(n) =>
      GlassEvent(env, n, ray, point, normal, d.uniform)
    case Scatter(g) =>
      var next := Scale(Signum(d.uniform), d.vector);
      var cos := Dot(next, ray.direction);
      Bounce(Ray(point, next), Scale(HenyeyGreenstein(env.m, cos, g), hit.colour), 1.0 / (2.0 * PI))
    case Light(intensity) =>
      Emit(Scale(intensity, WHITE))
    case LightUni(intensity) =>
      Emit(Scale(intensity * (if Dot(normal, ray.direction) < 0.0 then 1.0 else 0.0), WHITE))
    case LightCos(intensity) =>
      Emit(Scale(CosFalloff(ray.direction, normal) * intensity, WHITE))
    case Test =>
      Emit(WHITE)
  }

  /**
   * Which materials end the path: the emitters, and LambertCos met from
   * behind, which returns black. Every other material sends a ray on, and
   * only the scattering medium tints it.
   */
  lemma InteractKinds(env: Env, ray: Ray, hit: ObjectHit<Material>, d: Draw)
    requires ValidMaterial(hit.material)
    ensures Interact(env, ray, hit, d).Emit? <==>
      Emitter(hit.material) || (hit.material.LambertCos? && Dot(ray.direction, hit.normal) >= 0.0)
    ensures Interact(env, ray, hit, d).Emit? && !Emitter(hit.material) ==> Interact(env, ray, hit, d).radiance == BLACK
    ensures Interact(env, ray, hit, d).Bounce? && !hit.material.Scatter? ==> Interact(env, ray, hit, d).filter == WHITE
  {
  }

  /** The nearest hit of the scene for a ray, with the draws its media make at this level. */
  function SceneHitAt(env: Env, scene: Scene, ray: Ray, d: Draw): (r: Option<ObjectHit<Material>>)
    ensures r.Some? ==> ValidMaterial(r.value.material)
  {
    SceneHit(env.m, scene, ray, d.medium)
  }

  /**
   * `trace`: black once the depth is used up; the background on a miss;
   * otherwise the hit object's colour times what its material returns,
   * which for a bounce is the weighted result of tracing one level deeper.
   */
  function Trace(env: Env, scene: Scene, ray: Ray, depth: nat, draws: Stream): Colour
    decreases depth
  {
    if depth == 0 then BLACK
    else
      match SceneHitAt(env, scene, ray, draws(depth))
      case None => Background(ray)
      case Some(hit) =>
        Mul(hit.colour,
          match Interact(env, ray, hit, draws(depth))
          case Emit(c) => c
          case Bounce(next, f, k) => Scale(k, Mul(f, Trace(env, scene, next, depth - 1, draws))))
  }

  /**
   * How many nested calls `trace` makes below this one: every recursive
   * call is one level less deep, so there are never more than `depth`.
   */
  function Bounces(env: Env, scene: Scene, ray: Ray, depth: nat, draws: Stream): (n: nat)
    ensures n <= depth
    decreases depth
  {
    if depth == 0 then 0
    else
      match SceneHitAt(env, scene, ray, draws(depth))
      case None => 0
      case Some(hit) =>
        match Interact(env, ray, hit, draws(depth))
        case Emit(_) => 0
        case Bounce(next, _, _) => 1 + Bounces(env, scene, next, depth - 1, draws)
  }

  /** The material's value combined with what the deeper level returns. */
  lemma TraceStep(env: Env, scene: Scene, ray: Ray, depth: nat, draws: Stream)
    requires depth > 0
    ensures SceneHitAt(env, scene, ray, draws(depth)).None? ==>
      Trace(env, scene, ray, depth, draws) == BLACK && Bounces(env, scene, ray, depth, draws) == 0
    ensures SceneHitAt(env, scene, ray, draws(depth)).Some? ==>
      var hit := SceneHitAt(env, scene, ray, draws(depth)).value;
      var e := Interact(env, ray, hit, draws(depth));
      && (e.Emit? ==> Trace(env, scene, ray, depth, draws) == Mul(hit.colour, e.radiance)
                      && Bounces(env, scene, ray, depth, draws) == 0)
      && (e.Bounce? ==> Trace(env, scene, ray, depth, draws)
                        == Mul(hit.colour, Gather(e, Trace(env, scene, e.next, depth - 1, draws))))
  {
  }

  /** With the depth used up, `trace` returns black, whatever the scene and ray. */
  lemma TraceDepthZero(env: Env, scene: Scene, ray: Ray, draws: Stream)
    ensures Trace(env, scene, ray, 0, draws) == BLACK
    ensures Bounces(env, scene, ray, 0, draws) == 0
  {
  }

  /** In a scene without emitters, whatever a ray hits is not an emitter. */
  lemma DarkSceneHit(env: Env, scene: Scene, ray: Ray, d: Draw)
    requires Dark(scene) && SceneHitAt(env, scene, ray, d).Some?
    ensures !Emitter(SceneHitAt(env, scene, ray, d).value.material)
  {
    var hit := SceneHitAt(env, scene, ray, d).value;
    var i :| 0 <= i < |scene| && hit.material == scene[i].material;
  }

  /**
   * Light enters only through emitting materials: in a scene without any,
   * every path returns black, whatever the depth and the draws.
   */
  lemma {:induction false} TraceDarkScene(env: Env, scene: Scene, ray: Ray, depth: nat, draws: Stream)
    requires Dark(scene)
    ensures Trace(env, scene, ray, depth, draws) == BLACK
    decreases depth
  {
    if depth > 0 {
      var h := SceneHitAt(env, scene, ray, draws(depth));
      if h.Some? && Interact(env, ray, h.value, draws(depth)).Bounce? {
        TraceDarkScene(env, scene, Interact(env, ray, h.value, draws(depth)).next, depth - 1, draws);
      }
      DarkLevel(env, scene, ray, depth, draws);
    }
  }

  /** One level of `TraceDarkScene`: black from below stays black. */
  lemma DarkLevel(env: Env, scene: Scene, ray: Ray, depth: nat, draws: Stream)
    requires Dark(scene) && depth > 0
    requires var h := SceneHitAt(env, scene, ray, draws(depth));
      h.Some? && Interact(env, ray, h.value, draws(depth)).Bounce? ==>
        Trace(env, scene, Interact(env, ray, h.value, draws(depth)).next, depth - 1, draws) == BLACK
    ensures Trace(env, scene, ray, depth, draws) == BLACK
  {
    TraceStep(env, scene, ray, depth, draws);
    var h := SceneHitAt(env, scene, ray, draws(depth));
    if h.Some? {
      var hit := h.value;
      var e := Interact(env, ray, hit, draws(depth));
      DarkSceneHit(env, scene, ray, draws(depth));
      InteractKinds(env, ray, hit, draws(depth));
      BlackAbsorbs(hit.colour);
      if e.Emit? {
        assert e.radiance == BLACK;
        assert Trace(env, scene, ray, depth, draws) == Mul(hit.colour, e.radiance);
      } else {
        GatherDark(e);
        assert Trace(env, scene, ray, depth, draws) == Mul(hit.colour, Gather(e, BLACK));
      }
    }
  }

  /** A ray that hits nothing returns the background, black here, with no recursion. */
  lemma TraceMiss(env: Env, scene: Scene, ray: Ray, depth: nat, draws: Stream)
    requires depth > 0
    requires forall j :: 0 <= j < |scene| ==> ObjectIntersect(env.m, scene[j], ray, draws(depth).medium(j)).None?
    ensures Trace(env, scene, ray, depth, draws) == Background(ray) == BLACK
    ensures Bounces(env, scene, ray, depth, draws) == 0
  {
    SceneNearest(env.m, scene, ray, draws(depth).medium);
  }

  /** An empty scene is black for every ray and depth. */
  lemma TraceEmptyScene(env: Env, ray: Ray, depth: nat, draws: Stream)
    ensures Trace(env, [], ray, depth, draws) == BLACK
  {
  }

  /**
   * A light ends the path: what the ray brings back is the hit colour
   * scaled by the intensity, on either side of the surface.
   */
  lemma TraceLight(env: Env, scene: Scene, ray: Ray, depth: nat, draws: Stream)
    requires depth > 0
    requires SceneHitAt(env, scene, ray, draws(depth)).Some?
    requires SceneHitAt(env, scene, ray, draws(depth)).value.material.Light?
    ensures var hit := SceneHitAt(env, scene, ray, draws(depth)).value;
      Trace(env, scene, ray, depth, draws) == Scale(hit.material.intensity, hit.colour)
    ensures Bounces(env, scene, ray, depth, draws) == 0
  {
    var hit := SceneHitAt(env, scene, ray, draws(depth)).value;
    TraceStep(env, scene, ray, depth, draws);
    MulScale(hit.material.intensity, WHITE, hit.colour);
    MulCommutative(hit.colour, Scale(hit.material.intensity, WHITE));
    WhiteIdentity(hit.colour);
  }

  /**
   * A one-sided light shines only on rays arriving against its normal and
   * is black from behind; either way the path ends.
   */
  lemma TraceLightUni(env: Env, scene: Scene, ray: Ray, depth: nat, draws: Stream)
    requires depth > 0
    requires SceneHitAt(env, scene, ray, draws(depth)).Some?
    requires SceneHitAt(env, scene, ray, draws(depth)).value.material.LightUni?
    ensures var hit := SceneHitAt(env, scene, ray, draws(depth)).value;
      Trace(env, scene, ray, depth, draws) ==
        if Dot(hit.normal, ray.direction) < 0.0 then Scale(hit.material.intensity, hit.colour) else BLACK
    ensures Bounces(env, scene, ray, depth, draws) == 0
  {
    var hit := SceneHitAt(env, scene, ray, draws(depth)).value;
    var i := hit.material.intensity;
    TraceStep(env, scene, ray, depth, draws);
    if Dot(hit.normal, ray.direction) < 0.0 {
      assert i * 1.0 == i;
      MulScale(i, WHITE, hit.colour);
      MulCommutative(hit.colour, Scale(i, WHITE));
      WhiteIdentity(hit.colour);
    } else {
      assert Scale(i * 0.0, WHITE) == BLACK;
      BlackAbsorbs(hit.colour);
    }
  }

  /**
   * The brightness factor of the cosine-weighted light, `max(d . -n, 0)^100`:
   * never negative, and zero for a ray arriving from behind the surface.
   */
  function CosFalloff(d: Vec3, normal: Vec3): (k: real)
    ensures k >= 0.0
    ensures Dot(d, normal) >= 0.0 ==> k == 0.0
  {
    FalloffBounds(d, normal);
    Pow(Max(Dot(d, Neg(normal)), 0.0), 100)
  }

  lemma FalloffBounds(d: Vec3, normal: Vec3)
    ensures Pow(Max(Dot(d, Neg(normal)), 0.0), 100) >= 0.0
    ensures Dot(d, normal) >= 0.0 ==> Pow(Max(Dot(d, Neg(normal)), 0.0), 100) == 0.0
  {
    PowNonNegative(Max(Dot(d, Neg(normal)), 0.0), 100);
    if Dot(d, normal) >= 0.0 {
      assert Dot(d, Neg(normal)) == -Dot(d, normal);
      PowZero(100);
    }
  }

  /** A power of a non-negative number is non-negative. */
  lemma {:induction false} PowNonNegative(x: real, n: nat)
    requires x >= 0.0
    ensures Pow(x, n) >= 0.0
  {
    if n > 0 {
      PowNonNegative(x, n - 1);
      if x > 0.0 && Pow(x, n - 1) > 0.0 {
        ProductPositive(x, Pow(x, n - 1));
      }
    }
  }

  /** Every positive power of zero is zero. */
  lemma PowZero(n: nat)
    requires n > 0
    ensures Pow(0.0, n) == 0.0
  {
    assert Pow(0.0, n) == 0.0 * Pow(0.0, n - 1);
  }

  /**
   * The cosine-weighted light ends the path with the hit colour scaled by
   * its falloff and intensity.
   */
  lemma TraceLightCos(env: Env, scene: Scene, ray: Ray, depth: nat, draws: Stream)
    requires depth > 0
    requires SceneHitAt(env, scene, ray, draws(depth)).Some?
    requires SceneHitAt(env, scene, ray, draws(depth)).value.material.LightCos?
    ensures var hit := SceneHitAt(env, scene, ray, draws(depth)).value;
      Trace(env, scene, ray, depth, draws)
        == Scale(CosFalloff(ray.direction, hit.normal) * hit.material.intensity, hit.colour)
    ensures Bounces(env, scene, ray, depth, draws) == 0
  {
    var hit := SceneHitAt(env, scene, ray, draws(depth)).value;
    var k := CosFalloff(ray.direction, hit.normal) * hit.material.intensity;
    TraceStep(env, scene, ray, depth, draws);
    MulScale(k, WHITE, hit.colour);
    MulCommutative(hit.colour, Scale(k, WHITE));
    WhiteIdentity(hit.colour);
  }

  /** The cosine-weighted light seen from behind (or along its surface) is black. */
  lemma TraceLightCosBackFace(env: Env, scene: Scene, ray: Ray, depth: nat, draws: Stream)
    requires depth > 0
    requires SceneHitAt(env, scene, ray, draws(depth)).Some?
    requires SceneHitAt(env, scene, ray, draws(depth)).value.material.LightCos?
    requires Dot(ray.direction, SceneHitAt(env, scene, ray, draws(depth)).value.normal) >= 0.0
    ensures Trace(env, scene, ray, depth, draws) == BLACK
  {
    var hit := SceneHitAt(env, scene, ray, draws(depth)).value;
    TraceLightCos(env, scene, ray, depth, draws);
    assert CosFalloff(ray.direction, hit.normal) * hit.material.intensity == 0.0;
    assert Scale(0.0, hit.colour) == BLACK;
  }

  /** The test material shows the object's colour and ends the path. */
  lemma TraceTest(env: Env, scene: Scene, ray: Ray, depth: nat, draws: Stream)
    requires depth > 0
    requires SceneHitAt(env, scene, ray, draws(depth)).Some?
    requires SceneHitAt(env, scene, ray, draws(depth)).value.material.Test?
    ensures Trace(env, scene, ray, depth, draws) == SceneHitAt(env, scene, ray, draws(depth)).value.colour
    ensures Bounces(env, scene, ray, depth, draws) == 0
  {
    TraceStep(env, scene, ray, depth, draws);
    WhiteIdentity(SceneHitAt(env, scene, ray, draws(depth)).value.colour);
  }

  /**
   * The cosine-weighted diffuse surface is one-sided: a ray meeting it from
   * behind (or along it) is black, with no recursion.
   */
  lemma TraceLambertCosBackFace(env: Env, scene: Scene, ray: Ray, depth: nat, draws: Stream)
    requires depth > 0
    requires SceneHitAt(env, scene, ray, draws(depth)).Some?
    requires SceneHitAt(env, scene, ray, draws(depth)).value.material.LambertCos?
    requires Dot(ray.direction, SceneHitAt(env, scene, ray, draws(depth)).value.normal) >= 0.0
    ensures Trace(env, scene, ray, depth, draws) == BLACK
    ensures Bounces(env, scene, ray, depth, draws) == 0
  {
    TraceStep(env, scene, ray, depth, draws);
    BlackAbsorbs(SceneHitAt(env, scene, ray, draws(depth)).value.colour);
  }

  /**
   * Glass under total internal reflection always traces the ray reflected
   * about the normal, whatever the uniform draw.
   */
  lemma TraceGlassTotalInternalReflection(env: Env, scene: Scene, ray: Ray, depth: nat, draws: Stream)
    requires depth > 0
    requires SceneHitAt(env, scene, ray, draws(depth)).Some?
    requires var hit := SceneHitAt(env, scene, ray, draws(depth)).value;
      && hit.material.Glass?
      && Discriminant(ray.direction, Facing(Dot(ray.direction, hit.normal), hit.normal),
                      GlassRatio(Dot(ray.direction, hit.normal), hit.material.index)) <= 0.0
    ensures var hit := SceneHitAt(env, scene, ray, draws(depth)).value;
      var e := Interact(env, ray, hit, draws(depth));
      && e.Bounce?
      && e.next.direction == env.reflect(ray.direction, hit.normal)
      && Trace(env, scene, ray, depth, draws) == Mul(hit.colour, Trace(env, scene, e.next, depth - 1, draws))
  {
    var hit := SceneHitAt(env, scene, ray, draws(depth)).value;
    var e := Interact(env, ray, hit, draws(depth));
    GlassTotalInternalReflection(env, hit.material.index, ray, hit.point, hit.normal, draws(depth).uniform);
    TraceStep(env, scene, ray, depth, draws);
    GatherUnfiltered(e.next, 1.0, Trace(env, scene, e.next, depth - 1, draws));
    ScaleOne(Trace(env, scene, e.next, depth - 1, draws));
  }

  /**
   * The scattering medium picks its new direction as `signum(u)` times the
   * sampled vector; for a uniform draw that is never negative the sign is
   * always one, so the sample is never turned to the other hemisphere.
   */
  lemma ScatterSampleSign(env: Env, ray: Ray, hit: ObjectHit<Material>, d: Draw)
    requires hit.material.Scatter?
    requires d.uniform >= 0.0
    ensures Interact(env, ray, hit, d) == Bounce(
      Ray(hit.point, d.vector),
      Scale(HenyeyGreenstein(env.m, Dot(d.vector, ray.direction), hit.material.g), hit.colour),
      1.0 / (2.0 * PI))
  {
    ScaleOne(d.vector);
  }

  /**
   * Each level draws only its own random numbers: two streams that agree
   * on the levels 1 to `depth` give the same colour.
   */
  lemma {:induction false} TraceUsesOwnDraws(env: Env, scene: Scene, ray: Ray, depth: nat, s1: Stream, s2: Stream)
    requires forall k :: 1 <= k <= depth ==> s1(k) == s2(k)
    ensures Trace(env, scene, ray, depth, s1) == Trace(env, scene, ray, depth, s2)
    ensures Bounces(env, scene, ray, depth, s1) == Bounces(env, scene, ray, depth, s2)
    decreases depth
  {
    if depth > 0 {
      assert s1(depth) == s2(depth);
      match SceneHitAt(env, scene, ray, s1(depth))
      case None =>
      case Some(hit) =>
        match Interact(env, ray, hit, s1(depth))
        case Emit(_) =>
        case Bounce(next, _, _) =>
          TraceUsesOwnDraws(env, scene, next, depth - 1, s1, s2);
    }
  }
}
