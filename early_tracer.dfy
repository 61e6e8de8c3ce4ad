/**
 * The integrator of src/main.rs, an earlier version written against six
 * materials: diffuse, cosine-weighted diffuse and mirror carry no albedo,
 * there is no one-sided or cosine-weighted light and no scattering medium.
 * Its background (a sky) is a parameter here.
 */
module EarlyTracer {
  import opened Wrappers
  import opened Maths
  import opened Vector
  import opened Colours
  import opened Materials
  import opened Objects
  import opened Integrator

  /** The materials `trace` of this version dispatches on. */
  datatype EarlyMaterial =
    | Lambert
    | LambertCos
    | Mirror
    | Glass(index: real)
    | Light(intensity: real)
    | Test

  /** A glass index is neither 0 (the ratio 1/n) nor -1 (Schlick's 1 + n). */
  predicate ValidEarlyMaterial(mat: EarlyMaterial)
  {
    mat.Glass? ==> mat.index != 0.0 && mat.index != -1.0
  }

  predicate ValidScene(scene: seq<Object<EarlyMaterial>>)
  {
    && ValidObjects(scene)
    && forall i :: 0 <= i < |scene| ==> ValidEarlyMaterial(scene[i].material)
  }

  type Scene = s: seq<Object<EarlyMaterial>> | ValidScene(s) witness []

  /** The sky colour for a ray that leaves the scene. */
  type Background = Ray -> Colour

  /** No object of the scene is a light or a test surface. */
  predicate Dark(scene: Scene)
  {
    forall i :: 0 <= i < |scene| ==> !scene[i].material.Light? && !scene[i].material.Test?
  }

  /** A sky that is black in every direction. */
  ghost predicate BlackSky(background: Background)
  {
    forall ray :: background(ray) == BLACK
  }

  /**
   * The `match material` of this `trace`. Only Light and Test emit; the
   * cosine-weighted diffuse surface bounces whichever side it is hit from.
   */
  function Interact(env: Env, ray: Ray, hit: ObjectHit<EarlyMaterial>, d: Draw): Event
    requires ValidEarlyMaterial(hit.material)
  {
    var point := hit.point;
    var normal := hit.normal;
    match hit.material
    case Lambert =>
      var next := d.hemisphere(normal);
      Bounce(Ray(Add(point, Scale(env.eps, normal)), next), WHITE, 2.0 * Max(Dot(next, normal), 0.0))
    case LambertCos =>
      Bounce(Ray(Add(point, Scale(env.eps, normal)), d.hemisphereCosine(normal)), WHITE, 1.0)
    case Mirror =>
      Bounce(Ray(Add(point, Scale(env.eps, normal)), env.reflect(ray.direction, normal)), WHITE, 1.0)
    case Glass(n) =>
      GlassEvent(env, n, ray, point, normal, d.uniform)
    case Light(intensity) =>
      Emit(Scale(intensity, WHITE))
    case Test =>
      Emit(WHITE)
  }

  /** Only lights and test surfaces end the path; no bounce tints the ray it sends on. */
  lemma InteractKinds(env: Env, ray: Ray, hit: ObjectHit<EarlyMaterial>, d: Draw)
    requires ValidEarlyMaterial(hit.material)
    ensures Interact(env, ray, hit, d).Emit? <==> hit.material.Light? || hit.material.Test?
    ensures Interact(env, ray, hit, d).Bounce? ==> Interact(env, ray, hit, d).filter == WHITE
  {
  }

  function SceneHitAt(env: Env, scene: Scene, ray: Ray, d: Draw): (r: Option<ObjectHit<EarlyMaterial>>)
    ensures r.Some? ==> ValidEarlyMaterial(r.value.material)
  {
    SceneHit(env.m, scene, ray, d.medium)
  }

  /**
   * `trace` of this version: as in src/old.rs, over these materials and this
   * background.
   */
  function Trace(env: Env, background: Background, scene: Scene, ray: Ray, depth: nat, draws: Stream): Colour
    decreases depth
  {
    if depth == 0 then BLACK
    else
      match SceneHitAt(env, scene, ray, draws(depth))
      case None => background(ray)
      case Some(hit) =>
        Mul(hit.colour,
          match Interact(env, ray, hit, draws(depth))
          case Emit(c) => c
          case Bounce(next, f, k) => Scale(k, Mul(f, Trace(env, background, scene, next, depth - 1, draws))))
  }

  /** How many nested calls this `trace` makes: never more than `depth`. */
  function Bounces(env: Env, scene: Scene, ray: Ray, depth: nat, draws: Stream): (n: nat)
    ensures n <= depth
    decreases depth
  {
    if depth == 0 then 0
    else
      match SceneHitAt(env, scene, ray, draws(depth))
      case None => 0
      case Some(hit) =>
        match Interact(env, ray, hit, draws(depth))
        case Emit(_) => 0
        case Bounce(next, _, _) => 1 + Bounces(env, scene, next, depth - 1, draws)
  }

  lemma TraceStep(env: Env, background: Background, scene: Scene, ray: Ray, depth: nat, draws: Stream)
    requires depth > 0
    ensures SceneHitAt(env, scene, ray, draws(depth)).None? ==>
      Trace(env, background, scene, ray, depth, draws) == background(ray)
      && Bounces(env, scene, ray, depth, draws) == 0
    ensures SceneHitAt(env, scene, ray, draws(depth)).Some? ==>
      var hit := SceneHitAt(env, scene, ray, draws(depth)).value;
      var e := Interact(env, ray, hit, draws(depth));
      && (e.Emit? ==> Trace(env, background, scene, ray, depth, draws) == Mul(hit.colour, e.radiance)
                      && Bounces(env, scene, ray, depth, draws) == 0)
      && (e.Bounce? ==> Trace(env, background, scene, ray, depth, draws)
                        == Mul(hit.colour, Gather(e, Trace(env, background, scene, e.next, depth - 1, draws)))
                        && Bounces(env, scene, ray, depth, draws) == 1 + Bounces(env, scene, e.next, depth - 1, draws))
  {
  }

  /** In a scene without lights or test surfaces, whatever a ray hits is neither. */
  lemma DarkSceneHit(env: Env, scene: Scene, ray: Ray, d: Draw)
    requires Dark(scene) && SceneHitAt(env, scene, ray, d).Some?
    ensures !SceneHitAt(env, scene, ray, d).value.material.Light?
    ensures !SceneHitAt(env, scene, ray, d).value.material.Test?
  {
    var hit := SceneHitAt(env, scene, ray, d).value;
    var i :| 0 <= i < |scene| && hit.material == scene[i].material;
  }

  /**
   * Light enters only from lights, test surfaces and the sky: with none of
   * them every path returns black, whatever the depth and the draws.
   */
  lemma {:induction false} TraceDarkScene(env: Env, background: Background, scene: Scene, ray: Ray, depth: nat, draws: Stream)
    requires Dark(scene) && BlackSky(background)
    ensures Trace(env, background, scene, ray, depth, draws) == BLACK
    decreases depth
  {
    if depth > 0 {
      match SceneHitAt(env, scene, ray, draws(depth))
      case None =>
      case Some(hit) =>
        DarkSceneHit(env, scene, ray, draws(depth));
        InteractKinds(env, ray, hit, draws(depth));
        BlackAbsorbs(hit.colour);
        match Interact(env, ray, hit, draws(depth))
        case Emit(_) =>
        case Bounce(next, f, _) =>
          TraceDarkScene(env, background, scene, next, depth - 1, draws);
          BlackAbsorbs(f);
    }
  }

  /** With the depth used up this `trace` returns black, not the background. */
  lemma TraceDepthZero(env: Env, background: Background, scene: Scene, ray: Ray, draws: Stream)
    ensures Trace(env, background, scene, ray, 0, draws) == BLACK
  {
  }

  /** A ray that hits nothing returns the background for that ray, with no recursion. */
  lemma TraceMiss(env: Env, background: Background, scene: Scene, ray: Ray, depth: nat, draws: Stream)
    requires depth > 0
    requires forall j :: 0 <= j < |scene| ==> ObjectIntersect(env.m, scene[j], ray, draws(depth).medium(j)).None?
    ensures Trace(env, background, scene, ray, depth, draws) == background(ray)
    ensures Bounces(env, scene, ray, depth, draws) == 0
  {
    SceneNearest(env.m, scene, ray, draws(depth).medium);
  }

  /** An empty scene shows the background along every ray, at any positive depth. */
  lemma TraceEmptyScene(env: Env, background: Background, ray: Ray, depth: nat, draws: Stream)
    requires depth > 0
    ensures Trace(env, background, [], ray, depth, draws) == background(ray)
  {
  }

  /** A light ends the path with the hit colour scaled by its intensity. */
  lemma TraceLight(env: Env, background: Background, scene: Scene, ray: Ray, depth: nat, draws: Stream)
    requires depth > 0
    requires SceneHitAt(env, scene, ray, draws(depth)).Some?
    requires SceneHitAt(env, scene, ray, draws(depth)).value.material.Light?
    ensures var hit := SceneHitAt(env, scene, ray, draws(depth)).value;
      Trace(env, background, scene, ray, depth, draws) == Scale(hit.material.intensity, hit.colour)
    ensures Bounces(env, scene, ray, depth, draws) == 0
  {
    var hit := SceneHitAt(env, scene, ray, draws(depth)).value;
    TraceStep(env, background, scene, ray, depth, draws);
    MulScale(hit.material.intensity, WHITE, hit.colour);
    MulCommutative(hit.colour, Scale(hit.material.intensity, WHITE));
    WhiteIdentity(hit.colour);
  }

  /** The test material shows the object's colour and ends the path. */
  lemma TraceTest(env: Env, background: Background, scene: Scene, ray: Ray, depth: nat, draws: Stream)
    requires depth > 0
    requires SceneHitAt(env, scene, ray, draws(depth)).Some?
    requires SceneHitAt(env, scene, ray, draws(depth)).value.material.Test?
    ensures Trace(env, background, scene, ray, depth, draws) == SceneHitAt(env, scene, ray, draws(depth)).value.colour
    ensures Bounces(env, scene, ray, depth, draws) == 0
  {
    TraceStep(env, background, scene, ray, depth, draws);
    WhiteIdentity(SceneHitAt(env, scene, ray, draws(depth)).value.colour);
  }

  /**
   * In this version the cosine-weighted diffuse surface has no side test:
   * from either side it traces one level deeper and passes on the result,
   * filtered by the hit colour.
   */
  lemma TraceLambertCosAlwaysBounces(env: Env, background: Background, scene: Scene, ray: Ray, depth: nat, draws: Stream)
    requires depth > 0
    requires SceneHitAt(env, scene, ray, draws(depth)).Some?
    requires SceneHitAt(env, scene, ray, draws(depth)).value.material.LambertCos?
    ensures var hit := SceneHitAt(env, scene, ray, draws(depth)).value;
      var next := Ray(Add(hit.point, Scale(env.eps, hit.normal)), draws(depth).hemisphereCosine(hit.normal));
      && Trace(env, background, scene, ray, depth, draws) == Mul(hit.colour, Trace(env, background, scene, next, depth - 1, draws))
      && Bounces(env, scene, ray, depth, draws) == 1 + Bounces(env, scene, next, depth - 1, draws)
  {
    var hit := SceneHitAt(env, scene, ray, draws(depth)).value;
    var next := Ray(Add(hit.point, Scale(env.eps, hit.normal)), draws(depth).hemisphereCosine(hit.normal));
    TraceStep(env, background, scene, ray, depth, draws);
    GatherUnfiltered(next, 1.0, Trace(env, background, scene, next, depth - 1, draws));
    ScaleOne(Trace(env, background, scene, next, depth - 1, draws));
  }

  /** Each level draws only its own random numbers. */
  lemma {:induction false} TraceUsesOwnDraws(env: Env, background: Background, scene: Scene, ray: Ray, depth: nat, s1: Stream, s2: Stream)
    requires forall k :: 1 <= k <= depth ==> s1(k) == s2(k)
    ensures Trace(env, background, scene, ray, depth, s1) == Trace(env, background, scene, ray, depth, s2)
    decreases depth
  {
    if depth > 0 {
      assert s1(depth) == s2(depth);
      match SceneHitAt(env, scene, ray, s1(depth))
      case None =>
      case Some(hit) =>
        match Interact(env, ray, hit, s1(depth))
        case Emit(_) =>
        case Bounce(next, _, _) =>
          TraceUsesOwnDraws(env, background, scene, next, depth - 1, s1, s2);
    }
  }
}
