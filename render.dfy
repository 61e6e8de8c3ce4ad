/**
 * The render loops of src/old.rs, which trace every sample to a depth the
 * caller gives, with the integrator of module `Tracer`.
 */
module Renderer {
  import opened Maths
  import opened Vector
  import opened Colours
  import opened Cameras
  import opened Integrator
  import opened Tracer
  import Accumulation

  /**
   * One call of this file's `trace` to `depth`: the call named (k, i) takes
   * the draws `draws(k, i)`.
   */
  function Tracing(env: Env, scene: Scene, depth: nat, draws: (nat, nat) -> Stream): Accumulation.Radiance
  {
    (ray: Ray, k: nat, i: nat) => Trace(env, scene, ray, depth, draws(k, i))
  }

  /** The averaged samples of pixel i, each traced from the camera's ray through it. */
  function PixelMean(env: Env, scene: Scene, depth: nat, draws: (nat, nat) -> Stream, ray: Ray, i: nat, from: nat, to: nat): Colour
    requires from < to
  {
    Accumulation.Mean(Tracing(env, scene, depth, draws), ray, i, from, to)
  }

  /**
   * `render`: pixel i of the image is the average of `samples` traces to
   * `depth` of the camera's ray through it, before tone mapping.
   */
  method Render(env: Env, scene: Scene, depth: nat, draws: (nat, nat) -> Stream, camera: SimpleCamera,
                width: nat, height: nat, samples: nat)
    returns (image: array<Colour>)
    requires env.m.Valid() && camera.Valid() && width > 0 && samples > 0
    ensures fresh(image) && image.Length == width * height
    ensures forall i :: 0 <= i < image.Length ==>
      image[i] == PixelMean(env, scene, depth, draws, camera.GenerateRay(env.m, i % width, i / width, width, height), i, 0, samples)
  {
    image := Accumulation.Render(Accumulation.ViewRays(env.m, camera.State(), width, height),
                                 Tracing(env, scene, depth, draws), width, height, samples);
  }

  /**
   * `render_window` over `frames` frames: the sample count is the number of
   * frames, and pixel i shows the average of one trace per frame of the
   * camera's ray through it.
   */
  method RenderWindow(env: Env, scene: Scene, depth: nat, draws: (nat, nat) -> Stream, camera: SimpleCamera,
                      width: nat, height: nat, frames: nat)
    returns (backbuffer: array<Colour>, buffer: array<Colour>, samples: nat)
    requires env.m.Valid() && camera.Valid() && width > 0
    ensures fresh(backbuffer) && fresh(buffer)
    ensures backbuffer.Length == width * height && buffer.Length == width * height
    ensures samples == frames
    ensures frames > 0 ==> forall i :: 0 <= i < width * height ==>
      buffer[i] == PixelMean(env, scene, depth, draws, camera.GenerateRay(env.m, i % width, i / width, width, height), i, 0, frames)
  {
    backbuffer, buffer, samples := Accumulation.RenderWindow(Accumulation.ViewRays(env.m, camera.State(), width, height),
                                                             Tracing(env, scene, depth, draws), width, height, frames);
  }

  /**
   * `render_window_iter` over the frames whose movement keys are `keys`:
   * the camera ends up moved by every frame's keys in turn, and pixel i
   * shows the average of the traces since the last movement, all of the
   * camera's ray through it from where it now stands. Only the position
   * changes, so that ray is `GenerateRay` of the moved camera.
   */
  method RenderWindowIter(env: Env, scene: Scene, depth: nat, draws: (nat, nat) -> Stream, camera: SimpleCamera,
                          width: nat, height: nat, keys: seq<Accumulation.Keys>)
    returns (backbuffer: seq<Colour>, buffer: seq<Colour>, samples: nat)
    requires env.m.Valid() && camera.Valid() && width > 0
    modifies camera`position
    ensures samples == |keys| - Accumulation.LastReset(keys)
    ensures |keys| > 0 ==> |buffer| == width * height && forall i :: 0 <= i < |buffer| ==>
      buffer[i] == PixelMean(env, scene, depth, draws, ViewRay(env.m, old(camera.State()).(position := camera.position), i % width, i / width, width, height),
                             i, Accumulation.LastReset(keys), |keys|)
    ensures camera.position == Accumulation.Walk(old(camera.position), keys, camera.looking, camera.side, camera.up)
  {
    var rays := Accumulation.MovingViewRays(env.m, camera.State(), width, height);
    ghost var view := camera.State();
    backbuffer, buffer, samples := Accumulation.RenderWindowIter(camera, rays, Tracing(env, scene, depth, draws), width, height, keys);
    if |keys| > 0 {
      IterPixels(env, scene, depth, draws, view, camera.position, width, height, keys, buffer, samples);
    }
  }

  /**
   * The pixels the loop leaves, each the sum since the last movement over
   * the sample count, are the averages of the rays from where the camera
   * now stands.
   */
  lemma {:induction false} IterPixels(env: Env, scene: Scene, depth: nat, draws: (nat, nat) -> Stream, view: View, p: Vec3,
                                      width: nat, height: nat, keys: seq<Accumulation.Keys>, buffer: seq<Colour>, samples: nat)
    requires env.m.Valid() && ValidView(view) && width > 0
    requires samples == |keys| - Accumulation.LastReset(keys) && |keys| > 0
    requires forall i :: 0 <= i < |buffer| ==>
      buffer[i] == Div(Accumulation.Total(Accumulation.Samples(Tracing(env, scene, depth, draws),
                         Accumulation.MovingViewRays(env.m, view, width, height)(p, i % width, i / width), i, Accumulation.LastReset(keys), |keys|)),
                       samples as real)
    ensures forall i :: 0 <= i < |buffer| ==>
      buffer[i] == PixelMean(env, scene, depth, draws, ViewRay(env.m, view.(position := p), i % width, i / width, width, height),
                             i, Accumulation.LastReset(keys), |keys|)
  {
    Accumulation.MovingMeans(env.m, view, width, height, p, Tracing(env, scene, depth, draws), keys, buffer, samples);
  }

  /** With nothing in the scene every pixel of every render loop is black. */
  lemma EmptySceneIsBlack(env: Env, depth: nat, draws: (nat, nat) -> Stream, ray: Ray, i: nat, from: nat, to: nat)
    requires from < to
    ensures PixelMean(env, [], depth, draws, ray, i, from, to) == BLACK
  {
    forall k | from <= k < to
      ensures Tracing(env, [], depth, draws)(ray, k, i) == BLACK
    {
      TraceEmptyScene(env, ray, depth, draws(k, i));
    }
    Accumulation.AverageOfConstant(Tracing(env, [], depth, draws), ray, i, from, to, BLACK);
  }
}
