/**
 * The render loops src/old.rs and src/main.rs share: averaging a fixed
 * number of samples per pixel (`render`), adding one sample per pixel per
 * frame to a running sum (`render_window`), and the same with camera
 * movement, which clears the sum (`render_window_iter`). They are written
 * here once, for any per-sample tracer; modules `Renderer` and
 * `EarlyRenderer` plug in each file's `trace` and depth. Displayed colours
 * are the linear averages, before tone mapping.
 */
module Accumulation {
  import opened Maths
  import opened Vector
  import opened Colours
  import opened Cameras

  /**
   * The ray `generate_ray` gives for pixel (x, y) of a camera whose other
   * fields are fixed.
   */
  type Rays = (nat, nat) --> Ray

  /**
   * What one call of `trace` returns for a ray. The two numbers name the
   * call, the frame (or sample) and the pixel index `x + y * width`, and
   * so choose the random numbers it draws.
   */
  type Radiance = (Ray, nat, nat) -> Colour

  // ---------------------------------------------------------------------
  // Sums and averages of samples

  /** The sum `col += c` builds, starting from black, in order. */
  function Total(cs: seq<Colour>): Colour
  {
    if |cs| == 0 then BLACK else Add(Total(cs[..|cs| - 1]), cs[|cs| - 1])
  }

  /** The samples of one pixel from the calls numbered `from` up to, not including, `to`. */
  function Samples(radiance: Radiance, ray: Ray, pixel: nat, from: nat, to: nat): (s: seq<Colour>)
    requires from <= to
    decreases (to)
    ensures |s| == to - from
    ensures forall k :: 0 <= k < |s| ==> s[k] == radiance(ray, from + k, pixel)
  {
    if from == to then [] else Samples(radiance, ray, pixel, from, to - 1) + [radiance(ray, to - 1, pixel)]
  }

  /** One more call adds its sample to the sum. */
  lemma SamplesStep(radiance: Radiance, ray: Ray, pixel: nat, from: nat, to: nat)
    requires from <= to
    ensures Total(Samples(radiance, ray, pixel, from, to + 1))
         == Add(Total(Samples(radiance, ray, pixel, from, to)), radiance(ray, to, pixel))
  {
    var s := Samples(radiance, ray, pixel, from, to + 1);
    assert s[..to - from] == Samples(radiance, ray, pixel, from, to);
  }

  /** The sum of n copies of one colour is n times that colour. */
  lemma {:induction false} TotalOfConstant(c: Colour, cs: seq<Colour>)
    requires forall k :: 0 <= k < |cs| ==> cs[k] == c
    ensures Total(cs) == Scale(|cs| as real, c)
  {
    if |cs| > 0 {
      TotalOfConstant(c, cs[..|cs| - 1]);
      var n := (|cs| - 1) as real;
      assert Add(Scale(n, c), c) == Scale(n + 1.0, c);
    }
  }

  /** The average of the samples `from` up to `to` of one ray at one pixel. */
  function Mean(radiance: Radiance, ray: Ray, pixel: nat, from: nat, to: nat): Colour
    requires from < to
  {
    Div(Total(Samples(radiance, ray, pixel, from, to)), (to - from) as real)
  }

  /**
   * Where every call returns the same colour (a path that meets only
   * lights, say), the displayed average is that colour however many
   * samples have been taken.
   */
  lemma AverageOfConstant(radiance: Radiance, ray: Ray, pixel: nat, from: nat, to: nat, c: Colour)
    requires from < to
    requires forall k :: from <= k < to ==> radiance(ray, k, pixel) == c
    ensures Mean(radiance, ray, pixel, from, to) == c
  {
    var s := Samples(radiance, ray, pixel, from, to);
    TotalOfConstant(c, s);
    var n := (to - from) as real;
    ScaleCancel(n, Div(Scale(n, c), n), c);
  }

  // ---------------------------------------------------------------------
  // Pixel indices

  /** A product with a factor at least as large is at least as large. */
  lemma MulMonotone(a: nat, b: nat, w: nat)
    requires a <= b
    ensures a * w <= b * w
  {
  }

  /** A pixel's index `x + y * width` gives back x and y as remainder and quotient. */
  lemma PixelIndex(x: nat, y: nat, width: nat)
    requires x < width
    ensures (x + y * width) % width == x && (x + y * width) / width == y
  {
    var i := x + y * width;
    var q, r := i / width, i % width;
    assert i == q * width + r;
    if q > y {
      MulMonotone(y + 1, q, width);
      assert false;
    } else if q < y {
      MulMonotone(q + 1, y, width);
      assert false;
    }
  }

  /** Every pixel of the image has an index in the buffer. */
  lemma PixelInImage(x: nat, y: nat, width: nat, height: nat)
    requires x < width && y < height
    ensures x + y * width < width * height
  {
    MulMonotone(y + 1, height, width);
  }

  /** An index of the buffer names a pixel of the image. */
  lemma IndexInImage(i: nat, width: nat, height: nat)
    requires i < width * height
    ensures width > 0 && i % width < width && i / width < height
  {
    if i / width >= height {
      MulMonotone(height, i / width, width);
      assert false;
    }
  }

  /**
   * The `pixels` list of `render_window_iter`: rows from top to bottom,
   * each from left to right, so entry i is the pixel (i % width, i / width).
   */
  method BuildPixels(width: nat, height: nat) returns (pixels: seq<(nat, nat)>)
    ensures |pixels| == width * height
    ensures forall i :: 0 <= i < |pixels| ==> pixels[i] == (i % width, i / width)
  {
    pixels := [];
    var y := 0;
    while y < height
      invariant 0 <= y <= height
      invariant |pixels| == y * width
      invariant forall i :: 0 <= i < |pixels| ==> pixels[i] == (i % width, i / width)
    {
      var x := 0;
      while x < width
        invariant 0 <= x <= width
        invariant |pixels| == y * width + x
        invariant forall i :: 0 <= i < |pixels| ==> pixels[i] == (i % width, i / width)
      {
        PixelIndex(x, y, width);
        pixels := pixels + [(x, y)];
        x := x + 1;
      }
      assert y * width + width == (y + 1) * width;
      y := y + 1;
    }
  }

  /** Whether a ray function gives a ray for every pixel. */
  ghost predicate Defined(rays: Rays)
  {
    forall x: nat, y: nat :: rays.requires(x, y)
  }

  /**
   * The rays of a camera that does not move: `generate_ray` for a
   * width x height image, read from a snapshot of the camera's fields.
   */
  function ViewRays(m: Maths, v: View, width: nat, height: nat): (rays: Rays)
    ensures m.Valid() && ValidView(v) && width > 0 ==> Defined(rays)
  {
    (x: nat, y: nat) requires m.Valid() && ValidView(v) && width > 0 => ViewRay(m, v, x, y, width, height)
  }

  // ---------------------------------------------------------------------
  // `render`: a fixed number of samples per pixel

  /** One pixel of `render`: the sum of `samples` traces of its ray, from black. */
  method SumSamples(radiance: Radiance, ray: Ray, pixel: nat, samples: nat) returns (col: Colour)
    ensures col == Total(Samples(radiance, ray, pixel, 0, samples))
  {
    col := BLACK;
    var s := 0;
    while s < samples
      invariant 0 <= s <= samples
      invariant col == Total(Samples(radiance, ray, pixel, 0, s))
    {
      SamplesStep(radiance, ray, pixel, 0, s);
      col := Add(col, radiance(ray, s, pixel));
      s := s + 1;
    }
  }

  /**
   * `render`: the image, pixel by pixel in index order, each pixel the
   * average of `samples` traces through it.
   */
  method Render(rays: Rays, radiance: Radiance, width: nat, height: nat, samples: nat)
    returns (image: array<Colour>)
    requires Defined(rays) && width > 0 && samples > 0
    ensures fresh(image) && image.Length == width * height
    ensures forall i :: 0 <= i < image.Length ==>
      image[i] == Div(Total(Samples(radiance, rays(i % width, i / width), i, 0, samples)), samples as real)
  {
    var pixels := BuildPixels(width, height);
    image := new Colour[width * height](_ => BLACK);
    var i := 0;
    while i < image.Length
      invariant 0 <= i <= image.Length
      invariant forall j :: 0 <= j < i ==>
        image[j] == Div(Total(Samples(radiance, rays(pixels[j].0, pixels[j].1), j, 0, samples)), samples as real)
    {
      var (x, y) := pixels[i];
      var col := SumSamples(radiance, rays(x, y), i, samples);
      image[i] := Div(col, samples as real);
      i := i + 1;
    }
  }

  // ---------------------------------------------------------------------
  // `render_window`: one sample per pixel per frame, in place

  /**
   * One column of a `render_window` frame, top to bottom: every pixel of
   * column x gains one trace, numbered by the frame, in its running sum,
   * and shows the new sum over `samples`; other columns are untouched.
   */
  method AddColumn(rays: Rays, radiance: Radiance, width: nat, height: nat,
                   backbuffer: array<Colour>, buffer: array<Colour>, samples: nat, x: nat)
    requires Defined(rays) && x < width && samples > 0
    requires backbuffer.Length == width * height && buffer.Length == width * height
    requires backbuffer != buffer
    modifies backbuffer, buffer
    ensures forall i :: 0 <= i < width * height ==>
      if i % width == x then
        && backbuffer[i] == Add(old(backbuffer[i]), radiance(rays(i % width, i / width), samples - 1, i))
        && buffer[i] == Div(backbuffer[i], samples as real)
      else backbuffer[i] == old(backbuffer[i]) && buffer[i] == old(buffer[i])
  {
    var y := 0;
    while y < height
      invariant 0 <= y <= height
      invariant forall i :: 0 <= i < width * height ==>
        if i % width == x && i / width < y then
          && backbuffer[i] == Add(old(backbuffer[i]), radiance(rays(i % width, i / width), samples - 1, i))
          && buffer[i] == Div(backbuffer[i], samples as real)
        else backbuffer[i] == old(backbuffer[i]) && buffer[i] == old(buffer[i])
    {
      PixelIndex(x, y, width);
      PixelInImage(x, y, width, height);
      var j := x + y * width;
      backbuffer[j] := Add(backbuffer[j], radiance(rays(x, y), samples - 1, j));
      buffer[j] := Div(backbuffer[j], samples as real);
      y := y + 1;
      forall i | 0 <= i < width * height
        ensures i % width == x && i / width == y - 1 ==> i == j
      {
        IndexInImage(i, width, height);
      }
    }
    forall i | 0 <= i < width * height
      ensures i % width == x ==> i / width < height
    {
      IndexInImage(i, width, height);
    }
  }

  /**
   * One frame of `render_window`: column by column, every pixel's sum gains
   * one trace, numbered by the frame, and its displayed value becomes the
   * new sum over `samples`.
   */
  method AddFrameInPlace(rays: Rays, radiance: Radiance, width: nat, height: nat,
                         backbuffer: array<Colour>, buffer: array<Colour>, samples: nat)
    requires Defined(rays) && width > 0 && samples > 0
    requires backbuffer.Length == width * height && buffer.Length == width * height
    requires backbuffer != buffer
    modifies backbuffer, buffer
    ensures forall i :: 0 <= i < width * height ==>
      && backbuffer[i] == Add(old(backbuffer[i]), radiance(rays(i % width, i / width), samples - 1, i))
      && buffer[i] == Div(backbuffer[i], samples as real)
  {
    var x := 0;
    while x < width
      invariant 0 <= x <= width
      invariant forall i :: 0 <= i < width * height ==>
        if i % width < x then
          && backbuffer[i] == Add(old(backbuffer[i]), radiance(rays(i % width, i / width), samples - 1, i))
          && buffer[i] == Div(backbuffer[i], samples as real)
        else backbuffer[i] == old(backbuffer[i])
    {
      AddColumn(rays, radiance, width, height, backbuffer, buffer, samples, x);
      x := x + 1;
    }
  }

  /**
   * `render_window` over `frames` frames: the running sum of each pixel is
   * the sum of one trace per frame, the sample count is the number of
   * frames, and the displayed value is the sum over that count.
   */
  method RenderWindow(rays: Rays, radiance: Radiance, width: nat, height: nat, frames: nat)
    returns (backbuffer: array<Colour>, buffer: array<Colour>, samples: nat)
    requires Defined(rays) && width > 0
    ensures fresh(backbuffer) && fresh(buffer)
    ensures backbuffer.Length == width * height && buffer.Length == width * height
    ensures samples == frames
    ensures forall i :: 0 <= i < width * height ==>
      backbuffer[i] == Total(Samples(radiance, rays(i % width, i / width), i, 0, frames))
    ensures frames > 0 ==> forall i :: 0 <= i < width * height ==> buffer[i] == Div(backbuffer[i], samples as real)
  {
    backbuffer := new Colour[width * height](_ => BLACK);
    buffer := new Colour[width * height](_ => BLACK);
    samples := 0;
    while samples < frames
      invariant samples <= frames
      invariant forall i :: 0 <= i < width * height ==>
        backbuffer[i] == Total(Samples(radiance, rays(i % width, i / width), i, 0, samples))
      invariant samples > 0 ==> forall i :: 0 <= i < width * height ==> buffer[i] == Div(backbuffer[i], samples as real)
    {
      ghost var before := backbuffer[..];
      samples := samples + 1;
      AddFrameInPlace(rays, radiance, width, height, backbuffer, buffer, samples);
      SumsGainFrame(rays, radiance, width, before, backbuffer[..], samples - 1);
    }
  }

  /** Sums of the first `frame` samples, each with that frame's sample added, are the sums of one more. */
  lemma SumsGainFrame(rays: Rays, radiance: Radiance, width: nat, before: seq<Colour>, after: seq<Colour>, frame: nat)
    requires Defined(rays) && width > 0 && |after| == |before|
    requires forall i :: 0 <= i < |before| ==>
      before[i] == Total(Samples(radiance, rays(i % width, i / width), i, 0, frame))
    requires forall i :: 0 <= i < |after| ==>
      after[i] == Add(before[i], radiance(rays(i % width, i / width), frame, i))
    ensures forall i :: 0 <= i < |after| ==>
      after[i] == Total(Samples(radiance, rays(i % width, i / width), i, 0, frame + 1))
  {
    forall i | 0 <= i < |after|
      ensures after[i] == Total(Samples(radiance, rays(i % width, i / width), i, 0, frame + 1))
    {
      SamplesStep(radiance, rays(i % width, i / width), i, 0, frame);
    }
  }

  // ---------------------------------------------------------------------
  // `render_window_iter`: movement clears the running sums

  /** The movement keys held down during one frame. */
  datatype Keys = Keys(w: bool, s: bool, a: bool, d: bool, space: bool, leftCtrl: bool)

  /** Whether any movement key is down, which clears the accumulated samples. */
  predicate Moves(k: Keys)
  {
    k.w || k.s || k.a || k.d || k.space || k.leftCtrl
  }

  /** The offset of one key: `d` when it is down, nothing otherwise. */
  function KeyStep(down: bool, d: Vec3): Vec3
  {
    if down then d else ZERO
  }

  /**
   * The camera-local offset of a frame's keys: W and S move 0.1 along
   * `looking` forwards and back, A and D along `side`, Space and LeftCtrl
   * along `up`.
   */
  function KeyOffset(k: Keys): Vec3
  {
    Add(Add(Add(Add(Add(Add(ZERO,
      KeyStep(k.w, FORWARD)),
      KeyStep(k.s, BACK)),
      KeyStep(k.a, LEFT)),
      KeyStep(k.d, RIGHT)),
      KeyStep(k.space, RAISE)),
      KeyStep(k.leftCtrl, LOWER))
  }

  /** The total camera-local offset of a run of frames. */
  function Travel(keys: seq<Keys>): Vec3
  {
    if |keys| == 0 then ZERO else Add(Travel(keys[..|keys| - 1]), KeyOffset(keys[|keys| - 1]))
  }

  /**
   * The first frame whose samples are still in the running sum: the last
   * frame with a movement key down, or the first frame if there was none.
   */
  function LastReset(keys: seq<Keys>): (r: nat)
    ensures r <= |keys|
    ensures |keys| > 0 ==> r < |keys|
  {
    if |keys| == 0 then 0
    else if Moves(keys[|keys| - 1]) then |keys| - 1
    else LastReset(keys[..|keys| - 1])
  }

  /**
   * No frame after the last reset moved the camera, and the reset frame
   * itself moved it unless no frame did.
   */
  lemma {:induction false} LastResetIsLastMove(keys: seq<Keys>)
    ensures forall f :: LastReset(keys) < f < |keys| ==> !Moves(keys[f])
    ensures |keys| > 0 ==> Moves(keys[LastReset(keys)]) || forall f :: 0 <= f < |keys| ==> !Moves(keys[f])
  {
    if |keys| > 0 && !Moves(keys[|keys| - 1]) {
      var front := keys[..|keys| - 1];
      LastResetIsLastMove(front);
      assert forall f :: 0 <= f < |front| ==> front[f] == keys[f];
    }
  }

  /** The offset W adds: forward along `looking`. */
  const FORWARD: Vec3 := Scale(0.1, X)
  /** The offset S adds: back along `looking`. */
  const BACK: Vec3 := Scale(-0.1, X)
  /** The offset A adds: along `side`. */
  const LEFT: Vec3 := Scale(0.1, Y)
  /** The offset D adds: against `side`. */
  const RIGHT: Vec3 := Scale(-0.1, Y)
  /** The offset Space adds: along `up`. */
  const RAISE: Vec3 := Scale(0.1, Z)
  /** The offset LeftCtrl adds: against `up`. */
  const LOWER: Vec3 := Scale(-0.1, Z)

  /**
   * `translate(d)` when a key is down, nothing otherwise. The ghost
   * arguments carry the offset of the keys already handled this frame.
   */
  method MoveIf(camera: SimpleCamera, down: bool, d: Vec3, ghost start: Vec3, ghost done: Vec3)
    requires camera.position == Add(start, LocalOffset(done, camera.looking, camera.side, camera.up))
    modifies camera`position
    ensures camera.position == Add(start, LocalOffset(Add(done, KeyStep(down, d)), camera.looking, camera.side, camera.up))
  {
    if down {
      camera.Translate(d);
    } else {
      assert Add(done, ZERO) == done;
    }
    TranslateCompose(start, done, KeyStep(down, d), camera.looking, camera.side, camera.up);
  }

  /**
   * The six key tests at the top of each frame: each key that is down
   * translates the camera; the result says whether any did.
   */
  method HandleKeys(camera: SimpleCamera, k: Keys) returns (moved: bool)
    modifies camera`position
    ensures moved == Moves(k)
    ensures camera.position == Add(old(camera.position), LocalOffset(KeyOffset(k), camera.looking, camera.side, camera.up))
    ensures !moved ==> camera.position == old(camera.position)
  {
    ghost var start := camera.position;
    LocalOffsetZero(camera.looking, camera.side, camera.up);
    assert Add(start, ZERO) == start;
    ghost var done := ZERO;
    MoveIf(camera, k.w, FORWARD, start, done);
    done := Add(done, KeyStep(k.w, FORWARD));
    MoveIf(camera, k.s, BACK, start, done);
    done := Add(done, KeyStep(k.s, BACK));
    MoveIf(camera, k.a, LEFT, start, done);
    done := Add(done, KeyStep(k.a, LEFT));
    MoveIf(camera, k.d, RIGHT, start, done);
    done := Add(done, KeyStep(k.d, RIGHT));
    MoveIf(camera, k.space, RAISE, start, done);
    done := Add(done, KeyStep(k.space, RAISE));
    MoveIf(camera, k.leftCtrl, LOWER, start, done);
    moved := Moves(k);
    if !moved {
      StandStill(start, k, camera.looking, camera.side, camera.up);
    }
  }

  /**
   * The ray `generate_ray` gives for pixel (x, y) of a camera at position
   * p whose other fields are fixed.
   */
  type MovingRays = (Vec3, nat, nat) --> Ray

  /** Whether a ray function gives a ray for every position and pixel. */
  ghost predicate DefinedEverywhere(rays: MovingRays)
  {
    forall p: Vec3, x: nat, y: nat :: rays.requires(p, x, y)
  }

  /**
   * The rays of a camera that only `translate` changes: `generate_ray` for
   * a width x height image from the camera's fields with its position
   * replaced by p.
   */
  function MovingViewRays(m: Maths, v: View, width: nat, height: nat): (rays: MovingRays)
    ensures m.Valid() && ValidView(v) && width > 0 ==> DefinedEverywhere(rays)
  {
    (p: Vec3, x: nat, y: nat) requires m.Valid() && ValidView(v) && width > 0 =>
      ViewRay(m, v.(position := p), x, y, width, height)
  }

  /**
   * One frame of `render_window_iter` (the zip of the running sums with
   * the pixel list, as a sequential map): every sum gains one trace through
   * its pixel from the camera at `position`, numbered by the frame.
   */
  method AddFrame(rays: MovingRays, position: Vec3, radiance: Radiance, width: nat,
                  pixels: seq<(nat, nat)>, backbuffer: seq<Colour>, frame: nat)
    returns (next: seq<Colour>)
    requires DefinedEverywhere(rays) && width > 0
    requires |pixels| == |backbuffer|
    requires forall i :: 0 <= i < |pixels| ==> pixels[i] == (i % width, i / width)
    ensures |next| == |backbuffer|
    ensures forall i :: 0 <= i < |next| ==>
      next[i] == Add(backbuffer[i], radiance(rays(position, i % width, i / width), frame, i))
  {
    next := [];
    var i := 0;
    while i < |backbuffer|
      invariant 0 <= i <= |backbuffer|
      invariant |next| == i
      invariant forall j :: 0 <= j < i ==>
        next[j] == Add(backbuffer[j], radiance(rays(position, j % width, j / width), frame, j))
    {
      var (x, y) := pixels[i];
      next := next + [Add(backbuffer[i], radiance(rays(position, x, y), frame, i))];
      i := i + 1;
    }
  }

  /** A frame with no movement key down has no offset. */
  lemma StillKeys(k: Keys)
    requires !Moves(k)
    ensures KeyOffset(k) == ZERO
  {
  }

  /** A frame with no movement key down leaves the camera where it is. */
  lemma StandStill(p: Vec3, k: Keys, looking: Vec3, side: Vec3, up: Vec3)
    requires !Moves(k)
    ensures Add(p, LocalOffset(KeyOffset(k), looking, side, up)) == p
  {
    StillKeys(k);
    LocalOffsetZero(looking, side, up);
    assert Add(p, ZERO) == p;
  }

  /**
   * Where the camera is after the frames `keys`, starting from p: each
   * frame translates it by its keys' offset.
   */
  function Walk(p: Vec3, keys: seq<Keys>, looking: Vec3, side: Vec3, up: Vec3): Vec3
  {
    if |keys| == 0 then p
    else Add(Walk(p, keys[..|keys| - 1], looking, side, up), LocalOffset(KeyOffset(keys[|keys| - 1]), looking, side, up))
  }

  /** The walk over one more frame is one more step. */
  lemma WalkStep(p: Vec3, keys: seq<Keys>, f: nat, looking: Vec3, side: Vec3, up: Vec3)
    requires f < |keys|
    ensures Walk(p, keys[..f + 1], looking, side, up)
         == Add(Walk(p, keys[..f], looking, side, up), LocalOffset(KeyOffset(keys[f]), looking, side, up))
  {
    assert keys[..f + 1][..f] == keys[..f];
  }

  /** The frames' translations add up to one translation by their total offset. */
  lemma {:induction false} WalkIsTravel(p: Vec3, keys: seq<Keys>, looking: Vec3, side: Vec3, up: Vec3)
    ensures Walk(p, keys, looking, side, up) == Add(p, LocalOffset(Travel(keys), looking, side, up))
  {
    if |keys| == 0 {
      LocalOffsetZero(looking, side, up);
      assert Add(p, ZERO) == p;
    } else {
      var front := keys[..|keys| - 1];
      WalkIsTravel(p, front, looking, side, up);
      TranslateCompose(p, Travel(front), KeyOffset(keys[|keys| - 1]), looking, side, up);
    }
  }

  /** The camera's ray from position p is the ray of the view moved to p. */
  lemma MovingRayAt(m: Maths, v: View, width: nat, height: nat, p: Vec3, x: nat, y: nat)
    requires m.Valid() && ValidView(v) && width > 0
    ensures MovingViewRays(m, v, width, height)(p, x, y) == ViewRay(m, v.(position := p), x, y, width, height)
  {
  }

  /**
   * Pixels averaged over the rays of a moving camera at position p are the
   * averages over the rays of its view moved to p.
   */
  lemma {:induction false} MovingMeans(m: Maths, v: View, width: nat, height: nat, p: Vec3, radiance: Radiance,
                                       keys: seq<Keys>, buffer: seq<Colour>, samples: nat)
    requires m.Valid() && ValidView(v) && width > 0
    requires samples == |keys| - LastReset(keys) && |keys| > 0
    requires forall i :: 0 <= i < |buffer| ==>
      buffer[i] == Div(Total(Samples(radiance, MovingViewRays(m, v, width, height)(p, i % width, i / width), i, LastReset(keys), |keys|)),
                       samples as real)
    ensures forall i :: 0 <= i < |buffer| ==>
      buffer[i] == Mean(radiance, ViewRay(m, v.(position := p), i % width, i / width, width, height), i, LastReset(keys), |keys|)
  {
    forall i | 0 <= i < |buffer|
      ensures buffer[i] == Mean(radiance, ViewRay(m, v.(position := p), i % width, i / width, width, height), i, LastReset(keys), |keys|)
    {
      MovingRayAt(m, v, width, height, p, i % width, i / width);
    }
  }

  /**
   * What the running state of `render_window_iter` holds after `f` frames
   * with the camera at `position`: the sample count is the number of frames
   * since the last movement, and every pixel's sum is the sum of the traces
   * of exactly those frames from that position.
   */
  ghost predicate Accumulated(rays: MovingRays, radiance: Radiance, width: nat, position: Vec3,
                              keys: seq<Keys>, f: nat, sums: seq<Colour>, samples: nat)
    requires DefinedEverywhere(rays) && width > 0 && f <= |keys|
  {
    && samples == f - LastReset(keys[..f])
    && forall i :: 0 <= i < |sums| ==>
         sums[i] == Total(Samples(radiance, rays(position, i % width, i / width), i, LastReset(keys[..f]), f))
  }

  /**
   * The movement at the top of a frame: the keys move the camera one step
   * further along its walk, and a frame without movement leaves it where
   * it was.
   */
  method MoveCamera(camera: SimpleCamera, k: Keys, frame: nat, ghost start: Vec3, ghost keys: seq<Keys>)
    returns (moved: bool)
    requires frame < |keys| && keys[frame] == k
    requires camera.position == Walk(start, keys[..frame], camera.looking, camera.side, camera.up)
    modifies camera`position
    ensures moved == Moves(k)
    ensures camera.position == Walk(start, keys[..frame + 1], camera.looking, camera.side, camera.up)
    ensures !moved ==> camera.position == old(camera.position)
  {
    var l, s, u := camera.looking, camera.side, camera.up;
    ghost var before := camera.position;
    moved := HandleKeys(camera, k);
    assert camera.position == Add(before, LocalOffset(KeyOffset(k), l, s, u));
    WalkStep(start, keys, frame, l, s, u);
  }

  /**
   * The rest of a frame, with the camera at `position`: movement clears
   * the running sums and the sample count; the count goes up by one, every
   * sum gains a trace, and the display is the sums over the count. So the
   * running state stays what `Accumulated` says it is, one frame on.
   */
  method Accumulate(rays: MovingRays, position: Vec3, radiance: Radiance, width: nat,
                    pixels: seq<(nat, nat)>, backbuffer: seq<Colour>, samples: nat, moved: bool,
                    frame: nat, ghost keys: seq<Keys>)
    returns (next: seq<Colour>, display: seq<Colour>, count: nat)
    requires DefinedEverywhere(rays) && width > 0
    requires |pixels| == |backbuffer|
    requires forall i :: 0 <= i < |pixels| ==> pixels[i] == (i % width, i / width)
    requires frame < |keys| && moved == Moves(keys[frame])
    requires !moved ==> Accumulated(rays, radiance, width, position, keys, frame, backbuffer, samples)
    ensures count == if moved then 1 else samples + 1
    ensures |next| == |backbuffer| && |display| == |next|
    ensures forall i :: 0 <= i < |next| ==>
      next[i] == Add(if moved then BLACK else backbuffer[i], radiance(rays(position, i % width, i / width), frame, i))
    ensures forall i :: 0 <= i < |display| ==> display[i] == Div(next[i], count as real)
    ensures Accumulated(rays, radiance, width, position, keys, frame + 1, next, count)
  {
    assert keys[..frame + 1][..frame] == keys[..frame];
    var sums := backbuffer;
    count := samples;
    if moved {
      count := 0;
      sums := seq(|backbuffer|, _ => BLACK);
    }
    count := count + 1;
    next := AddFrame(rays, position, radiance, width, pixels, sums, frame);
    display := seq(|next|, i requires 0 <= i < |next| => Div(next[i], count as real));
    MovingSumsGainFrame(rays, position, radiance, width, sums, next, LastReset(keys[..frame + 1]), frame);
  }

  /** Sums of the samples from `from` up to `frame`, each with that frame's sample added, are the sums up to one more. */
  lemma MovingSumsGainFrame(rays: MovingRays, position: Vec3, radiance: Radiance, width: nat,
                            before: seq<Colour>, after: seq<Colour>, from: nat, frame: nat)
    requires DefinedEverywhere(rays) && width > 0 && |after| == |before| && from <= frame
    requires forall i :: 0 <= i < |before| ==>
      before[i] == Total(Samples(radiance, rays(position, i % width, i / width), i, from, frame))
    requires forall i :: 0 <= i < |after| ==>
      after[i] == Add(before[i], radiance(rays(position, i % width, i / width), frame, i))
    ensures forall i :: 0 <= i < |after| ==>
      after[i] == Total(Samples(radiance, rays(position, i % width, i / width), i, from, frame + 1))
  {
    forall i | 0 <= i < |after|
      ensures after[i] == Total(Samples(radiance, rays(position, i % width, i / width), i, from, frame + 1))
    {
      SamplesStep(radiance, rays(position, i % width, i / width), i, from, frame);
    }
  }

  /**
   * `render_window_iter` over the frames whose keys are `keys`, with `rays`
   * the camera's rays from any position. The camera ends up moved by every
   * frame's offset in turn. The sample count is the number of frames since
   * the last movement, so after any frame it is at least one; each running
   * sum holds exactly the traces of those frames, all taken from the
   * camera's present position; the display divides the sums by the count.
   */
  method RenderWindowIter(camera: SimpleCamera, rays: MovingRays, radiance: Radiance, width: nat, height: nat, keys: seq<Keys>)
    returns (backbuffer: seq<Colour>, buffer: seq<Colour>, samples: nat)
    requires DefinedEverywhere(rays) && width > 0
    modifies camera`position
    ensures samples == |keys| - LastReset(keys)
    ensures |keys| > 0 ==> samples >= 1
    ensures |backbuffer| == width * height
    ensures forall i :: 0 <= i < |backbuffer| ==>
      backbuffer[i] == Total(Samples(radiance, rays(camera.position, i % width, i / width), i, LastReset(keys), |keys|))
    ensures |keys| > 0 ==>
      |buffer| == |backbuffer| && forall i :: 0 <= i < |buffer| ==> buffer[i] == Div(backbuffer[i], samples as real)
    ensures camera.position == Walk(old(camera.position), keys, camera.looking, camera.side, camera.up)
  {
    var pixels := BuildPixels(width, height);
    backbuffer := seq(width * height, _ => BLACK);
    buffer := [];
    samples := 0;
    var f := 0;
    while f < |keys|
      invariant 0 <= f <= |keys|
      invariant |backbuffer| == width * height
      invariant Accumulated(rays, radiance, width, camera.position, keys, f, backbuffer, samples)
      invariant f > 0 ==>
        |buffer| == |backbuffer| && forall i :: 0 <= i < |buffer| ==> buffer[i] == Div(backbuffer[i], samples as real)
      invariant camera.position == Walk(old(camera.position), keys[..f], camera.looking, camera.side, camera.up)
    {
      var moved := MoveCamera(camera, keys[f], f, old(camera.position), keys);
      backbuffer, buffer, samples := Accumulate(rays, camera.position, radiance, width, pixels, backbuffer, samples, moved, f, keys);
      f := f + 1;
    }
    assert keys[..f] == keys;
  }
}
