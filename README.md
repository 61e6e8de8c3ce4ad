# triangle_tracing: a verified model of the path tracer's core

This project models the exact, structural core of `triangle_tracing`, a
small Monte Carlo path tracer written in Rust, and proves properties of
the model in Dafny. The modelled parts are:

- the vector and colour algebra;
- the ray-triangle and ray-sphere intersection tests;
- Schlick's reflectance, refraction and the Henyey-Greenstein phase
  function;
- nearest-hit resolution over shape lists and object lists, the two-triangle
  `square`, the participating medium and the fan triangulation of OBJ
  polygons;
- the pinhole camera, with its frame, its pixel-to-ray mapping and
  `translate`;
- both versions of the recursive integrator `trace`: the one in
  `src/old.rs`, written against the nine materials of `src/material.rs`,
  and the earlier one in `src/main.rs`, with its own six materials;
- the progressive renderers: `render` averages a fixed number of samples
  per pixel; `render_window` adds one sample per frame to a back buffer and
  shows the back buffer divided by the sample count; `render_window_iter`
  does the same and also resets both whenever a movement key moves the
  camera.

`Float` is modelled as an exact `real`. `sqrt`, `tan`, `ln_1p` and the
non-integer `powf` are fields of a record (`Maths.Maths`), and the model
assumes only the few facts its `Valid()` predicate lists about them.
Integer powers (`powf(2.)`, `powf(5.)`, `powf(100.)`) are exact products.
Every random draw is an explicit input:

- one `Integrator.Draw` per level of `trace`, indexed by the remaining
  depth;
- one draw per object for the media.

`reflect` and the self-intersection offset `EPS` live in `Integrator.Env`.

Module layout, one file per concern:

| file | module | models |
|---|---|---|
| `maths.dfy` | `Maths` | the transcendental functions; `max`, `abs`, `signum` and integer powers |
| `wrappers.dfy` | `Wrappers` | `Option` |
| `vector.dfy` | `Vector` | `src/vector.rs` |
| `colour.dfy` | `Colours` | `src/colour.rs` |
| `material.dfy` | `Materials` | `src/material.rs` |
| `shape.dfy` | `Shapes` | `src/shape.rs` |
| `object.dfy` | `Objects` | `src/object.rs` |
| `camera.dfy` | `Cameras` | `src/camera.rs` |
| `integrator.dfy` | `Integrator` | what the two `trace` functions share, including the glass branch |
| `renderer.dfy` | `Tracer` | `trace` and `background` of `src/old.rs` |
| `early_tracer.dfy` | `EarlyTracer` | `trace` of `src/main.rs` |
| `accumulation.dfy` | `Accumulation` | the render loops, over an abstract per-sample radiance |
| `render.dfy` | `Renderer` | the loops of `src/old.rs` instantiated with its `trace` |
| `early_render.dfy` | `EarlyRenderer` | the loops of `src/main.rs` instantiated with its `trace` and depths 4 and 5 |

Imperative code stays imperative:

- `SimpleCamera` is a class, and `translate` changes only its position.
- The nearest-hit scans, the triangulation's pushes and the render loops
  are methods with loops.
- Each of these methods is proved against a specification function:
  `CollectionHit`, `SceneHit`, `ObjectsTriangles`, `Samples` and `Total`.

## Model

| member | source | states |
|---|---|---|
| Vector.NormSquared | src/vector.rs:49-51 | the squared norm is never negative, and it is zero exactly for the zero vector |
| Vector.Norm | src/vector.rs:53-55 | the norm is the non-negative number whose square is the squared norm; it is positive for every non-zero vector |
| Vector.DotSymmetric | src/vector.rs:19-21 | `dot(u, v) == dot(v, u)` |
| Vector.DotLinear | src/vector.rs:19-21 | dot is linear in its first argument: `dot(a + t b, c) == dot(a, c) + t dot(b, c)` |
| Vector.DotScaleLeft | src/vector.rs:19-21 | a scalar factor moves out of a dot product |
| Vector.DotOfEquals | src/vector.rs:19-21 | `dot(v, v)` is never negative and is positive for non-zero v |
| Vector.CrossOrthogonal | src/vector.rs:23-29 | `cross(u, v)` is orthogonal to both u and v |
| Vector.CrossAntiCommutative | src/vector.rs:23-29 | `cross(u, v) == -cross(v, u)` |
| Vector.CrossAddLeft | src/vector.rs:23-29 | the cross product distributes over addition on the left |
| Vector.CrossScaleLeft | src/vector.rs:23-29 | a scalar factor moves out of a cross product |
| Vector.CrossParallel | src/vector.rs:23-29 | a multiple of n crossed with n is zero |
| Vector.CrossAddMultiple | src/vector.rs:23-29 | adding a multiple of n to a vector does not change its cross product with n |
| Vector.NegInvolutive | src/vector.rs:63-70 | negation is involutive: `-(-a) == a` |
| Vector.AddNeg | src/vector.rs:63-80 | `a + (-a)` is the zero vector |
| Vector.SubIsAddNeg | src/vector.rs:63-90 | `a - b == a + (-b)` |
| Vector.ScaleDistributes | src/vector.rs:92-101 | scalar multiplication distributes over vector addition |
| Vector.ScaleOne | src/vector.rs:92-101 | `1 * v == v` |
| Vector.ScaleScale | src/vector.rs:92-101 | `a * (b * v) == (a b) * v` |
| Vector.NormSquaredScale | src/vector.rs:92-101 | scaling by k scales the squared norm by k squared |
| Vector.ScaleCancel | src/vector.rs:92-101 | a non-zero scalar factor cancels from both sides of an equation |
| Vector.ScaleNonZero | src/vector.rs:92-101 | a non-zero multiple of a non-zero vector is non-zero |
| Vector.ScaleDiv | src/vector.rs:108-117 | dividing by a non-zero k and multiplying by k again gives the vector back |
| Vector.Normalise | src/vector.rs:57-59 | `normalise(v)` of a non-zero v has unit length, and its multiple by `norm(v)` is v again |
| Vector.NormaliseOrthogonal | src/vector.rs:57-59 | normalising keeps orthogonality to any vector |
| Vector.NormaliseUnit | src/vector.rs:57-59 | a unit vector normalises to itself |
| Vector.NormaliseScaledUnit | src/vector.rs:57-59 | a positive multiple of a unit vector normalises back to that unit vector |
| Colours.WhiteIdentity | src/colour.rs:22-34 | `WHITE * c == c` and `c * WHITE == c` |
| Colours.BlackAbsorbs | src/colour.rs:22-33 | `BLACK * c == BLACK` and `c * BLACK == BLACK` |
| Colours.MulCommutative | src/colour.rs:22-30 | the component-wise colour product is commutative |
| Colours.MulScale | src/colour.rs:22-30 | a scalar factor moves out of the colour product |
| Materials.SchlickNormalIncidence | src/material.rs:27-30 | `schlick(1, n)` is the normal-incidence reflectance `((1 - n) / (1 + n))^2` |
| Materials.SchlickGrazing | src/material.rs:27-30 | `schlick(0, n) == 1`: grazing light is reflected completely |
| Materials.R0Bounds | src/material.rs:27-30 | for n > 0 the normal-incidence reflectance lies in [0, 1] |
| Materials.SchlickBounds | src/material.rs:27-30 | for n > 0 and cos in [0, 1], Schlick's value lies in [0, 1], so the integrator can use it as a probability |
| Materials.Refract | src/material.rs:34-44 | `refract` returns None exactly when `1 - refr^2 (1 - dot(v, n)^2) <= 0` (total internal reflection) |
| Materials.RefractTangential | src/material.rs:34-44 | Snell's law in vector form: the refracted direction's cross product with the normal is `refr` times the incoming one's |
| Materials.RefractRatioOne | src/material.rs:34-44 | with ratio 1 and `dot(v, n) != 0`, `refract` returns v itself: nothing bends |
| Materials.HenyeyGreensteinIsotropic | src/material.rs:49-51 | with g = 0 the phase function is 1/2 for every cosine |
| Materials.HenyeyGreensteinNonNegative | src/material.rs:49-51 | for g in [-1, 1] and a positive base, the phase function is never negative |
| Shapes.NewTriangle | src/shape.rs:26-31 | `Triangle::new` stores a, b and c unchanged. For a non-degenerate triangle the normal has unit length, is orthogonal to both edges from a, and points the way of `(b - a) x (c - a)`: that cross product is the normal times its length. For a degenerate triangle the normal is zero. |
| Shapes.NewTriangleUnitCross | src/shape.rs:26-31 | when the edge cross product already has unit length, it is the stored normal |
| Shapes.UnitTriangleNormal | src/shape.rs:26-31 | the triangle (0, X, Y) gets normal Z |
| Shapes.PlaneParameterOnPlane | src/shape.rs:42-44 | for a ray facing the triangle, the point at the solved parameter lies in the triangle's plane: `dot(p, normal) == dot(a, normal)` |
| Shapes.TriangleIntersectAsWritten | src/shape.rs:35-58 | the test as written reports nothing when `dot(direction, normal) >= 0` (single-sided). For a ray facing the triangle it reports a hit exactly when the point at the plane parameter passes all three edge tests, whatever the sign of that parameter. A hit lies on the ray at its dist, lies in the plane and carries the triangle's normal. |
| Shapes.DegenerateTriangleMisses | src/shape.rs:26-58 | a triangle with collinear vertices is never hit |
| Shapes.TriangleHitBehindOrigin | src/shape.rs:35-58 | the test as written reports a hit at distance -h for a ray that starts at (u, v, -h), a distance h behind the back face of the unit triangle, and points away from it (see Findings) |
| Shapes.TriangleIntersect | src/shape.rs:35-58 | the corrected test: every hit it reports has a positive distance and agrees with the test as written; it rejects a written hit only when that hit's distance is at most 0 |
| Shapes.TriangleIntersectHits | src/shape.rs:35-58 | the corrected test hits exactly when the ray faces the triangle, the plane lies ahead (t > 0) and the point passes the three edge tests |
| Shapes.NoRootBelowZero | src/shape.rs:82-86 | when the discriminant is negative the quadratic has no root, so returning None loses no hit |
| Shapes.RootsOfQuadratic | src/shape.rs:87-93 | `(-b - s) / 2a` and `(-b + s) / 2a` are roots, the first no larger than the second, and there are no others |
| Shapes.NearestRootIsLeast | src/shape.rs:82-94 | the root selection returns the least non-negative root; it returns None only when there is no non-negative root |
| Shapes.NearestRoot | src/shape.rs:82-94 | the root selection returns None whenever the discriminant is negative, and a root it returns is never negative |
| Shapes.SphereNormal | src/shape.rs:69-71 | the normal is `(point - centre) / radius`: radius times the normal is `point - centre` |
| Shapes.SphereNormalUnit | src/shape.rs:69-71 | at a point on the sphere the normal has unit length |
| Shapes.SphereQuadraticValue | src/shape.rs:77-80 | the quadratic's value at t is `|origin + t direction - centre|^2 - r^2` |
| Shapes.SphereEquation | src/shape.rs:77-80 | `origin + t direction` lies on the sphere exactly when t is a root of `a t^2 + b t + c` |
| Shapes.SphereIntersect | src/shape.rs:76-98 | a hit's point is `origin + dist direction`, and its normal is the sphere's normal there |
| Shapes.SphereIntersectNearest | src/shape.rs:76-98 | a hit has dist >= 0, lies on the sphere, has a unit normal and is the nearest point of the sphere ahead of the origin; None means no point of the sphere lies ahead |
| Shapes.SphereHitAhead | src/shape.rs:84-94 | a sphere hit is never behind the ray's origin |
| Shapes.Intersect | src/shape.rs:14 | `Shape::intersect` for either shape: a hit lies on the ray at its dist and is never behind the origin. A triangle hit is one the test as written also reports, and the only written hits it drops have dist <= 0 (see Findings). |
| Objects.NearestOfIsFirstNearest | src/object.rs:107-123 | the strict-`<` scan returns None exactly when no candidate hits; otherwise it returns the first candidate whose distance is minimal |
| Objects.GeneralIntersect | src/object.rs:32-40 | None exactly when the shape misses; a hit copies point, normal and dist from the shape's hit, and material and colour from the object |
| Objects.CollectionHit | src/object.rs:73-91 | a collection reports nothing exactly when none of its shapes is hit; a hit carries the collection's material and colour |
| Objects.CollectionIntersect | src/object.rs:72-91 | the scan loop computes the collection's nearest hit |
| Objects.CollectionNearest | src/object.rs:74-91 | None exactly when no shape hits. A hit is the first nearest shape hit, and it carries the collection's own material and colour. |
| Objects.Square | src/object.rs:54-67 | `square` is a collection of exactly the two triangles `new(a, d, b)` and `new(b, d, c)`, carrying the given material and colour |
| Objects.SquareFlat | src/object.rs:54-67 | for a parallelogram (a + c == b + d) the two triangles of the square have the same normal, so the square is flat and faces one way |
| Objects.MediumIntersect | src/object.rs:181-191 | the medium always reports a hit at the free-path distance `-ln_1p(-u) / density`. The hit point is on the ray, the normal is the ray's direction, and material and colour are the medium's. |
| Objects.MediumAhead | src/object.rs:182 | for a positive density and a draw in [0, 1), the free-path distance is never negative |
| Objects.IntersectObject | src/object.rs:112 | the call `object.intersect(ray)` dispatches on the kind of object |
| Objects.ObjectIntersect | src/object.rs:21 | `Object::intersect` for any object: a medium always reports a hit, a single shape exactly when the shape is hit, and every hit carries the object's material and colour |
| Objects.SceneIntersect | src/object.rs:107-123 | the scan loop over the object list computes the scene's nearest hit |
| Objects.SceneNearest | src/object.rs:107-123 | None exactly when no object hits. Otherwise the result is one object's hit, unchanged, and that object is the first with minimal distance. |
| Objects.SceneHit | src/object.rs:107-123 | a hit of the object list carries the material and colour of one of its objects |
| Objects.SceneWithMediumHits | src/object.rs:181-191 | a scene that contains a medium is never missed |
| Objects.WindowsPairs | src/object.rs:160 | `windows(2)` yields the consecutive pairs, one fewer than the elements (none for fewer than two) |
| Objects.RestWindows | src/object.rs:159-161 | the windows of `poly[1..]` pair `poly[w + 1]` with `poly[w + 2]` |
| Objects.FanShape | src/object.rs:158-163 | a polygon with k indices gives `k - 2` triangles (none below three). Triangle i is `(poly[0], poly[i + 1], poly[i + 2])`. |
| Objects.PolysStep | src/object.rs:158-164 | the triangles of a group's polygons are those of each polygon in order |
| Objects.GroupsStep | src/object.rs:157-165 | the triangles of an object's groups are those of each group in order |
| Objects.ObjectsStep | src/object.rs:156-166 | the triangles of the objects are those of each object in order |
| Objects.ConvertObjectsToPolygons | src/object.rs:128-169 | the three nested loops produce the fan triangles of every polygon, in object, group and polygon order |
| Objects.PushGroups | src/object.rs:157-165 | the group loop appends the triangles of every group of one object |
| Objects.PushPolys | src/object.rs:158-164 | the polygon loop appends the triangles of every polygon of one group |
| Objects.PushFan | src/object.rs:159-163 | the window loop appends exactly the polygon's fan |
| Cameras.Directions | src/camera.rs:9-12 | side is the unit vector along `global_up x looking` (that cross product is side times its length), so it is orthogonal to looking and to the world's up. Up is `looking x side`: orthogonal to looking and to side, and on the same side as the world's up (`dot(up, global_up) > 0`). |
| Cameras.DirectionsOrthonormal | src/camera.rs:9-12 | for a unit viewing direction, up has unit length too, so the frame is orthonormal |
| Cameras.SimpleCamera.constructor | src/camera.rs:32-41 | `new` stores position and looking unchanged, takes side and up from `directions`, and sets `tan_half_fov = tan(fov / 2)` |
| Cameras.ViewRay | src/camera.rs:45-56 | the pixel's ray starts at the camera's position and has a unit direction that points ahead of the camera |
| Cameras.SimpleCamera.GenerateRay | src/camera.rs:45-56 | `generate_ray` returns a ray from the position with a unit direction ahead of the camera |
| Cameras.CentreRay | src/camera.rs:52-56 | at the centre pixel (2x = width, 2y = height) the ray points straight along a unit viewing direction |
| Cameras.SimpleCamera.Translate | src/camera.rs:61-65 | `translate` moves only the position, by the offset taken along looking, side and up |
| Cameras.LocalOffsetZero | src/camera.rs:61-65 | translating by zero does not move the camera |
| Cameras.LocalOffsetAdd | src/camera.rs:61-65 | the camera-local offset is additive |
| Cameras.TranslateCompose | src/camera.rs:61-65 | `translate(d1); translate(d2)` moves the camera as `translate(d1 + d2)` does |
| Cameras.TranslateRoundTrip | src/camera.rs:61-65 | `translate(d); translate(-d)` puts the camera back where it was |
| Integrator.GlassRatioReciprocal | src/old.rs:279-285 | the entering ratio 1/n and the leaving ratio n are reciprocal |
| Integrator.FacingAgainstRay | src/old.rs:287 | the turned normal `-signum(cos) normal` meets the ray at `-|cos|`, so it never points along the ray |
| Integrator.GlassEvent | src/old.rs:273-310 | every glass branch is one unfiltered, unweighted bounce |
| Integrator.GlassTotalInternalReflection | src/old.rs:302-307 | under total internal reflection the ray is always reflected about the normal and starts on the incoming side, whatever the draw |
| Integrator.GlassFresnelChoice | src/old.rs:288-299 | when a refracted direction exists, a draw below Schlick's value reflects the ray from the incoming side; any other draw transmits it from the far side |
| Integrator.OffsetSides | src/old.rs:294-306 | for a positive EPS the reflected ray starts behind the surface as the ray sees it, and the transmitted ray starts beyond it; the two start points differ |
| Integrator.GlassIndexOne | src/old.rs:273-310 | glass of index 1 transmits without bending |
| Tracer.Bounces | src/old.rs:237-331 | the number of nested `trace` calls is at most the initial depth |
| Tracer.InteractKinds | src/old.rs:246-327 | the path ends exactly at Light, LightUni, LightCos and Test, and at LambertCos hit from behind, which returns BLACK. Every other material sends a ray on, and only Scatter tints it. |
| Tracer.TraceDarkScene | src/old.rs:237-331 | in a scene with no Light, LightUni, LightCos or Test object, `trace` returns BLACK for every ray, depth and draw |
| Tracer.TraceDepthZero | src/old.rs:238 | `trace` at depth 0 is BLACK with no recursion, whatever the scene and the ray |
| Tracer.TraceMiss | src/old.rs:329 | on a miss `trace` returns `background(ray)`, which is BLACK in this file, and does not recurse |
| Tracer.TraceEmptyScene | src/old.rs:237-331 | an empty scene renders BLACK |
| Tracer.TraceLight | src/old.rs:320 | a Light returns `intensity * colour` and ends the path |
| Tracer.TraceLightUni | src/old.rs:322 | a LightUni returns `intensity * colour` when `dot(normal, direction) < 0` and BLACK otherwise; it ends the path |
| Tracer.CosFalloff | src/old.rs:324 | the LightCos falloff is never negative and is 0 on the light's back side |
| Tracer.TraceLightCos | src/old.rs:324 | a LightCos returns `falloff * intensity * colour` and ends the path |
| Tracer.TraceLightCosBackFace | src/old.rs:324 | a LightCos seen from behind is BLACK |
| Tracer.TraceTest | src/old.rs:326 | Test returns the object's colour and ends the path |
| Tracer.TraceLambertCosBackFace | src/old.rs:256-264 | LambertCos hit from behind is BLACK with no recursive call |
| Tracer.TraceGlassTotalInternalReflection | src/old.rs:273-310 | under total internal reflection, glass traces the ray reflected about the normal one level deeper, unweighted |
| Tracer.ScatterSampleSign | src/old.rs:312-318 | Scatter continues along the drawn vector from the hit point, weighted by the phase function, the colour and `1 / 2 PI` |
| Tracer.TraceUsesOwnDraws | src/old.rs:237-331 | the result depends only on the draws of the levels it visits |
| EarlyTracer.Bounces | src/main.rs:247-325 | the number of nested `trace` calls is at most the initial depth |
| EarlyTracer.InteractKinds | src/main.rs:256-321 | the path ends exactly at Light and Test; every other material sends a ray on, untinted |
| EarlyTracer.TraceDarkScene | src/main.rs:247-325 | with no Light or Test object and a black sky, `trace` returns BLACK for every ray, depth and draw |
| EarlyTracer.TraceDepthZero | src/main.rs:248 | `trace` at depth 0 is BLACK |
| EarlyTracer.TraceMiss | src/main.rs:323 | on a miss `trace` returns `background(ray)` and does not recurse |
| EarlyTracer.TraceEmptyScene | src/main.rs:247-325 | an empty scene shows the background |
| EarlyTracer.TraceLight | src/main.rs:318 | a Light returns `intensity * colour` and ends the path |
| EarlyTracer.TraceTest | src/main.rs:320 | Test returns the object's colour and ends the path |
| EarlyTracer.TraceLambertCosAlwaysBounces | src/main.rs:266-270 | in this version LambertCos always recurses, with no check of the side the ray arrives from |
| EarlyTracer.TraceUsesOwnDraws | src/main.rs:247-325 | the result depends only on the draws of the levels it visits |
| Accumulation.SamplesStep | src/old.rs:42-44 | adding one more sample to a pixel's running sum adds that sample's radiance |
| Accumulation.TotalOfConstant | src/old.rs:42-44 | the sum of n equal samples is n times the sample |
| Accumulation.AverageOfConstant | src/old.rs:40-46 | when every sample has the same value, the pixel's average is that value |
| Accumulation.SumSamples | src/old.rs:40-44 | the per-pixel loop starts from BLACK and adds one trace per sample |
| Accumulation.Render | src/old.rs:39-46 | every pixel is the sum of `samples` traces through it, divided by `samples` |
| Accumulation.PixelIndex | src/old.rs:99 | `x + y * width` is the row-major index of (x, y): its remainder by width is x and its quotient is y |
| Accumulation.PixelInImage | src/old.rs:99 | the index of a pixel inside the image is below `width * height` |
| Accumulation.IndexInImage | src/old.rs:113-117 | every index below `width * height` names a pixel inside the image |
| Accumulation.BuildPixels | src/old.rs:111-117 | the pixel list is row-major: entry i is `(i % width, i / width)` |
| Accumulation.AddColumn | src/old.rs:98-101 | one column of a frame adds one trace to each of its back-buffer entries and refreshes their display values; the other columns are untouched |
| Accumulation.AddFrameInPlace | src/old.rs:96-102 | one frame adds exactly one trace to every `backbuffer[x + y * width]` and shows `backbuffer / samples` |
| Accumulation.RenderWindow | src/old.rs:83-107 | after n frames the sample counter is n, each back-buffer entry is the sum of n traces and each display entry is their average |
| Accumulation.SumsGainFrame | src/old.rs:96-99 | adding one frame's traces to sums of `frame` samples gives sums of `frame + 1` samples |
| Accumulation.MoveIf | src/old.rs:130-134 | one key test moves the camera by its step when the key is down and not otherwise |
| Accumulation.HandleKeys | src/old.rs:130-164 | the six key tests move the camera by the sum of the pressed keys' steps; the camera stays put when no movement key is down; the result says whether any was |
| Accumulation.StillKeys | src/old.rs:130-164 | with no movement key down the keys' total step is zero |
| Accumulation.StandStill | src/old.rs:130-164 | with no movement key down the camera does not move |
| Accumulation.WalkIsTravel | src/old.rs:130-164 | after a sequence of frames the camera has moved by the sum of all the frames' key steps, taken along its own axes |
| Accumulation.LastReset | src/old.rs:130-164 | the frame of the last reset is within the frames seen |
| Accumulation.LastResetIsLastMove | src/old.rs:130-164 | no frame after the last reset moved the camera, and the reset frame moved it unless no frame ever did |
| Accumulation.MoveCamera | src/old.rs:130-164 | handling a frame's keys moves the camera one step along its walk |
| Accumulation.AddFrame | src/old.rs:173-175 | the map over the back buffer and the pixel list adds one trace, at that pixel, to every entry |
| Accumulation.MovingSumsGainFrame | src/old.rs:173-175 | adding one frame's traces to sums over frames `[from, frame)` gives sums over `[from, frame + 1)` |
| Accumulation.Accumulate | src/old.rs:130-184 | a movement resets the counter and the back buffer before the increment, so the count is 1 after a move and one more otherwise; each entry gains one trace and the display divides by the count |
| Accumulation.RenderWindowIter | src/old.rs:110-189 | after the frames seen, the counter is the number of frames since the last reset (at least 1), each back-buffer entry sums exactly the post-reset traces, the display is their average, and the camera has walked by the keys' steps |
| Renderer.Render | src/old.rs:32-52 | each pixel of the image is the mean of `samples` traces of the camera's ray through it |
| Renderer.RenderWindow | src/old.rs:83-107 | after n > 0 frames each displayed pixel is the mean of n traces |
| Renderer.RenderWindowIter | src/old.rs:110-189 | each displayed pixel is the mean of the traces since the last camera movement, taken from the camera's final position |
| Renderer.IterPixels | src/old.rs:173-175 | the accumulated sums are sums of traces of `generate_ray` at the camera's current position |
| Renderer.EmptySceneIsBlack | src/old.rs:39-46 | an empty scene renders to a black image |
| EarlyRenderer.Render | src/main.rs:59-66 | each pixel is the mean of `samples` depth-4 traces of the camera's ray through it |
| EarlyRenderer.RenderWindow | src/main.rs:108-132 | after n > 0 frames each displayed pixel is the mean of n depth-5 traces |
| EarlyRenderer.RenderWindowIter | src/main.rs:134-210 | each displayed pixel is the mean of the depth-5 traces since the last camera movement |
| EarlyRenderer.IterPixels | src/main.rs:201-203 | the accumulated sums are sums of traces of `generate_ray` at the camera's current position |
| EarlyRenderer.EmptySceneShowsBackground | src/main.rs:59-66 | an empty scene renders every pixel as the background seen along its ray |

## Left out

- Tone mapping and encoding are not modelled: `to_image_rgb`, `to_u32_rgb`, `to_u32_rgb_filmic`, `exp` and the gamma `powf`. The displayed buffers hold colours (`backbuffer / samples`), not packed `u32` pixels.
- Window and input plumbing is not modelled: the window, `update_with_buffer`, saving the image, and the Escape key that ends the loop. Key presses are an input sequence with one `Keys` value per frame, and the number of frames is a parameter.
- `par_iter` and `iter` maps are modelled as sequential maps; concurrency is not modelled.
- `render_iter` is not modelled. It is a display-only variant whose pixel mapping `y = i / height` disagrees with the row-major buffer.
- The sky `background` of `src/main.rs` (`powf(300.)`, `powf(1.5)`) is a parameter of `EarlyTracer.Trace`.
- `reflect`, `EPS`, `random_float`, `random_hemisphere`, `random_hemisphere_cosine` and `random_vector` are parameters, because they are not defined in the modelled files. `Ray::eval` is `Vector.Eval`.
- `Plane`, `rect` and `cuboid` are not part of this model. Scenes hold general shapes (triangle or sphere), collections of shapes and media.
- `SimpleAACamera`, `DOFCamera` and the scene constructors are not modelled; they only build data.
- `Obj::load` and the file parsing are not modelled. The triangulation works on an abstract list of positions and index lists. Indices that are out of range are excluded by a precondition.
- `src/main.rs` does not compile against the current `src/material.rs`, because it uses payload-free `Lambert`, `LambertCos` and `Mirror`. `EarlyTracer` models it against its own six-variant material set.
- Floating point is not modelled. There is no f32 rounding, no NaN or infinity, and no overflow. Divisions by zero are excluded by preconditions instead (`ValidShape`, `ValidObject`, `ValidMaterial`).
- Shapes.Intersect: triangles are tested with the corrected test `Shapes.TriangleIntersect` (see Findings). Every object, scene, trace and render member of this model therefore uses the corrected test, which drops the written test's hits at dist <= 0. The test as written is `Shapes.TriangleIntersectAsWritten`, and `Shapes.Intersect` states how the two differ.
- Shapes.SphereIntersect: a ray with a zero direction makes `2a` zero, and the source then computes with NaN. The model returns None for it instead.
- Accumulation.Render: requires `samples > 0`, and so do `Renderer.Render` and `EarlyRenderer.Render`. With no samples the source divides every pixel by zero and shows NaN.
- Vector.Normalise: requires a non-zero vector. The source divides a zero vector by its zero length and gets NaN.
- Signed zero is not modelled. `signum` returns 1 at zero, the `signum` of +0.0. `is_sign_negative` is `< 0`, so a dot product of -0.0 counts as not negative.
- Materials.HenyeyGreenstein: the model multiplies by `pow(base, -1.5)` where the source divides by `base.powf(1.5)`. The two agree wherever the source's value is finite.
- Vector.Div: it has no contract of its own. What it computes is stated by the lemma `Vector.ScaleDiv`.
- Tracer.ScatterSampleSign: it covers only non-negative uniform draws, which is the range of `random_float`. The model also keeps the source's double application of the hit colour on the Scatter branch: once inside the branch and once outside the `match`.
- Statistical claims are not modelled: unbiasedness of the Fresnel choice, variance, convergence.

## Findings

| source | as written | input that shows it | evidently intended | confidence | as-written member | corrected member |
|---|---|---|---|---|---|---|
| src/shape.rs:35-58 | `Triangle::intersect` accepts any plane parameter t, including t <= 0, so it reports hits behind the ray's origin | unit triangle (0, X, Y) with normal Z. The ray starts at (u, v, -h) with h > 0, 0 <= u, 0 <= v, u + v <= 1, and has direction (0, 0, -1), pointing away from the triangle. A hit is reported at dist -h, point (u, v, 0). | only intersections ahead of the origin (t > 0) are hits, as for the sphere, whose test rejects negative roots | not executed | Shapes.TriangleHitBehindOrigin | Shapes.TriangleIntersect |
