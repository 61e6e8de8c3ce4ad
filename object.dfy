/**
 * Objects: shapes dressed with a material and a colour, and the scans that
 * pick the nearest hit among many shapes or many objects (src/object.rs).
 * Objects are generic in the material type `M`, because the two
 * integrators of the repository use two different material enums.
 */
module Objects {
  import opened Wrappers
  import opened Maths
  import opened Vector
  import opened Colours
  import opened Shapes

  /** What an object reports for a hit: the shape's hit plus the object's look. */
  datatype ObjectHit<M> = ObjectHit(point: Vec3, normal: Vec3, dist: real, material: M, colour: Colour)

  /**
   * The implementations of `Object` in the source: one shape
   * (`GeneralObject`), a list of shapes sharing one look
   * (`ObjectCollection`), and a participating medium (`MediumObject`).
   */
  datatype Object<M> =
    | General(shape: Shape, material: M, colour: Colour)
    | Collection(shapes: seq<Shape>, material: M, colour: Colour)
    | Medium(density: real, material: M, colour: Colour)

  /** Every shape is a valid shape, and a medium's density (a divisor) is not zero. */
  predicate ValidObject<M>(o: Object<M>)
  {
    match o
    case General(s, _, _) => ValidShape(s)
    case Collection(shapes, _, _) => forall i :: 0 <= i < |shapes| ==> ValidShape(shapes[i])
    case Medium(density, _, _) => density != 0.0
  }

  // ---------------------------------------------------------------------
  // The nearest of a sequence of candidate hits

  /** One step of the scans: a candidate replaces the best so far only when it is strictly nearer. */
  function Better<H>(best: Option<H>, candidate: Option<H>, dist: H -> real): Option<H>
  {
    match candidate
    case None => best
    case Some(c) =>
      match best
      case None => candidate
      case Some(b) => if dist(c) < dist(b) then candidate else best
  }

  /** The result of scanning the candidates from first to last. */
  function NearestOf<H>(hits: seq<Option<H>>, dist: H -> real): Option<H>
  {
    if |hits| == 0 then None
    else Better(NearestOf(hits[..|hits| - 1], dist), hits[|hits| - 1], dist)
  }

  /**
   * Candidate i is a hit, no hit is nearer, and every hit before it is
   * strictly farther: the first of the nearest hits.
   */
  ghost predicate FirstNearest<H>(hits: seq<Option<H>>, dist: H -> real, i: int)
  {
    && 0 <= i < |hits| && hits[i].Some?
    && (forall j :: 0 <= j < |hits| && hits[j].Some? ==> dist(hits[i].value) <= dist(hits[j].value))
    && (forall j :: 0 <= j < i && hits[j].Some? ==> dist(hits[i].value) < dist(hits[j].value))
  }

  /**
   * The scan finds nothing exactly when no candidate hits, and otherwise
   * returns, unchanged, the first of the nearest candidates.
   */
  lemma {:induction false} NearestOfIsFirstNearest<H>(hits: seq<Option<H>>, dist: H -> real)
    ensures NearestOf(hits, dist).None? <==> forall j :: 0 <= j < |hits| ==> hits[j].None?
    ensures NearestOf(hits, dist).Some? ==>
      exists i :: FirstNearest(hits, dist, i) && hits[i] == NearestOf(hits, dist)
  {
    if |hits| > 0 {
      var n := |hits| - 1;
      var front := hits[..n];
      NearestOfIsFirstNearest(front, dist);
      assert forall j :: 0 <= j < n ==> front[j] == hits[j];
      var best := NearestOf(front, dist);
      if hits[n].Some? && (best.None? || dist(hits[n].value) < dist(best.value)) {
        if best.Some? {
          var i :| FirstNearest(front, dist, i) && front[i] == best;
        }
        assert FirstNearest(hits, dist, n);
      } else if best.Some? {
        var i :| FirstNearest(front, dist, i) && front[i] == best;
        assert FirstNearest(hits, dist, i);
      }
    }
  }

  // ---------------------------------------------------------------------
  // One shape, or a collection of shapes, with one look

  function HitDistance(h: Hit): real
  {
    h.dist
  }

  function ObjectHitDistance<M>(h: ObjectHit<M>): real
  {
    h.dist
  }

  /** A shape hit reported with an object's material and colour. */
  function Dress<M>(h: Option<Hit>, material: M, colour: Colour): Option<ObjectHit<M>>
  {
    match h
    case None => None
    case Some(s) => Some(ObjectHit(s.point, s.norm, s.dist, material, colour))
  }

  /**
   * `GeneralObject::intersect`: a hit exactly when the shape is hit, with
   * the shape's point, normal and distance and the object's look.
   */
  function GeneralIntersect<M>(m: Maths, o: Object<M>, ray: Ray): (r: Option<ObjectHit<M>>)
    requires o.General? && ValidObject(o)
    ensures r.None? <==> Intersect(m, o.shape, ray).None?
    ensures r.Some? ==>
      var h := Intersect(m, o.shape, ray).value;
      && r.value.point == h.point && r.value.normal == h.norm && r.value.dist == h.dist
      && r.value.material == o.material && r.value.colour == o.colour
  {
    Dress(Intersect(m, o.shape, ray), o.material, o.colour)
  }

  /** What every shape of a list reports for a ray, in list order. */
  function ShapeHits(m: Maths, shapes: seq<Shape>, ray: Ray): seq<Option<Hit>>
    requires forall i :: 0 <= i < |shapes| ==> ValidShape(shapes[i])
  {
    seq(|shapes|, i requires 0 <= i < |shapes| => Intersect(m, shapes[i], ray))
  }

  /**
   * The value `ObjectCollection::intersect` computes: the scan's result, with
   * the collection's look. It is nothing exactly when no shape is hit.
   */
  function CollectionHit<M>(m: Maths, o: Object<M>, ray: Ray): (r: Option<ObjectHit<M>>)
    requires o.Collection? && ValidObject(o)
    ensures r.None? <==> forall j :: 0 <= j < |o.shapes| ==> Intersect(m, o.shapes[j], ray).None?
    ensures r.Some? ==> r.value.material == o.material && r.value.colour == o.colour
  {
    var hits := ShapeHits(m, o.shapes, ray);
    NearestOfIsFirstNearest(hits, HitDistance);
    assert forall j :: 0 <= j < |hits| ==> hits[j] == Intersect(m, o.shapes[j], ray);
    Dress(NearestOf(hits, HitDistance), o.material, o.colour)
  }

  /** `ObjectCollection::intersect`: the loop over the shapes keeping the nearest hit so far. */
  method CollectionIntersect<M>(m: Maths, o: Object<M>, ray: Ray) returns (r: Option<ObjectHit<M>>)
    requires o.Collection? && ValidObject(o)
    ensures r == CollectionHit(m, o, ray)
  {
    ghost var hits := ShapeHits(m, o.shapes, ray);
    var hit: Option<Hit> := None;
    var i := 0;
    while i < |o.shapes|
      invariant 0 <= i <= |o.shapes|
      invariant hit == NearestOf(hits[..i], HitDistance)
    {
      var candidate := Intersect(m, o.shapes[i], ray);
      if candidate.Some? {
        match hit {
          case None =>
            hit := candidate;
          case Some(previous) =>
            if candidate.value.dist < previous.dist {
              hit := candidate;
            }
        }
      }
      assert hits[..i + 1][..i] == hits[..i];
      i := i + 1;
    }
    assert hits[..i] == hits;
    r := Dress(hit, o.material, o.colour);
  }

  /**
   * A collection reports nothing exactly when none of its shapes is hit;
   * otherwise it reports the first of its nearest shape hits, always with
   * its own material and colour.
   */
  lemma CollectionNearest<M>(m: Maths, o: Object<M>, ray: Ray)
    requires o.Collection? && ValidObject(o)
    ensures CollectionHit(m, o, ray).None? <==>
      forall j :: 0 <= j < |o.shapes| ==> Intersect(m, o.shapes[j], ray).None?
    ensures CollectionHit(m, o, ray).Some? ==>
      var r := CollectionHit(m, o, ray).value;
      && r.material == o.material && r.colour == o.colour
      && exists i :: FirstNearest(ShapeHits(m, o.shapes, ray), HitDistance, i)
           && Intersect(m, o.shapes[i], ray) == Some(Hit(r.dist, r.point, r.normal))
  {
    var hits := ShapeHits(m, o.shapes, ray);
    NearestOfIsFirstNearest(hits, HitDistance);
    forall j | 0 <= j < |hits|
      ensures hits[j] == Intersect(m, o.shapes[j], ray)
    {
    }
    if CollectionHit(m, o, ray).Some? {
      var i :| FirstNearest(hits, HitDistance, i) && hits[i] == NearestOf(hits, HitDistance);
      assert Intersect(m, o.shapes[i], ray) == hits[i];
    }
  }

  /**
   * `ObjectCollection::square`: the quadrilateral a, b, c, d as the two
   * triangles (a, d, b) and (b, d, c), which share the diagonal from b to d.
   */
  function Square<M>(m: Maths, a: Vec3, b: Vec3, c: Vec3, d: Vec3, material: M, colour: Colour): (o: Object<M>)
    requires m.Valid()
    ensures o.Collection? && |o.shapes| == 2
    ensures o.shapes[0] == NewTriangle(m, a, d, b) && o.shapes[1] == NewTriangle(m, b, d, c)
    ensures o.material == material && o.colour == colour
  {
    Collection([NewTriangle(m, a, d, b), NewTriangle(m, b, d, c)], material, colour)
  }

  /**
   * For a parallelogram (a + c == b + d), the two triangles of the square
   * face the same way: their normals are equal, so the square is flat and
   * single-sided as a whole.
   */
  lemma SquareFlat<M>(m: Maths, a: Vec3, b: Vec3, c: Vec3, d: Vec3, material: M, colour: Colour)
    requires m.Valid()
    requires Add(a, c) == Add(b, d)
    ensures Square(m, a, b, c, d, material, colour).shapes[0].normal ==
            Square(m, a, b, c, d, material, colour).shapes[1].normal
  {
    ParallelogramCross(a, b, c, d);
  }

  /** The two edge cross products of the square's triangles agree on a parallelogram. */
  lemma ParallelogramCross(a: Vec3, b: Vec3, c: Vec3, d: Vec3)
    requires Add(a, c) == Add(b, d)
    ensures Cross(Sub(d, b), Sub(c, b)) == Cross(Sub(d, a), Sub(b, a))
  {
    var p := Sub(d, a);
    var q := Sub(b, a);
    assert Sub(c, b) == p;
    assert Sub(d, b) == Sub(p, q);
    assert Cross(Sub(p, q), p) == Cross(p, q);
  }

  // ---------------------------------------------------------------------
  // The medium

  /**
   * `MediumObject::intersect` for the uniform draw `u` it makes: a free
   * path of length `-ln(1 - u) / density` along the ray, always a hit, with
   * the ray's own direction as the normal.
   */
  function MediumIntersect<M>(m: Maths, o: Object<M>, ray: Ray, u: real): (r: Option<ObjectHit<M>>)
    requires o.Medium? && ValidObject(o)
    ensures r.Some?
    ensures r.value.dist == -m.ln1p(-u) / o.density
    ensures r.value.point == Eval(ray, r.value.dist) && r.value.normal == ray.direction
    ensures r.value.material == o.material && r.value.colour == o.colour
  {
    var dist := -m.ln1p(-u) / o.density;
    Some(ObjectHit(Eval(ray, dist), ray.direction, dist, o.material, o.colour))
  }

  /** For a positive density and a draw in [0, 1), the free path lies ahead of the ray's origin. */
  lemma MediumAhead<M>(m: Maths, o: Object<M>, ray: Ray, u: real)
    requires m.Valid()
    requires o.Medium? && o.density > 0.0
    requires 0.0 <= u < 1.0
    ensures MediumIntersect(m, o, ray, u).value.dist >= 0.0
  {
    var l := -m.ln1p(-u);
    assert l >= 0.0;
    assert o.density * (l / o.density) == l;
    NonNegativeFactor(o.density, l / o.density);
  }

  // ---------------------------------------------------------------------
  // Any object, and a list of objects

  /**
   * `Object::intersect` for any object; `u` is the draw a medium makes. A
   * medium always reports a hit, a single shape exactly when the shape is
   * hit, and every hit carries the object's material and colour.
   */
  function ObjectIntersect<M>(m: Maths, o: Object<M>, ray: Ray, u: real): (r: Option<ObjectHit<M>>)
    requires ValidObject(o)
    ensures o.Medium? ==> r.Some?
    ensures o.General? ==> (r.None? <==> Intersect(m, o.shape, ray).None?)
    ensures r.Some? ==> r.value.material == o.material && r.value.colour == o.colour
  {
    match o
    case General(_, _, _) => GeneralIntersect(m, o, ray)
    case Collection(_, _, _) => CollectionHit(m, o, ray)
    case Medium(_, _, _) => MediumIntersect(m, o, ray, u)
  }

  /** Dynamic dispatch on the kind of object; only a collection runs a loop. */
  method IntersectObject<M>(m: Maths, o: Object<M>, ray: Ray, u: real) returns (r: Option<ObjectHit<M>>)
    requires ValidObject(o)
    ensures r == ObjectIntersect(m, o, ray, u)
  {
    if o.Collection? {
      r := CollectionIntersect(m, o, ray);
    } else {
      r := ObjectIntersect(m, o, ray, u);
    }
  }

  predicate ValidObjects<M>(scene: seq<Object<M>>)
  {
    forall i :: 0 <= i < |scene| ==> ValidObject(scene[i])
  }

  /** What every object of a list reports; `draws(i)` is the draw object i makes if it is a medium. */
  function ObjectHits<M>(m: Maths, scene: seq<Object<M>>, ray: Ray, draws: nat -> real): seq<Option<ObjectHit<M>>>
    requires ValidObjects(scene)
  {
    seq(|scene|, i requires 0 <= i < |scene| => ObjectIntersect(m, scene[i], ray, draws(i)))
  }

  /**
   * The value the object-list intersect computes: a hit, when there is
   * one, carries the material and colour of one of the objects.
   */
  function SceneHit<M>(m: Maths, scene: seq<Object<M>>, ray: Ray, draws: nat -> real): (r: Option<ObjectHit<M>>)
    requires ValidObjects(scene)
    ensures r.Some? ==>
      exists i :: 0 <= i < |scene| && r.value.material == scene[i].material && r.value.colour == scene[i].colour
  {
    var hits := ObjectHits(m, scene, ray, draws);
    NearestOfIsFirstNearest(hits, ObjectHitDistance);
    assert forall j :: 0 <= j < |hits| ==> hits[j] == ObjectIntersect(m, scene[j], ray, draws(j));
    NearestOf(hits, ObjectHitDistance)
  }

  /** `Vec<Box<dyn Object>>::intersect`: the loop over the objects keeping the nearest hit so far. */
  method SceneIntersect<M>(m: Maths, scene: seq<Object<M>>, ray: Ray, draws: nat -> real)
    returns (r: Option<ObjectHit<M>>)
    requires ValidObjects(scene)
    ensures r == SceneHit(m, scene, ray, draws)
  {
    ghost var hits := ObjectHits(m, scene, ray, draws);
    r := None;
    var i := 0;
    while i < |scene|
      invariant 0 <= i <= |scene|
      invariant r == NearestOf(hits[..i], ObjectHitDistance)
    {
      var candidate := IntersectObject(m, scene[i], ray, draws(i));
      if candidate.Some? {
        match r {
          case None =>
            r := candidate;
          case Some(previous) =>
            if candidate.value.dist < previous.dist {
              r := candidate;
            }
        }
      }
      assert hits[..i + 1][..i] == hits[..i];
      i := i + 1;
    }
    assert hits[..i] == hits;
  }

  /**
   * The object list reports nothing exactly when no object is hit, and
   * otherwise one object's hit, unchanged: the first of the nearest.
   */
  lemma SceneNearest<M>(m: Maths, scene: seq<Object<M>>, ray: Ray, draws: nat -> real)
    requires ValidObjects(scene)
    ensures SceneHit(m, scene, ray, draws).None? <==>
      forall j :: 0 <= j < |scene| ==> ObjectIntersect(m, scene[j], ray, draws(j)).None?
    ensures SceneHit(m, scene, ray, draws).Some? ==>
      exists i :: FirstNearest(ObjectHits(m, scene, ray, draws), ObjectHitDistance, i)
        && ObjectIntersect(m, scene[i], ray, draws(i)) == SceneHit(m, scene, ray, draws)
  {
    var hits := ObjectHits(m, scene, ray, draws);
    NearestOfIsFirstNearest(hits, ObjectHitDistance);
    forall j | 0 <= j < |hits|
      ensures hits[j] == ObjectIntersect(m, scene[j], ray, draws(j))
    {
    }
    if SceneHit(m, scene, ray, draws).Some? {
      var i :| FirstNearest(hits, ObjectHitDistance, i) && hits[i] == NearestOf(hits, ObjectHitDistance);
      assert ObjectIntersect(m, scene[i], ray, draws(i)) == hits[i];
    }
  }

  /** A list holding a medium always reports a hit. */
  lemma SceneWithMediumHits<M>(m: Maths, scene: seq<Object<M>>, ray: Ray, draws: nat -> real, k: nat)
    requires ValidObjects(scene)
    requires k < |scene| && scene[k].Medium?
    ensures SceneHit(m, scene, ray, draws).Some?
  {
    SceneNearest(m, scene, ray, draws);
    assert ObjectIntersect(m, scene[k], ray, draws(k)).Some?;
  }

  // ---------------------------------------------------------------------
  // OBJ polygons to triangles

  /**
   * The part of a loaded OBJ file the conversion reads: vertex positions,
   * and objects made of groups made of polygons, each polygon a list of
   * position indices (the texture and normal indices are not read).
   */
  datatype ObjGroup = ObjGroup(polys: seq<seq<nat>>)
  datatype ObjObject = ObjObject(groups: seq<ObjGroup>)
  datatype ObjFile = ObjFile(positions: seq<Vec3>, objects: seq<ObjObject>)

  /**
   * What the conversion needs of a polygon: `poly[0]` exists, and, when
   * the polygon yields triangles, its indices name positions.
   */
  predicate ValidPoly(positions: seq<Vec3>, poly: seq<nat>)
  {
    |poly| >= 1 && (|poly| >= 3 ==> forall i :: 0 <= i < |poly| ==> poly[i] < |positions|)
  }

  predicate ValidPolys(positions: seq<Vec3>, polys: seq<seq<nat>>)
  {
    forall k :: 0 <= k < |polys| ==> ValidPoly(positions, polys[k])
  }

  predicate ValidGroups(positions: seq<Vec3>, groups: seq<ObjGroup>)
  {
    forall j :: 0 <= j < |groups| ==> ValidPolys(positions, groups[j].polys)
  }

  predicate ValidObjObjects(positions: seq<Vec3>, objects: seq<ObjObject>)
  {
    forall i :: 0 <= i < |objects| ==> ValidGroups(positions, objects[i].groups)
  }

  /** Rust's `windows(2)`: every pair of neighbours, in order. */
  function Windows<T>(s: seq<T>): seq<(T, T)>
  {
    if |s| < 2 then [] else [(s[0], s[1])] + Windows(s[1..])
  }

  /** There is one window per neighbouring pair, and window i is (s[i], s[i + 1]). */
  lemma {:induction false} WindowsPairs<T>(s: seq<T>)
    ensures |Windows(s)| == if |s| < 2 then 0 else |s| - 1
    ensures forall i :: 0 <= i < |Windows(s)| ==> Windows(s)[i] == (s[i], s[i + 1])
  {
    if |s| >= 2 {
      WindowsPairs(s[1..]);
    }
  }

  /** The windows of `poly[1..]` are the pairs (poly[w + 1], poly[w + 2]). */
  lemma RestWindows(poly: seq<nat>)
    requires |poly| >= 1
    ensures |Windows(poly[1..])| == if |poly| < 3 then 0 else |poly| - 2
    ensures forall w :: 0 <= w < |Windows(poly[1..])| ==>
      Windows(poly[1..])[w].0 == poly[w + 1] && Windows(poly[1..])[w].1 == poly[w + 2]
  {
    var rest := poly[1..];
    WindowsPairs(rest);
    forall w | 0 <= w < |Windows(rest)|
      ensures Windows(rest)[w].0 == poly[w + 1] && Windows(rest)[w].1 == poly[w + 2]
    {
      assert Windows(rest)[w] == (rest[w], rest[w + 1]);
      assert rest[w] == poly[w + 1] && rest[w + 1] == poly[w + 2];
    }
  }

  /** `make_polygon`: the triangle on three positions. */
  function MakeTriangle(m: Maths, positions: seq<Vec3>, i: nat, j: nat, k: nat): Shape
    requires m.Valid()
    requires i < |positions| && j < |positions| && k < |positions|
  {
    NewTriangle(m, positions[i], positions[j], positions[k])
  }

  /** The fan of a polygon: `poly[0]` with each window of the rest. */
  function Fan(m: Maths, positions: seq<Vec3>, poly: seq<nat>): seq<Shape>
    requires m.Valid() && ValidPoly(positions, poly)
  {
    var rest := Windows(poly[1..]);
    RestWindows(poly);
    seq(|rest|, w requires 0 <= w < |rest| => MakeTriangle(m, positions, poly[0], rest[w].0, rest[w].1))
  }

  /**
   * A polygon of k indices gives k - 2 triangles (none for k < 3); triangle
   * i has `poly[0]` as its first vertex and the neighbours `poly[i + 1]`,
   * `poly[i + 2]` as the other two.
   */
  lemma FanShape(m: Maths, positions: seq<Vec3>, poly: seq<nat>)
    requires m.Valid() && ValidPoly(positions, poly)
    ensures |Fan(m, positions, poly)| == if |poly| < 3 then 0 else |poly| - 2
    ensures forall i :: 0 <= i < |Fan(m, positions, poly)| ==>
      Fan(m, positions, poly)[i] == NewTriangle(m, positions[poly[0]], positions[poly[i + 1]], positions[poly[i + 2]])
  {
    RestWindows(poly);
  }

  /** The triangles of a list of polygons, polygon by polygon. */
  function PolysTriangles(m: Maths, positions: seq<Vec3>, polys: seq<seq<nat>>): seq<Shape>
    requires m.Valid() && ValidPolys(positions, polys)
  {
    if |polys| == 0 then []
    else PolysTriangles(m, positions, polys[..|polys| - 1]) + Fan(m, positions, polys[|polys| - 1])
  }

  /** The triangles of a list of groups, group by group. */
  function GroupsTriangles(m: Maths, positions: seq<Vec3>, groups: seq<ObjGroup>): seq<Shape>
    requires m.Valid() && ValidGroups(positions, groups)
  {
    if |groups| == 0 then []
    else GroupsTriangles(m, positions, groups[..|groups| - 1]) + PolysTriangles(m, positions, groups[|groups| - 1].polys)
  }

  /** The triangles of a list of objects, object by object. */
  function ObjectsTriangles(m: Maths, positions: seq<Vec3>, objects: seq<ObjObject>): seq<Shape>
    requires m.Valid() && ValidObjObjects(positions, objects)
  {
    if |objects| == 0 then []
    else ObjectsTriangles(m, positions, objects[..|objects| - 1]) + GroupsTriangles(m, positions, objects[|objects| - 1].groups)
  }

  // One more polygon, group or object appends its triangles.

  lemma PolysStep(m: Maths, positions: seq<Vec3>, polys: seq<seq<nat>>, k: nat)
    requires m.Valid() && ValidPolys(positions, polys) && k < |polys|
    ensures PolysTriangles(m, positions, polys[..k + 1]) ==
            PolysTriangles(m, positions, polys[..k]) + Fan(m, positions, polys[k])
  {
    assert polys[..k + 1][..k] == polys[..k];
  }

  lemma GroupsStep(m: Maths, positions: seq<Vec3>, groups: seq<ObjGroup>, k: nat)
    requires m.Valid() && ValidGroups(positions, groups) && k < |groups|
    ensures GroupsTriangles(m, positions, groups[..k + 1]) ==
            GroupsTriangles(m, positions, groups[..k]) + PolysTriangles(m, positions, groups[k].polys)
  {
    assert groups[..k + 1][..k] == groups[..k];
  }

  lemma ObjectsStep(m: Maths, positions: seq<Vec3>, objects: seq<ObjObject>, k: nat)
    requires m.Valid() && ValidObjObjects(positions, objects) && k < |objects|
    ensures ObjectsTriangles(m, positions, objects[..k + 1]) ==
            ObjectsTriangles(m, positions, objects[..k]) + GroupsTriangles(m, positions, objects[k].groups)
  {
    assert objects[..k + 1][..k] == objects[..k];
  }

  /**
   * `convert_objects_to_polygons`: the nested loops over objects, groups,
   * polygons and windows, pushing one triangle per window. The result is
   * every polygon's fan, in the order of the objects, then the groups,
   * then the polygons. Each level of the nest is a method of its own below.
   */
  method ConvertObjectsToPolygons(m: Maths, obj: ObjFile) returns (polygons: seq<Shape>)
    requires m.Valid() && ValidObjObjects(obj.positions, obj.objects)
    ensures polygons == ObjectsTriangles(m, obj.positions, obj.objects)
  {
    var objects := obj.objects;
    polygons := [];
    var oi := 0;
    while oi < |objects|
      invariant 0 <= oi <= |objects|
      invariant polygons == ObjectsTriangles(m, obj.positions, objects[..oi])
    {
      ObjectsStep(m, obj.positions, objects, oi);
      polygons := PushGroups(m, obj.positions, objects[oi].groups, polygons);
      oi := oi + 1;
    }
    assert objects[..oi] == objects;
  }

  /** `for group in &object.groups`: appends the triangles of every group. */
  method PushGroups(m: Maths, positions: seq<Vec3>, groups: seq<ObjGroup>, before: seq<Shape>)
    returns (polygons: seq<Shape>)
    requires m.Valid() && ValidGroups(positions, groups)
    ensures polygons == before + GroupsTriangles(m, positions, groups)
  {
    polygons := before;
    var gi := 0;
    while gi < |groups|
      invariant 0 <= gi <= |groups|
      invariant polygons == before + GroupsTriangles(m, positions, groups[..gi])
    {
      GroupsStep(m, positions, groups, gi);
      polygons := PushPolys(m, positions, groups[gi].polys, polygons);
      gi := gi + 1;
    }
    assert groups[..gi] == groups;
  }

  /** `for poly in &group.polys`: appends the fan of every polygon. */
  method PushPolys(m: Maths, positions: seq<Vec3>, polys: seq<seq<nat>>, before: seq<Shape>)
    returns (polygons: seq<Shape>)
    requires m.Valid() && ValidPolys(positions, polys)
    ensures polygons == before + PolysTriangles(m, positions, polys)
  {
    polygons := before;
    var pi := 0;
    while pi < |polys|
      invariant 0 <= pi <= |polys|
      invariant polygons == before + PolysTriangles(m, positions, polys[..pi])
    {
      PolysStep(m, positions, polys, pi);
      polygons := PushFan(m, positions, polys[pi], polygons);
      pi := pi + 1;
    }
    assert polys[..pi] == polys;
  }

  /** `for others in poly[1..].windows(2)`: one triangle per window, with `poly[0]` first. */
  method PushFan(m: Maths, positions: seq<Vec3>, poly: seq<nat>, before: seq<Shape>)
    returns (polygons: seq<Shape>)
    requires m.Valid() && ValidPoly(positions, poly)
    ensures polygons == before + Fan(m, positions, poly)
  {
    polygons := before;
    var index1 := poly[0];
    var rest := Windows(poly[1..]);
    RestWindows(poly);
    ghost var fan := Fan(m, positions, poly);
    var w := 0;
    while w < |rest|
      invariant 0 <= w <= |rest|
      invariant polygons == before + fan[..w]
    {
      polygons := polygons + [MakeTriangle(m, positions, index1, rest[w].0, rest[w].1)];
      assert fan[..w + 1] == fan[..w] + [fan[w]];
      w := w + 1;
    }
    assert fan[..w] == fan;
  }
}
