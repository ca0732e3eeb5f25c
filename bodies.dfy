/**
 * Shapes and rigid bodies (Bodies/Shape.cpp, Sphere.cpp, Capsule.cpp,
 * Hull.cpp and Body.cpp).  A shape and its body point at each other, so both
 * classes live in this module.  The abstract class Shape and its three
 * subclasses are one class whose `kind` says which subclass an object is;
 * the subclass constructors are named constructors.
 *
 * Collision groups are shared records in the source; here they live in the
 * world's list and a body holds the indices of its default and current
 * group, so two bodies sharing a group hold the same index.
 */
module Bodies {
  import opened Settings
  import opened Vector3Math
  import opened BoundsBox
  import opened Materials
  import opened Rotation
  import opened BoundsTrees

  /** TypeShape (Shape.h:11-17). */
  datatype ShapeKind = Undefined | HullShape | SphereShape | CapsuleShape

  /** struct Polygon (Hull.h:9-13): vertex indices into the hull and a normal. */
  datatype Polygon = Polygon(vertices: seq<int>, normal: Vector3)

  /** struct CollisionGroup (Body.h:26-30). */
  datatype CollisionGroup = CollisionGroup(timeWithoutMovement: int, nonSleep: bool)

  /** A fresh group: no time without movement, awake. */
  const FreshGroup: CollisionGroup := CollisionGroup(0, true)

  /** std::numeric_limits<std::size_t>::max(), the index of a shape without a body. */
  const MAX_INDEX: int := 18446744073709551615

  /** Vector3(r, r, r). */
  function Splat(r: real): Vector3
  {
    Vector3(r, r, r)
  }

  /**
   * The bounds getLocalBounds and Hull::update accumulate (Shape.cpp:60-69,
   * Hull.cpp:94-102): init, then minAxis/maxAxis with each vertex in order.
   */
  function PointsBounds(vs: seq<Vector3>): (r: Bounds)
    ensures forall k :: 0 <= k < |vs| ==> HasPoint(r, vs[k])
  {
    if |vs| == 0 then Init()
    else
      var b := PointsBounds(vs[..|vs| - 1]);
      Bounds(MinAxis(b.min, vs[|vs| - 1]), MaxAxis(b.max, vs[|vs| - 1]))
  }

  /** Every coordinate of every vertex is a finite float. */
  predicate FinitePoints(vs: seq<Vector3>)
  {
    forall k :: 0 <= k < |vs| ==> Finite(Bounds(vs[k], vs[k]))
  }

  /**
   * For finite vertices the accumulated bounds are the least box holding
   * them all: any box containing every vertex contains them.
   */
  lemma {:induction false} PointsBoundsLeast(vs: seq<Vector3>, c: Bounds)
    requires |vs| > 0 && FinitePoints(vs)
    requires forall k :: 0 <= k < |vs| ==> HasPoint(c, vs[k])
    ensures Contains(c, PointsBounds(vs))
  {
    if |vs| > 1 {
      PointsBoundsLeast(vs[..|vs| - 1], c);
    }
  }

  /** The shape's geometry as the source's per-kind code reads it. */
  datatype ShapeGeom = ShapeGeom(kind: ShapeKind, localVertices: seq<Vector3>, radius: real)

  /**
   * The box calculateLocalInertia builds (Body.cpp:226-255), as written: a
   * hull widens the running box by its vertices, but a sphere or capsule
   * REPLACES it by its first vertex widened by the radius.
   */
  function InertiaBoxAsWritten(gs: seq<ShapeGeom>): Bounds
  {
    if |gs| == 0 then Init()
    else
      var b := InertiaBoxAsWritten(gs[..|gs| - 1]);
      var g := gs[|gs| - 1];
      match g.kind
      case HullShape => MergePoints(b, g.localVertices)
      case SphereShape =>
        if |g.localVertices| >= 1 then Bounds(Sub(g.localVertices[0], Splat(g.radius)), Add(g.localVertices[0], Splat(g.radius)))
        else b
      case CapsuleShape =>
        if |g.localVertices| >= 1 then Bounds(Sub(g.localVertices[0], Splat(g.radius)), Add(g.localVertices[0], Splat(g.radius)))
        else b
      case Undefined => b
  }

  /** `b` widened by every vertex of `vs` in turn. */
  function MergePoints(b: Bounds, vs: seq<Vector3>): (r: Bounds)
    ensures Contains(r, b)
    ensures forall k :: 0 <= k < |vs| ==> HasPoint(r, vs[k])
  {
    if |vs| == 0 then b
    else
      var p := MergePoints(b, vs[..|vs| - 1]);
      Bounds(MinAxis(p.min, vs[|vs| - 1]), MaxAxis(p.max, vs[|vs| - 1]))
  }

  /** The local region a shape occupies, as a box: its vertices widened by its radius. */
  function Extent(g: ShapeGeom): (r: Bounds)
  {
    var p := PointsBounds(g.localVertices);
    match g.kind
    case HullShape => p
    case SphereShape => Bounds(Sub(p.min, Splat(g.radius)), Add(p.max, Splat(g.radius)))
    case CapsuleShape => Bounds(Sub(p.min, Splat(g.radius)), Add(p.max, Splat(g.radius)))
    case Undefined => Init()
  }

  /**
   * The box calculateLocalInertia evidently means to build: the merge of the
   * extents of all shapes, both capsule ends included.
   */
  function InertiaBox(gs: seq<ShapeGeom>): (r: Bounds)
    ensures forall k :: 0 <= k < |gs| ==> Contains(r, Extent(gs[k]))
  {
    if |gs| == 0 then Init()
    else Merge(InertiaBox(gs[..|gs| - 1]), Extent(gs[|gs| - 1]))
  }

  /**
   * As written, a capsule standing along z from (0,0,-1) to (0,0,1) with
   * radius 0.5 gets the box of a ball around its first end: its second end
   * lies outside it, while the merged box holds both.
   */
  lemma InertiaBoxAsWrittenDropsCapsuleEnd()
    ensures var g := ShapeGeom(CapsuleShape, [Vector3(0.0, 0.0, -1.0), Vector3(0.0, 0.0, 1.0)], 0.5);
      !HasPoint(InertiaBoxAsWritten([g]), Vector3(0.0, 0.0, 1.0))
      && HasPoint(InertiaBox([g]), Vector3(0.0, 0.0, 1.0))
  {
    var g := ShapeGeom(CapsuleShape, [Vector3(0.0, 0.0, -1.0), Vector3(0.0, 0.0, 1.0)], 0.5);
    assert [g][..0] == [];
    var p := PointsBounds(g.localVertices);
    assert HasPoint(p, Vector3(0.0, 0.0, 1.0));
  }

  /**
   * As written, a sphere after a hull throws the hull's box away: the hull
   * vertex (5,0,0) is not in the box of [hull, unit sphere at the origin].
   */
  lemma InertiaBoxAsWrittenForgetsEarlierShapes()
    ensures var h := ShapeGeom(HullShape, [Vector3(5.0, 0.0, 0.0)], 0.0);
      var s := ShapeGeom(SphereShape, [Zero], 1.0);
      !HasPoint(InertiaBoxAsWritten([h, s]), Vector3(5.0, 0.0, 0.0))
      && HasPoint(InertiaBox([h, s]), Vector3(5.0, 0.0, 0.0))
  {
    var h := ShapeGeom(HullShape, [Vector3(5.0, 0.0, 0.0)], 0.0);
    var s := ShapeGeom(SphereShape, [Zero], 1.0);
    assert [h, s][..1] == [h];
    assert [h][..0] == [];
    var e := Extent(h);
    assert HasPoint(e, Vector3(5.0, 0.0, 0.0));
    assert Contains(InertiaBox([h, s]), e);
  }

  class Shape {
    /** m_index: this shape's position in its body's list, MAX_INDEX without a body. */
    var index: int
    var kind: ShapeKind
    var material: Material
    var body: Body?
    var bounds: Bounds
    var localVertices: seq<Vector3>
    var globalVertices: seq<Vector3>
    /** Sphere and Capsule: m_radius. */
    var radius: real
    /** Capsule: m_local_dir, m_global_dir and m_length. */
    var localDir: Vector3
    var globalDir: Vector3
    var length: real
    /** Hull: m_polygons. */
    var polygons: seq<Polygon>

    /** Both vertex arrays have the same size: one for a sphere, two for a capsule. */
    ghost predicate Valid()
      reads this`globalVertices, this`localVertices, this`kind
    {
      |globalVertices| == |localVertices|
      && (kind == SphereShape ==> |localVertices| == 1)
      && (kind == CapsuleShape ==> |localVertices| == 2)
    }

    function Geom(): (g: ShapeGeom)
      reads this`kind, this`localVertices, this`radius
      ensures g.kind == kind && g.localVertices == localVertices && g.radius == radius
    {
      ShapeGeom(kind, localVertices, radius)
    }

    /** Sphere() (Sphere.cpp:8-17): one vertex at the origin, radius 0. */
    constructor SphereAtOrigin()
      ensures Valid() && kind == SphereShape && body == null && index == MAX_INDEX
      ensures localVertices == [Zero] && radius == 0.0 && material == DefaultMaterial()
    {
      index := MAX_INDEX;
      kind := SphereShape;
      material := DefaultMaterial();
      body := null;
      bounds := Init();
      localVertices := [Zero];
      globalVertices := [Zero];
      radius := 0.0;
      localDir, globalDir, length := Zero, Zero, 0.0;
      polygons := [];
    }

    /** Sphere(localPosition, radius) (Sphere.cpp:19-28). */
    constructor Sphere(localPosition: Vector3, radius: real)
      ensures Valid() && kind == SphereShape && body == null && index == MAX_INDEX
      ensures localVertices == [localPosition] && |globalVertices| == 1
      ensures this.radius == radius && material == DefaultMaterial()
    {
      index := MAX_INDEX;
      kind := SphereShape;
      material := DefaultMaterial();
      body := null;
      bounds := Init();
      localVertices := [localPosition];
      globalVertices := [Zero];
      this.radius := radius;
      localDir, globalDir, length := Zero, Zero, 0.0;
      polygons := [];
    }

    /**
     * Capsule(vertexA, vertexB, radius) (Capsule.cpp:6-17); `sqrt` is the
     * square root length() uses.
     */
    constructor Capsule(vertexA: Vector3, vertexB: Vector3, radius: real, sqrt: real -> real)
      ensures Valid() && kind == CapsuleShape && body == null && index == MAX_INDEX
      ensures localVertices == [vertexA, vertexB] && this.radius == radius
      ensures DirUpdated(sqrt)
    {
      index := MAX_INDEX;
      kind := CapsuleShape;
      material := DefaultMaterial();
      body := null;
      bounds := Init();
      localVertices := [vertexA, vertexB];
      globalVertices := [Zero, Zero];
      this.radius := radius;
      globalDir := Zero;
      var d := Normalize(Sub(vertexB, vertexA), Length(Sub(vertexB, vertexA), sqrt));
      localDir, length := d.v, d.length;
      polygons := [];
    }

    /**
     * Capsule(length, radius) (Capsule.cpp:19-30): the ends sit at
     * (0,0,-length/2) and (0,0,+length/2).
     */
    constructor CapsuleOfLength(len: real, radius: real, sqrt: real -> real)
      ensures Valid() && kind == CapsuleShape && body == null && index == MAX_INDEX
      ensures localVertices == [Vector3(0.0, 0.0, -len * 0.5), Vector3(0.0, 0.0, len * 0.5)]
      ensures this.radius == radius
      ensures DirUpdated(sqrt)
    {
      index := MAX_INDEX;
      kind := CapsuleShape;
      material := DefaultMaterial();
      body := null;
      bounds := Init();
      var a, b := Vector3(0.0, 0.0, -len * 0.5), Vector3(0.0, 0.0, len * 0.5);
      localVertices := [a, b];
      globalVertices := [Zero, Zero];
      this.radius := radius;
      globalDir := Zero;
      var d := Normalize(Sub(b, a), Length(Sub(b, a), sqrt));
      localDir, length := d.v, d.length;
      polygons := [];
    }

    /** Hull() (Hull.cpp:8-12): no vertices and no polygons yet. */
    constructor Hull()
      ensures Valid() && kind == HullShape && body == null && index == MAX_INDEX
      ensures localVertices == [] && globalVertices == [] && polygons == []
    {
      index := MAX_INDEX;
      kind := HullShape;
      material := DefaultMaterial();
      body := null;
      bounds := Init();
      localVertices := [];
      globalVertices := [];
      radius := 0.0;
      localDir, globalDir, length := Zero, Zero, 0.0;
      polygons := [];
    }

    /**
     * The capsule's direction and length as _updateDir leaves them
     * (Capsule.cpp:84-88): B - A normalised, with its length; zero and 0
     * when the ends are closer than EPS.
     */
    ghost predicate DirUpdated(sqrt: real -> real)
      reads this
    {
      |localVertices| == 2 &&
      var d := Sub(localVertices[1], localVertices[0]);
      var l := Length(d, sqrt);
      (Abs(l) < EPS ==> localDir == Zero && length == 0.0)
      && (Abs(l) >= EPS ==> length == l && Scale(localDir, l) == d)
      && (Abs(l) >= EPS && IsLength(d, l) ==> LengthSquared(localDir) == 1.0)
    }

    /** _updateDir (Capsule.cpp:84-88). */
    method UpdateDir(sqrt: real -> real)
      requires |localVertices| == 2
      modifies this`localDir, this`length
      ensures DirUpdated(sqrt)
    {
      var d := Sub(localVertices[1], localVertices[0]);
      var n := Normalize(d, Length(d, sqrt));
      localDir, length := n.v, n.length;
    }

    /** setLocalVertices (Capsule.cpp:62-67): both ends stored, direction and length refreshed. */
    method SetLocalVertices(vertexA: Vector3, vertexB: Vector3, sqrt: real -> real)
      requires Valid() && kind == CapsuleShape
      modifies this`localVertices, this`localDir, this`length
      ensures Valid() && localVertices == [vertexA, vertexB] && DirUpdated(sqrt)
    {
      localVertices := [vertexA, vertexB];
      UpdateDir(sqrt);
    }

    /** localPosition (Sphere.cpp:40-43): the centre in body coordinates. */
    function LocalPosition(): (r: Vector3)
      reads this
      requires |localVertices| >= 1
      ensures r == localVertices[0]
    {
      localVertices[0]
    }

    /** setLocalPosition (Sphere.cpp:45-48); localPosition then returns `p`. */
    method SetLocalPosition(p: Vector3)
      requires Valid() && kind == SphereShape
      modifies this`localVertices
      ensures Valid() && LocalPosition() == p
    {
      localVertices := localVertices[0 := p];
    }

    /** position (Sphere.cpp:50-53): the centre in world coordinates. */
    function Position(): (r: Vector3)
      reads this
      requires |globalVertices| >= 1
      ensures r == globalVertices[0]
    {
      globalVertices[0]
    }

    /** setCountVertices (Hull.cpp:25-29): both arrays resized to `count`, keeping their prefixes. */
    method SetCountVertices(count: nat)
      requires Valid() && kind == HullShape
      modifies this`localVertices, this`globalVertices
      ensures Valid() && |localVertices| == count && |globalVertices| == count
      ensures forall k :: 0 <= k < count && k < old(|localVertices|) ==> localVertices[k] == old(localVertices[k])
      ensures forall k :: 0 <= k < count && k < old(|globalVertices|) ==> globalVertices[k] == old(globalVertices[k])
    {
      localVertices := Resized(localVertices, count);
      globalVertices := Resized(globalVertices, count);
    }

    /** setVertices (Hull.cpp:31-35): the local vertices copied, the global array resized to match. */
    method SetVertices(vertices: seq<Vector3>)
      requires Valid() && kind == HullShape
      modifies this`localVertices, this`globalVertices
      ensures Valid() && localVertices == vertices && |globalVertices| == |vertices|
    {
      localVertices := vertices;
      globalVertices := Resized(globalVertices, |vertices|);
    }

    /** moveLocalVertices (Hull.cpp:37-42): `v` added to every local vertex. */
    method MoveLocalVertices(v: Vector3)
      requires Valid()
      modifies this`localVertices
      ensures Valid() && |localVertices| == old(|localVertices|)
      ensures forall k :: 0 <= k < |localVertices| ==> localVertices[k] == Add(old(localVertices[k]), v)
    {
      var k := 0;
      while k < |localVertices|
        invariant 0 <= k <= |localVertices| == old(|localVertices|)
        invariant forall j :: 0 <= j < k ==> localVertices[j] == Add(old(localVertices[j]), v)
        invariant forall j :: k <= j < |localVertices| ==> localVertices[j] == old(localVertices[j])
      {
        localVertices := localVertices[k := Add(localVertices[k], v)];
        k := k + 1;
      }
    }

    /** scaleLocalVertices (Hull.cpp:44-49): every local vertex scaled componentwise. */
    method ScaleLocalVertices(scale: Vector3)
      requires Valid()
      modifies this`localVertices
      ensures Valid() && |localVertices| == old(|localVertices|)
      ensures forall k :: 0 <= k < |localVertices| ==>
        localVertices[k] == Vector3(old(localVertices[k]).x * scale.x, old(localVertices[k]).y * scale.y, old(localVertices[k]).z * scale.z)
    {
      var k := 0;
      while k < |localVertices|
        invariant 0 <= k <= |localVertices| == old(|localVertices|)
        invariant forall j :: 0 <= j < k ==>
          localVertices[j] == Vector3(old(localVertices[j]).x * scale.x, old(localVertices[j]).y * scale.y, old(localVertices[j]).z * scale.z)
        invariant forall j :: k <= j < |localVertices| ==> localVertices[j] == old(localVertices[j])
      {
        var p := localVertices[k];
        localVertices := localVertices[k := Vector3(p.x * scale.x, p.y * scale.y, p.z * scale.z)];
        k := k + 1;
      }
    }

    /**
     * creeateCube (Hull.cpp:105-120) before its call to formedHull: eight
     * local vertices, vertex k taking -scale on x when bit 2 of k is set, on
     * y when bit 1 is set and on z when bit 0 is set.
     */
    static method CubeVertices(scale: Vector3) returns (cube: Shape)
      ensures fresh(cube) && cube.Valid() && cube.kind == HullShape && cube.body == null
      ensures |cube.localVertices| == 8
      ensures forall k :: 0 <= k < 8 ==>
        cube.localVertices[k] == Vector3(if k / 4 == 0 then scale.x else -scale.x,
                                         if (k / 2) % 2 == 0 then scale.y else -scale.y,
                                         if k % 2 == 0 then scale.z else -scale.z)
      ensures cube.polygons == []
    {
      cube := new Shape.Hull();
      cube.SetCountVertices(8);
      cube.localVertices := [
        Vector3(scale.x, scale.y, scale.z), Vector3(scale.x, scale.y, -scale.z),
        Vector3(scale.x, -scale.y, scale.z), Vector3(scale.x, -scale.y, -scale.z),
        Vector3(-scale.x, scale.y, scale.z), Vector3(-scale.x, scale.y, -scale.z),
        Vector3(-scale.x, -scale.y, scale.z), Vector3(-scale.x, -scale.y, -scale.z)];
    }

    /**
     * copy (Sphere.cpp:55-63, Capsule.cpp:90-100, Hull.cpp:82-90): a fresh
     * shape of the same kind, without a body, with the same vertices,
     * material and radius; a capsule also keeps both directions but takes the
     * length of a default Capsule(2, 1); a hull keeps its polygons.
     */
    method Copy(sqrt: real -> real) returns (c: Shape)
      requires Valid() && kind != Undefined
      ensures fresh(c) && c.Valid() && c.kind == kind && c.body == null && c.index == MAX_INDEX
      ensures c.localVertices == localVertices && c.globalVertices == globalVertices
      ensures c.material == material
      ensures kind != HullShape ==> c.radius == radius
      ensures kind == CapsuleShape ==> c.localDir == localDir && c.globalDir == globalDir
      ensures kind == CapsuleShape ==> c.length == (if Abs(sqrt(4.0)) < EPS then 0.0 else sqrt(4.0))
      ensures kind == HullShape ==> c.polygons == polygons
    {
      if kind == SphereShape {
        c := new Shape.SphereAtOrigin();
        c.localVertices, c.globalVertices := localVertices, globalVertices;
        c.radius, c.material := radius, material;
      } else if kind == CapsuleShape {
        c := new Shape.CapsuleOfLength(2.0, 1.0, sqrt);
        assert Sub(c.localVertices[1], c.localVertices[0]) == Vector3(0.0, 0.0, 2.0);
        c.localVertices, c.globalVertices := localVertices, globalVertices;
        c.localDir, c.globalDir := localDir, globalDir;
        c.radius, c.material := radius, material;
      } else {
        c := new Shape.Hull();
        c.localVertices, c.globalVertices := localVertices, globalVertices;
        c.polygons, c.material := polygons, material;
      }
    }

    /**
     * getLocalBounds (Shape.cpp:60-69): the bounds accumulated over the
     * local vertices, which contain every one of them.
     */
    method GetLocalBounds() returns (r: Bounds)
      ensures r == PointsBounds(localVertices)
      ensures forall k :: 0 <= k < |localVertices| ==> HasPoint(r, localVertices[k])
    {
      r := Init();
      var k := 0;
      while k < |localVertices|
        invariant 0 <= k <= |localVertices|
        invariant r == PointsBounds(localVertices[..k])
      {
        assert localVertices[..k + 1][..k] == localVertices[..k];
        r := Bounds(MinAxis(r.min, localVertices[k]), MaxAxis(r.max, localVertices[k]));
        k := k + 1;
      }
      assert localVertices[..k] == localVertices;
    }

    /**
     * support (Shape.cpp:71-82): the largest dot(v, dir) over the world
     * vertices, starting from MIN; `vertex` becomes the first vertex reaching
     * it, or stays `prior` when none exceeds MIN.
     */
    method Support(dir: Vector3, prior: Vector3) returns (max: real, vertex: Vector3)
      ensures max >= MIN_NUMBER
      ensures forall k :: 0 <= k < |globalVertices| ==> Dot(globalVertices[k], dir) <= max
      ensures max == MIN_NUMBER ==> vertex == prior
      ensures max > MIN_NUMBER ==> exists k :: 0 <= k < |globalVertices| && FirstMax(globalVertices, dir, k, max) && vertex == globalVertices[k]
    {
      max, vertex := SupportOf(globalVertices, |globalVertices|, dir, prior);
    }

    /**
     * support_local (Shape.cpp:84-95): the same search over the local
     * vertices, but bounded by the global count, so it needs at least that
     * many local vertices.
     */
    method SupportLocal(dir: Vector3, prior: Vector3) returns (max: real, vertex: Vector3)
      requires |localVertices| >= |globalVertices|
      ensures max >= MIN_NUMBER
      ensures forall k :: 0 <= k < |globalVertices| ==> Dot(localVertices[k], dir) <= max
      ensures max == MIN_NUMBER ==> vertex == prior
      ensures max > MIN_NUMBER ==> exists k :: 0 <= k < |globalVertices| && FirstMax(localVertices, dir, k, max) && vertex == localVertices[k]
    {
      max, vertex := SupportOf(localVertices, |globalVertices|, dir, prior);
    }

    /**
     * The shape's world state after update() with body pose `position`
     * and `axes` (Sphere.cpp:65-70, Capsule.cpp:102-113, Hull.cpp:92-103).
     */
    ghost predicate Placed(position: Vector3, axes: seq<Vector3>)
      reads this
      requires |axes| == 3
    {
      |globalVertices| == |localVertices| &&
      match kind
      case SphereShape =>
        |localVertices| == 1
        && globalVertices[0] == Add(position, VectorRotated(axes, localVertices[0]))
        && bounds == Bounds(Sub(globalVertices[0], Splat(radius)), Add(globalVertices[0], Splat(radius)))
      case CapsuleShape =>
        |localVertices| == 2
        && globalVertices[0] == Add(position, VectorRotated(axes, localVertices[0]))
        && globalVertices[1] == Add(position, VectorRotated(axes, localVertices[1]))
        && globalDir == VectorRotated(axes, localDir)
        && bounds == Bounds(Sub(MinAxis(globalVertices[0], globalVertices[1]), Splat(radius)),
                            Add(MaxAxis(globalVertices[0], globalVertices[1]), Splat(radius)))
      case HullShape =>
        (forall k :: 0 <= k < |localVertices| ==>
          globalVertices[k] == Add(VectorRotated(axes, localVertices[k]), position))
        && bounds == PointsBounds(globalVertices)
      case Undefined => true
    }

    /**
     * update() of each subclass, given the body's position and rotation axes.
     * Only the world vertices, the world direction and the bounds change.
     */
    method Update(position: Vector3, axes: seq<Vector3>)
      requires Valid() && kind != Undefined && |axes| == 3
      modifies this`globalVertices, this`globalDir, this`bounds
      ensures Valid() && Placed(position, axes)
      ensures kind != CapsuleShape ==> globalDir == old(globalDir)
    {
      match kind
      case SphereShape =>
        var g := Add(position, VectorRotated(axes, localVertices[0]));
        globalVertices := globalVertices[0 := g];
        bounds := Bounds(Sub(g, Splat(radius)), Add(g, Splat(radius)));
      case CapsuleShape =>
        var g0 := Add(position, VectorRotated(axes, localVertices[0]));
        var g1 := Add(position, VectorRotated(axes, localVertices[1]));
        globalVertices := [g0, g1];
        globalDir := VectorRotated(axes, localDir);
        var lo := Sub(MinAxis(g0, g1), Splat(radius));
        var hi := Add(MaxAxis(g0, g1), Splat(radius));
        bounds := Bounds(lo, hi);
      case HullShape =>
        UpdateHull(position, axes);
    }

    /** Hull::update (Hull.cpp:92-103). */
    method UpdateHull(position: Vector3, axes: seq<Vector3>)
      requires Valid() && kind == HullShape && |axes| == 3
      modifies this`globalVertices, this`bounds
      ensures Valid() && Placed(position, axes)
    {
      var gv, b := PlacedHull(localVertices, position, axes);
      globalVertices, bounds := gv, b;
    }

    /** The first half of setBody (Shape.cpp:28-29): the shape is erased from its current body. */
    method LeaveBody(ghost next: Body?)
      requires body != null && body.Valid() && 0 <= index < |body.shapes| && body.shapes[index] == this
      requires next != null && next != body ==> next.Valid() && next.tree != body.tree
      modifies body`shapes, body.tree
      ensures body.Valid() && body.shapes == old(body.shapes[..index] + body.shapes[index + 1..])
      ensures this !in body.shapes
      ensures next != null && next != body ==> next.Valid() && next.shapes == old(next.shapes)
    {
      body.RemoveShape(index);
    }

    /**
     * setBody (Shape.cpp:26-33): leave the old body, which erases this shape
     * at its stored index, then join the new one, which appends it and hands
     * back its index there.
     */
    method SetBody(newBody: Body?)
      requires Valid()
      requires body != null ==> body.Valid() && 0 <= index < |body.shapes| && body.shapes[index] == this
      requires newBody != null ==> newBody.Valid() && kind != Undefined
      requires newBody != null && newBody != body ==> this !in newBody.shapes
      requires newBody != null && body != null && newBody != body ==> newBody.tree != body.tree
      modifies this`body, this`index
      modifies if body != null then {body, body.tree} else {}
      modifies if newBody != null then {newBody, newBody.tree} else {}
      ensures body == newBody
      ensures old(body) != null && old(body) != newBody ==>
        old(body).shapes == old(body.shapes[..index] + body.shapes[index + 1..])
      ensures old(body) != null && old(body) == newBody ==>
        newBody.shapes == old(body.shapes[..index] + body.shapes[index + 1..]) + [this]
      ensures newBody != null && old(body) != newBody ==> newBody.shapes == old(newBody.shapes) + [this]
      ensures newBody != null ==> newBody.Valid() && |newBody.shapes| > 0 && index == |newBody.shapes| - 1
      ensures newBody == null ==> index == old(index)
    {
      var oldBody := body;
      if oldBody != null {
        LeaveBody(newBody);
      }
      JoinBody(newBody);
    }

    /** The second half of setBody (Shape.cpp:30-31): the shape is appended to its new body. */
    method JoinBody(newBody: Body?)
      requires Valid() && (newBody != null ==> newBody.Valid() && kind != Undefined && this !in newBody.shapes)
      modifies this`body, this`index
      modifies if newBody != null then {newBody, newBody.tree} else {}
      ensures body == newBody
      ensures newBody != null ==> newBody.Valid() && newBody.shapes == old(newBody.shapes) + [this]
      ensures newBody != null ==> index == |newBody.shapes| - 1
      ensures newBody == null ==> index == old(index)
    {
      body := newBody;
      if newBody != null {
        Append(newBody);
      }
    }

    /** _addShape on `to`, the index it hands back stored in the shape. */
    method Append(to: Body)
      requires Valid() && to.Valid() && kind != Undefined && this !in to.shapes
      modifies this`index, to`shapes, to.tree
      ensures to.Valid() && to.shapes == old(to.shapes) + [this] && index == |to.shapes| - 1
    {
      index := to.AddShape(this);
    }
  }

  /**
   * The loop of Hull::update (Hull.cpp:94-102): each world vertex is the
   * rotated local vertex moved to `position`, and the bounds grow with it.
   */
  method PlacedHull(localVertices: seq<Vector3>, position: Vector3, axes: seq<Vector3>)
    returns (globalVertices: seq<Vector3>, bounds: Bounds)
    requires |axes| == 3
    ensures |globalVertices| == |localVertices|
    ensures forall k :: 0 <= k < |localVertices| ==>
      globalVertices[k] == Add(VectorRotated(axes, localVertices[k]), position)
    ensures bounds == PointsBounds(globalVertices)
  {
    globalVertices, bounds := [], Init();
    var k := 0;
    while k < |localVertices|
      invariant 0 <= k <= |localVertices| && |globalVertices| == k
      invariant forall j :: 0 <= j < k ==> globalVertices[j] == Add(VectorRotated(axes, localVertices[j]), position)
      invariant bounds == PointsBounds(globalVertices)
    {
      var g := Add(VectorRotated(axes, localVertices[k]), position);
      ghost var before := globalVertices;
      globalVertices := globalVertices + [g];
      assert globalVertices[..k] == before;
      bounds := Bounds(MinAxis(bounds.min, g), MaxAxis(bounds.max, g));
      k := k + 1;
    }
  }

  /** `k` is the first index where dot(vs[k], dir) reaches `max`. */
  ghost predicate FirstMax(vs: seq<Vector3>, dir: Vector3, k: int, max: real)
  {
    0 <= k < |vs| && Dot(vs[k], dir) == max && forall j :: 0 <= j < k ==> Dot(vs[j], dir) < max
  }

  /** The support loop shared by support and support_local, over the first `count` vertices. */
  method SupportOf(vs: seq<Vector3>, count: int, dir: Vector3, prior: Vector3) returns (max: real, vertex: Vector3)
    requires 0 <= count <= |vs|
    ensures max >= MIN_NUMBER
    ensures forall k :: 0 <= k < count ==> Dot(vs[k], dir) <= max
    ensures max == MIN_NUMBER ==> vertex == prior
    ensures max > MIN_NUMBER ==> exists k :: 0 <= k < count && FirstMax(vs, dir, k, max) && vertex == vs[k]
  {
    max, vertex := MIN_NUMBER, prior;
    var i := 0;
    ghost var best := -1;
    while i < count
      invariant 0 <= i <= count
      invariant max >= MIN_NUMBER
      invariant forall k :: 0 <= k < i ==> Dot(vs[k], dir) <= max
      invariant max == MIN_NUMBER ==> vertex == prior && best == -1
      invariant max > MIN_NUMBER ==> 0 <= best < i && FirstMax(vs, dir, best, max) && vertex == vs[best]
    {
      var d := Dot(vs[i], dir);
      if d > max {
        max, vertex := d, vs[i];
        best := i;
      }
      i := i + 1;
    }
  }

  /** std::vector::resize: the prefix kept, new slots value-initialised to zero. */
  function Resized(s: seq<Vector3>, n: nat): (r: seq<Vector3>)
    ensures |r| == n
    ensures forall k :: 0 <= k < n && k < |s| ==> r[k] == s[k]
    ensures forall k :: |s| <= k < n ==> r[k] == Zero
  {
    if n <= |s| then s[..n] else s + seq(n - |s|, _ => Zero)
  }

  /** The response to a scalar impulse: the inverse mass (or, in the scalar build, inverse inertia) times the impulse. */
  function Turn(invInertia: real, impulse: real): real
  {
    invInertia * impulse
  }

  class Body {
    var index: int
    var defaultGroup: nat
    var currentGroup: nat
    var position: Vector3
    var rotation: RotationMatrix
    var velocity: Vector3
    var angularVelocity: Vector3
    var pseudoVelocity: Vector3
    var pseudoAngularVelocity: Vector3
    var invMass: real
    var invInertia: real
    var enabled: bool
    var contacts: seq<int>
    var prevContacts: seq<int>
    var level: int
    var shapes: seq<Shape>
    var tree: BoundsTree

    /**
     * The rotation has three axes; the shapes are distinct valid shapes; the
     * tree is empty or, while there are shapes, names only shapes of the list.
     */
    ghost predicate Valid()
      reads this`rotation, this`tree, this`shapes, rotation`m, tree`nodes,
            (set s | s in shapes)`globalVertices, (set s | s in shapes)`localVertices, (set s | s in shapes)`kind
    {
      rotation.Valid() && tree.Valid()
      && Distinct(shapes)
      && (forall s | s in shapes :: s.Valid() && s.kind != Undefined)
      && (|shapes| > 0 ==> |tree.nodes| > 0 && LeavesIn(tree.nodes, 0, |shapes|))
    }

    /**
     * Body(physicsWorld) (Body.cpp:9-24) given the index _addBody hands back
     * and the index of its fresh collision group, which is both its default
     * and its current group.
     */
    constructor (index: int, group: nat)
      ensures Valid() && this.index == index && defaultGroup == group && currentGroup == group
      ensures position == Zero && velocity == Zero && angularVelocity == Zero
      ensures pseudoVelocity == Zero && pseudoAngularVelocity == Zero
      ensures invMass == 1.0 && invInertia == 1.0 && enabled && level == 0
      ensures shapes == [] && contacts == [] && prevContacts == [] && tree.nodes == []
      ensures rotation.m == IdentityAxes && fresh(rotation) && fresh(tree)
    {
      this.index := index;
      defaultGroup, currentGroup := group, group;
      level := 0;
      enabled := true;
      position, velocity, angularVelocity := Zero, Zero, Zero;
      pseudoVelocity, pseudoAngularVelocity := Zero, Zero;
      invMass := InverseOf(DEFAULT_MASS);
      invInertia := InverseOf(DEFAULT_INERTIA);
      contacts, prevContacts := [], [];
      shapes := [];
      rotation := new RotationMatrix();
      tree := new BoundsTree();
    }

    /** mass (Body.cpp:109-112): 0 for a static body, 1/invMass otherwise. */
    function Mass(): (r: real)
      reads this
      ensures IsStatic() ==> r == 0.0
      ensures IsDynamic() ==> r * invMass == 1.0
    {
      if invMass > 0.0 then 1.0 / invMass else 0.0
    }

    /** setMass (Body.cpp:114-117). */
    method SetMass(mass: real)
      modifies this`invMass
      ensures invMass == InverseOf(mass)
      ensures IsDynamic() <==> mass > EPS
    {
      invMass := InverseOf(mass);
    }

    /** setInertia (Body.cpp:127-130), the scalar build. */
    method SetInertia(inertia: real)
      modifies this`invInertia
      ensures invInertia == InverseOf(inertia)
    {
      invInertia := InverseOf(inertia);
    }

    /** isStatic (Body.cpp:204-207). */
    predicate IsStatic()
      reads this`invMass
    {
      invMass <= 0.0
    }

    /** isDynamic (Body.cpp:209-212). */
    predicate IsDynamic()
      reads this`invMass
    {
      invMass > 0.0
    }

    /** applyLinearImpulse(normal, impulse) (Body.cpp:134-137). */
    method ApplyLinearImpulse(normal: Vector3, impulse: real)
      modifies this`velocity
      ensures velocity == Add(old(velocity), Scale(normal, Turn(invMass, impulse)))
      ensures IsStatic() && invMass == 0.0 ==> velocity == old(velocity)
    {
      velocity := Add(velocity, Scale(normal, Turn(invMass, impulse)));
    }

    /** applyLinearImpulse(lImpulse) (Body.cpp:139-142). */
    method ApplyLinearImpulseVector(lImpulse: Vector3)
      modifies this`velocity
      ensures velocity == Add(old(velocity), Scale(lImpulse, invMass))
    {
      velocity := Add(velocity, Scale(lImpulse, invMass));
    }

    /** applyAngularImpulse(rn, impulse) (Body.cpp:144-153), the scalar build. */
    method ApplyAngularImpulse(rn: Vector3, impulse: real)
      modifies this`angularVelocity
      ensures angularVelocity == Add(old(angularVelocity), Scale(rn, Turn(invInertia, impulse)))
      ensures invInertia == 0.0 ==> angularVelocity == old(angularVelocity)
    {
      angularVelocity := Add(angularVelocity, Scale(rn, Turn(invInertia, impulse)));
    }

    /** applyAngularImpulse(aImpulse) (Body.cpp:155-164), the scalar build. */
    method ApplyAngularImpulseVector(aImpulse: Vector3)
      modifies this`angularVelocity
      ensures angularVelocity == Add(old(angularVelocity), Scale(aImpulse, invInertia))
    {
      angularVelocity := Add(angularVelocity, Scale(aImpulse, invInertia));
    }

    /** applyImpulse (Body.cpp:166-170): the linear part along `normal`, the angular part about `point`. */
    method ApplyImpulse(impulse: real, normal: Vector3, point: Vector3)
      modifies this`velocity, this`angularVelocity
      ensures velocity == Add(old(velocity), Scale(normal, Turn(invMass, impulse)))
      ensures angularVelocity == Add(old(angularVelocity), Scale(Cross(Sub(point, position), normal), Turn(invInertia, impulse)))
    {
      ApplyLinearImpulse(normal, impulse);
      ApplyAngularImpulse(Cross(Sub(point, position), normal), impulse);
    }

    /** applyLinearPseudoImpulse(normal, j) (Body.cpp:172-175): no mass scaling. */
    method ApplyLinearPseudoImpulse(normal: Vector3, pseudoImpulse: real)
      modifies this`pseudoVelocity
      ensures pseudoVelocity == Add(old(pseudoVelocity), Scale(normal, pseudoImpulse))
    {
      pseudoVelocity := Add(pseudoVelocity, Scale(normal, pseudoImpulse));
    }

    /** applyLinearPseudoImpulse(impulse) (Body.cpp:177-180). */
    method ApplyLinearPseudoImpulseVector(pseudoLinearImpulse: Vector3)
      modifies this`pseudoVelocity
      ensures pseudoVelocity == Add(old(pseudoVelocity), pseudoLinearImpulse)
    {
      pseudoVelocity := Add(pseudoVelocity, pseudoLinearImpulse);
    }

    /** applyAngularPseudoImpulse(rn, j) (Body.cpp:182-191), the scalar build. */
    method ApplyAngularPseudoImpulse(rn: Vector3, pseudoImpulse: real)
      modifies this`pseudoAngularVelocity
      ensures pseudoAngularVelocity == Add(old(pseudoAngularVelocity), Scale(rn, Turn(invInertia, pseudoImpulse)))
    {
      pseudoAngularVelocity := Add(pseudoAngularVelocity, Scale(rn, Turn(invInertia, pseudoImpulse)));
    }

    /** applyAngularPseudoImpulse(impulse) (Body.cpp:193-202), the scalar build. */
    method ApplyAngularPseudoImpulseVector(pseudoAngularImpulse: Vector3)
      modifies this`pseudoAngularVelocity
      ensures pseudoAngularVelocity == Add(old(pseudoAngularVelocity), Scale(pseudoAngularImpulse, invInertia))
    {
      pseudoAngularVelocity := Add(pseudoAngularVelocity, Scale(pseudoAngularImpulse, invInertia));
    }

    /** The geometry of every shape, in order. */
    function Geoms(): (gs: seq<ShapeGeom>)
      reads this`shapes, set s | s in shapes
      ensures |gs| == |shapes| && forall k :: 0 <= k < |gs| ==> gs[k] == shapes[k].Geom()
    {
      GeomsOf(shapes)
    }

    /**
     * calculateLocalInertia (Body.cpp:224-265), the scalar build, as written:
     * 12 / |d|^2 of the box InertiaBoxAsWritten builds, times invMass.
     */
    method CalculateLocalInertiaAsWritten()
      requires LengthSquared(Diagonal(InertiaBoxAsWritten(Geoms()))) != 0.0
      modifies this`invInertia
      ensures invInertia == BoxInertia(InertiaBoxAsWritten(Geoms())) * invMass
    {
      var gs := Geoms();
      var b := InertiaBoxAsWrittenLoop(gs);
      var inertia := BoxInertia(b);
      invInertia := inertia * invMass;
      assert Geoms() == gs;
    }

    /**
     * calculateLocalInertia as evidently intended: the box merges the extent
     * of every shape, so it holds each of them whole (InertiaBox).
     */
    method CalculateLocalInertia()
      requires LengthSquared(Diagonal(InertiaBox(Geoms()))) != 0.0
      modifies this`invInertia
      ensures invInertia == BoxInertia(InertiaBox(Geoms())) * invMass
    {
      var gs := Geoms();
      var b := InertiaBoxLoop(gs);
      var inertia := BoxInertia(b);
      invInertia := inertia * invMass;
      assert Geoms() == gs;
    }

    /**
     * update(dt, gravity, damping) (Body.cpp:267-280): integrate the position
     * with velocity plus pseudo-velocity, turn the rotation by the angular
     * plus pseudo-angular velocity (zeroing the angular velocity when the
     * turn is rejected), clear both pseudo-velocities, apply gravity and
     * damping, and place every shape at the new pose.
     */
    method Update(dt: real, gravity: Vector3, damping: real, sqrt: real -> real,
                  around: (Vector3, Vector3, real) -> Vector3)
      requires Valid()
      modifies this`position, this`velocity, this`angularVelocity, this`pseudoVelocity, this`pseudoAngularVelocity
      modifies rotation`m
      modifies (set s | s in shapes)`globalVertices, (set s | s in shapes)`globalDir, (set s | s in shapes)`bounds
      ensures Valid()
      ensures position == Add(old(position), Scale(Add(old(velocity), old(pseudoVelocity)), dt))
      ensures pseudoVelocity == Zero && pseudoAngularVelocity == Zero
      ensures velocity == Scale(Add(old(velocity), Scale(gravity, dt)), damping)
      ensures var spin := Add(old(pseudoAngularVelocity), old(angularVelocity));
        rotation.m == RotatedDt(old(rotation.m), spin, dt, sqrt, around)
        && angularVelocity == Scale(if Turns(spin, sqrt) then old(angularVelocity) else Zero, damping)
      ensures forall s | s in shapes :: s.Placed(position, rotation.m)
    {
      Integrate(dt, gravity, damping, sqrt, around);
      UpdateShapes();
    }

    /** The part of update (Body.cpp:269-278) that moves the body itself. */
    method Integrate(dt: real, gravity: Vector3, damping: real, sqrt: real -> real,
                     around: (Vector3, Vector3, real) -> Vector3)
      requires rotation.Valid()
      modifies this`position, this`velocity, this`angularVelocity, this`pseudoVelocity, this`pseudoAngularVelocity
      modifies rotation`m
      ensures rotation.Valid()
      ensures position == Add(old(position), Scale(Add(old(velocity), old(pseudoVelocity)), dt))
      ensures pseudoVelocity == Zero && pseudoAngularVelocity == Zero
      ensures velocity == Scale(Add(old(velocity), Scale(gravity, dt)), damping)
      ensures var spin := Add(old(pseudoAngularVelocity), old(angularVelocity));
        rotation.m == RotatedDt(old(rotation.m), spin, dt, sqrt, around)
        && angularVelocity == Scale(if Turns(spin, sqrt) then old(angularVelocity) else Zero, damping)
    {
      var spin := Add(pseudoAngularVelocity, angularVelocity);
      var ok := rotation.RotateDt(spin, dt, sqrt, around);
      var w := if ok then angularVelocity else Zero;
      position := Add(position, Scale(Add(velocity, pseudoVelocity), dt));
      velocity := Scale(Add(velocity, Scale(gravity, dt)), damping);
      angularVelocity := Scale(w, damping);
      pseudoVelocity, pseudoAngularVelocity := Zero, Zero;
    }

    /** updateShapes (Body.cpp:282-286): every shape placed at the body's pose. */
    method UpdateShapes()
      requires Valid()
      modifies (set s | s in shapes)`globalVertices, (set s | s in shapes)`globalDir, (set s | s in shapes)`bounds
      ensures Valid()
      ensures forall s | s in shapes :: s.Placed(position, rotation.m)
    {
      var k := 0;
      while k < |shapes|
        invariant 0 <= k <= |shapes|
        invariant Valid()
        invariant forall j :: 0 <= j < k ==> shapes[j].Placed(position, rotation.m)
        decreases |shapes| - k
      {
        shapes[k].Update(position, rotation.m);
        k := k + 1;
      }
    }

    /** The current world bounds of every shape, in order. */
    function ShapeBounds(): (r: seq<Bounds>)
      reads this`shapes, (set s | s in shapes)`bounds
      ensures |r| == |shapes| && forall k :: 0 <= k < |r| ==> r[k] == shapes[k].bounds
    {
      BoundsOf(shapes)
    }

    /** The local bounds of every shape, as getLocalBounds gives them. */
    function LocalBounds(): (r: seq<Bounds>)
      reads this`shapes, set s | s in shapes
      ensures |r| == |shapes| && forall k :: 0 <= k < |r| ==> r[k] == PointsBounds(shapes[k].localVertices)
    {
      LocalBoundsOf(shapes)
    }

    /**
     * updateBoundsTree (Body.cpp:288-291): each reached leaf takes its
     * shape's world bounds and each internal node the merge of its children's.
     */
    method UpdateBoundsTree()
      requires Valid()
      requires |tree.nodes| > 0 ==> LeavesIn(tree.nodes, 0, |shapes|)
      modifies tree`nodes
      ensures Valid() && (|tree.nodes| > 0 ==> LeavesIn(tree.nodes, 0, |shapes|))
      ensures |tree.nodes| > 0 ==> forall j | j in Reach(tree.nodes, 0) :: Refreshed(tree.nodes, j, ShapeBounds())
    {
      tree.Update(ShapeBounds());
      if |tree.nodes| > 0 {
        StructureInvariance(old(tree.nodes), tree.nodes, 0, |shapes|);
      }
    }

    /** The shape list as 0, 1, ..., n-1, the identities compute receives. */
    static function Indices(n: nat): (r: seq<int>)
      ensures |r| == n && forall k :: 0 <= k < n ==> r[k] == k
    {
      seq(n, k => k)
    }

    /**
     * _addShape (Body.cpp:327-332): append the shape, rebuild the tree over
     * the whole list from local bounds and return the new shape's index.
     */
    method AddShape(shape: Shape) returns (r: int)
      requires Valid() && shape.Valid() && shape.kind != Undefined && shape !in shapes
      modifies this`shapes, tree
      ensures Valid() && shapes == old(shapes) + [shape] && r == |shapes| - 1
      ensures Subtree(tree.nodes, 0) && Leaves(tree.nodes, 0) == multiset(Indices(|shapes|))
      ensures |tree.nodes| == 2 * |shapes| - 1
    {
      AppendedDistinct(shapes, shape);
      shapes := shapes + [shape];
      var boxes := LocalBounds();
      tree.Compute(Indices(|shapes|), boxes);
      r := |shapes| - 1;
    }

    /**
     * _removeShape (Body.cpp:334-338) as written: erase the shape and rebuild
     * the tree; compute ignores an empty list, so removing the last shape
     * leaves the old tree in place.
     */
    method RemoveShapeAsWritten(at: int)
      requires Valid() && 0 <= at < |shapes|
      modifies this`shapes, tree
      ensures shapes == old(shapes[..at] + shapes[at + 1..]) && old(shapes[at]) !in shapes
      ensures |shapes| > 0 ==> Valid() && Subtree(tree.nodes, 0) && Leaves(tree.nodes, 0) == multiset(Indices(|shapes|))
      ensures |shapes| == 0 ==> tree.nodes == old(tree.nodes) && |tree.nodes| > 0 && !LeavesIn(tree.nodes, 0, |shapes|)
    {
      RemovedDistinct(shapes, at);
      shapes := shapes[..at] + shapes[at + 1..];
      tree.Compute(Indices(|shapes|), LocalBounds());
      if |shapes| == 0 {
        NoLeafBelowZero(tree.nodes, 0);
      }
    }

    /**
     * _removeShape with the tree cleared once no shape is left, so the body
     * stays valid: the tree never names a removed shape.
     */
    method RemoveShape(at: int)
      requires Valid() && 0 <= at < |shapes|
      modifies this`shapes, tree
      ensures Valid() && shapes == old(shapes[..at] + shapes[at + 1..]) && old(shapes[at]) !in shapes
      ensures |shapes| > 0 ==> Subtree(tree.nodes, 0) && Leaves(tree.nodes, 0) == multiset(Indices(|shapes|))
      ensures |shapes| == 0 ==> tree.nodes == []
    {
      RemoveShapeAsWritten(at);
      if |shapes| == 0 {
        tree.nodes := [];
      }
    }

    /** addContact (Body.cpp:104-107): the manifold index is appended. */
    method AddContact(nCM: int)
      modifies this`contacts
      ensures contacts == old(contacts) + [nCM]
    {
      contacts := contacts + [nCM];
    }

    /**
     * _updateContactsOnBody (Body.cpp:340-344): the current list becomes the
     * previous one and the current list is emptied.
     */
    method UpdateContactsOnBody()
      modifies this`contacts, this`prevContacts
      ensures prevContacts == old(contacts) && contacts == []
    {
      contacts, prevContacts := prevContacts, contacts;
      contacts := [];
    }

    /**
     * _mergeCollisionGroup (Body.cpp:346-353): both bodies end in one current
     * group, the one of the body with the larger index; on equal indices the
     * receiver adopts the other's.
     */
    method MergeCollisionGroup(other: Body)
      modifies this`currentGroup, other`currentGroup
      ensures currentGroup == other.currentGroup
      ensures index > other.index ==> currentGroup == old(currentGroup)
      ensures index <= other.index ==> currentGroup == old(other.currentGroup)
    {
      if index > other.index {
        other.currentGroup := currentGroup;
      } else {
        currentGroup := other.currentGroup;
      }
    }

    /**
     * _mergeCollisionGroupAndAwake (Body.cpp:355-363): the same merge, then
     * the receiver's default group is marked awake in the group list.
     */
    method MergeCollisionGroupAndAwake(other: Body, groups: seq<CollisionGroup>) returns (groups': seq<CollisionGroup>)
      requires defaultGroup < |groups|
      modifies this`currentGroup, other`currentGroup
      ensures currentGroup == other.currentGroup
      ensures index > other.index ==> currentGroup == old(currentGroup)
      ensures index <= other.index ==> currentGroup == old(other.currentGroup)
      ensures groups' == groups[defaultGroup := groups[defaultGroup].(nonSleep := true)]
    {
      MergeCollisionGroup(other);
      groups' := groups[defaultGroup := groups[defaultGroup].(nonSleep := true)];
    }
  }

  /** No shape appears twice in the list. */
  ghost predicate Distinct(shapes: seq<Shape>)
  {
    forall i, j :: 0 <= i < j < |shapes| ==> shapes[i] != shapes[j]
  }

  /** Appending a shape not yet in a list without repeats keeps it without repeats. */
  lemma AppendedDistinct(shapes: seq<Shape>, shape: Shape)
    requires Distinct(shapes) && shape !in shapes
    ensures Distinct(shapes + [shape]) && forall s | s in shapes + [shape] :: s in shapes || s == shape
  {
  }

  /** Erasing one entry of a list without repeats leaves a list without repeats that lacks it. */
  lemma RemovedDistinct(shapes: seq<Shape>, at: int)
    requires Distinct(shapes) && 0 <= at < |shapes|
    ensures var rest := shapes[..at] + shapes[at + 1..];
      Distinct(rest) && shapes[at] !in rest && forall s | s in rest :: s in shapes
  {
    var rest := shapes[..at] + shapes[at + 1..];
    assert forall k :: 0 <= k < |rest| ==> rest[k] == shapes[if k < at then k else k + 1];
  }

  /** Every tree has a leaf, and a leaf names a shape index of at least 0. */
  lemma {:induction false} NoLeafBelowZero(nodes: seq<Node>, i: int)
    requires Subtree(nodes, i)
    ensures !LeavesIn(nodes, i, 0)
    decreases |nodes| - i
  {
    if nodes[i].shape < 0 {
      NoLeafBelowZero(nodes, nodes[i].indexA);
    }
  }

  /** The diagonal of a box, max - min. */
  function Diagonal(b: Bounds): Vector3
  {
    Sub(b.max, b.min)
  }

  /**
   * The inverse inertia calculateLocalInertia derives from its box
   * (Body.cpp:257-264): 12 over the squared diagonal, positive for any box
   * that is not a point.
   */
  function BoxInertia(b: Bounds): (r: real)
    requires LengthSquared(Diagonal(b)) != 0.0
    ensures r > 0.0
  {
    var d := Diagonal(b);
    assert d.x * d.x >= 0.0 && d.y * d.y >= 0.0 && d.z * d.z >= 0.0;
    12.0 / LengthSquared(d)
  }

  /** The value setMass and setInertia store: 1/x above EPS, else 0. */
  function InverseOf(x: real): (r: real)
    ensures x > EPS ==> r * x == 1.0 && r > 0.0
    ensures x <= EPS ==> r == 0.0
  {
    if x > EPS then 1.0 / x else 0.0
  }

  /** The shape loop of calculateLocalInertia (Body.cpp:226-255) as written. */
  method InertiaBoxAsWrittenLoop(gs: seq<ShapeGeom>) returns (b: Bounds)
    ensures b == InertiaBoxAsWritten(gs)
  {
    b := Init();
    var k := 0;
    while k < |gs|
      invariant 0 <= k <= |gs|
      invariant b == InertiaBoxAsWritten(gs[..k])
    {
      assert gs[..k + 1][..k] == gs[..k];
      var g := gs[k];
      match g.kind {
        case HullShape =>
          var j := 0;
          while j < |g.localVertices|
            invariant 0 <= j <= |g.localVertices|
            invariant b == MergePoints(InertiaBoxAsWritten(gs[..k]), g.localVertices[..j])
          {
            assert g.localVertices[..j + 1][..j] == g.localVertices[..j];
            b := Bounds(MinAxis(b.min, g.localVertices[j]), MaxAxis(b.max, g.localVertices[j]));
            j := j + 1;
          }
          assert g.localVertices[..j] == g.localVertices;
        case SphereShape =>
          if |g.localVertices| >= 1 {
            b := Bounds(Sub(g.localVertices[0], Splat(g.radius)), Add(g.localVertices[0], Splat(g.radius)));
          }
        case CapsuleShape =>
          if |g.localVertices| >= 1 {
            b := Bounds(Sub(g.localVertices[0], Splat(g.radius)), Add(g.localVertices[0], Splat(g.radius)));
          }
        case Undefined =>
      }
      k := k + 1;
    }
    assert gs[..k] == gs;
  }

  /** The shape loop of calculateLocalInertia as evidently intended: every extent merged in. */
  method InertiaBoxLoop(gs: seq<ShapeGeom>) returns (b: Bounds)
    ensures b == InertiaBox(gs)
  {
    b := Init();
    var k := 0;
    while k < |gs|
      invariant 0 <= k <= |gs|
      invariant b == InertiaBox(gs[..k])
    {
      assert gs[..k + 1][..k] == gs[..k];
      b := Merge(b, Extent(gs[k]));
      k := k + 1;
    }
    assert gs[..k] == gs;
  }

  function GeomsOf(shapes: seq<Shape>): (gs: seq<ShapeGeom>)
    reads set s | s in shapes
    ensures |gs| == |shapes| && forall k :: 0 <= k < |gs| ==> gs[k] == shapes[k].Geom()
  {
    if |shapes| == 0 then [] else GeomsOf(shapes[..|shapes| - 1]) + [shapes[|shapes| - 1].Geom()]
  }

  function BoundsOf(shapes: seq<Shape>): (r: seq<Bounds>)
    reads (set s | s in shapes)`bounds
    ensures |r| == |shapes| && forall k :: 0 <= k < |r| ==> r[k] == shapes[k].bounds
  {
    if |shapes| == 0 then [] else BoundsOf(shapes[..|shapes| - 1]) + [shapes[|shapes| - 1].bounds]
  }

  function LocalBoundsOf(shapes: seq<Shape>): (r: seq<Bounds>)
    reads set s | s in shapes
    ensures |r| == |shapes| && forall k :: 0 <= k < |r| ==> r[k] == PointsBounds(shapes[k].localVertices)
  {
    if |shapes| == 0 then [] else LocalBoundsOf(shapes[..|shapes| - 1]) + [PointsBounds(shapes[|shapes| - 1].localVertices)]
  }
}
