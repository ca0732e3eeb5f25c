/**
 * The bookkeeping of the expanding polytope (EPA.h, EPA.cpp): the vertex
 * list that never holds two equal points, the faces with their unit
 * normals and plane offsets, the links between neighbouring faces, the
 * visibility test and the search for the nearest face.  The faces are
 * value records held in a sequence the methods reassign, as the source's
 * std::vector of Triangle; the face records and their links are in Faces.
 */
module Epa {
  import opened Settings
  import opened Vector3Math
  import opened Faces

  /** The value-initialised face a resized vector holds. */
  const Blank := EpaTriangle([0, 0, 0], false, 0, [0, 0, 0], Zero, 0.0)

  /**
   * The distance of a face whose normal was divided by a zero length: the
   * source gets NaN there, and since no `<` with NaN holds, the nearest-face
   * search never picks it; any value not below MAX_NUMBER behaves the same.
   */
  const NAN_DISTANCE := MAX_NUMBER + 1.0

  /** The face's plane passes through its first corner. */
  predicate OnPlane(t: Face, vertices: seq<Vector3>)
    requires t.EpaTriangle? && Shaped(t) && 0 <= t.vertex[0] < |vertices|
  {
    t.dis == Dot(vertices[t.vertex[0]], t.dir)
  }

  /** The first stored vertex equal (within EPS per component) to `pos`, or -1. */
  function FirstEqual(vs: seq<Vector3>, pos: Vector3): (r: int)
    ensures -1 <= r < |vs|
    ensures r >= 0 ==> Equal(pos, vs[r]) && forall k :: 0 <= k < r ==> !Equal(pos, vs[k])
    ensures r == -1 ==> forall k :: 0 <= k < |vs| ==> !Equal(pos, vs[k])
  {
    if vs == [] then -1
    else if Equal(pos, vs[0]) then 0
    else
      var k := FirstEqual(vs[1..], pos);
      if k < 0 then -1 else k + 1
  }

  /** Once a point has been stored, looking it up again finds it: _addVertex is idempotent. */
  lemma {:induction false} FirstEqualAppended(vs: seq<Vector3>, pos: Vector3)
    requires FirstEqual(vs, pos) == -1
    ensures FirstEqual(vs + [pos], pos) == |vs|
  {
    if vs != [] {
      assert (vs + [pos])[1..] == vs[1..] + [pos];
      FirstEqualAppended(vs[1..], pos);
    }
  }

  /** The visibility test of _checkValidTriangle (EPA.cpp:112-119): the new vertex is not in front of the face. */
  function Visible(t: Face, vertices: seq<Vector3>, newVertex: Vector3): bool
    requires Shaped(t) && 0 <= t.vertex[0] < |vertices|
  {
    !(Dot(Sub(newVertex, vertices[t.vertex[0]]), t.dir) > 0.0)
  }

  /** For a face whose plane passes through its first corner, the test compares the new vertex with the plane's distance. */
  lemma VisibleBelowPlane(t: Face, vertices: seq<Vector3>, newVertex: Vector3)
    requires t.EpaTriangle? && Shaped(t) && 0 <= t.vertex[0] < |vertices| && OnPlane(t, vertices)
    ensures Visible(t, vertices, newVertex) <==> Dot(newVertex, t.dir) <= t.dis
  {
    DotSubtract(newVertex, vertices[t.vertex[0]], t.dir);
  }

  lemma DotSubtract(a: Vector3, b: Vector3, n: Vector3)
    ensures Dot(Sub(a, b), n) == Dot(a, n) - Dot(b, n)
  {
  }

  /** The plane offset stored by _addTriangle: the first corner projected on the normal, dotted with the normal. */
  function PlaneDistance(corner: Vector3, n: Vector3): real
  {
    Dot(Scale(n, Dot(corner, n)), n)
  }

  /** With a unit normal the stored offset is the corner's distance along it. */
  lemma PlaneDistanceOfUnit(corner: Vector3, n: Vector3)
    requires LengthSquared(n) == 1.0
    ensures PlaneDistance(corner, n) == Dot(corner, n)
  {
    var k := Dot(corner, n);
    assert Dot(Scale(n, k), n) == k * LengthSquared(n);
  }

  /**
   * The face _addTriangle stores for a direction longer than EPS: a unit
   * normal pointing the same way, and a plane offset that is the first
   * corner's distance along it.
   */
  lemma DirectedFace(corner: Vector3, dir: Vector3, l: real)
    requires IsLength(dir, l) && l > EPS
    ensures LengthSquared(Div(dir, l)) == 1.0 && Scale(Div(dir, l), l) == dir
    ensures PlaneDistance(corner, Div(dir, l)) == Dot(corner, Div(dir, l))
  {
    UnitAfterDivision(dir, l);
    PlaneDistanceOfUnit(corner, Div(dir, l));
  }

  /**
   * The face _addTriangle stores from three corners: a unit normal
   * orthogonal to both edges from the first corner, so that all three
   * corners lie on the plane at the stored distance.
   */
  lemma CornerFace(p1: Vector3, p2: Vector3, p3: Vector3, l: real)
    requires IsLength(Cross(Sub(p2, p1), Sub(p3, p1)), l) && l > 0.0
    ensures var n := Div(Cross(Sub(p2, p1), Sub(p3, p1)), l);
            LengthSquared(n) == 1.0 && PlaneDistance(p1, n) == Dot(p1, n)
            && Dot(p2, n) == Dot(p1, n) && Dot(p3, n) == Dot(p1, n)
  {
    var c := Cross(Sub(p2, p1), Sub(p3, p1));
    var n := Div(c, l);
    UnitAfterDivision(c, l);
    PlaneDistanceOfUnit(p1, n);
    CrossOrthogonal(Sub(p2, p1), Sub(p3, p1));
    OrthogonalAfterDivision(Sub(p2, p1), c, l);
    OrthogonalAfterDivision(Sub(p3, p1), c, l);
    DotSymmetric(Sub(p2, p1), n);
    DotSymmetric(Sub(p3, p1), n);
    DotSubtract(p2, p1, n);
    DotSubtract(p3, p1, n);
  }

  /** A vector orthogonal to c is orthogonal to c / l. */
  lemma OrthogonalAfterDivision(a: Vector3, c: Vector3, l: real)
    requires IsLength(c, l) && l > 0.0 && Dot(a, c) == 0.0
    ensures Dot(a, Div(c, l)) == 0.0
  {
    var n := Div(c, l);
    UnitAfterDivision(c, l);
    assert Dot(a, Scale(n, l)) == Dot(a, n) * l;
    assert Dot(a, n) == (Dot(a, n) * l) / l;
  }

  /** EPA (EPA.h:11-58): the polytope's vertices and faces. */
  class Epa {
    var minDepth: real
    var vertices: seq<Vector3>
    var triangles: seq<Face>
    var iteration: int

    /** Every face has three corners among the vertices and three links. */
    ghost predicate Valid()
      reads this`vertices, this`triangles
    {
      forall i :: 0 <= i < |triangles| ==>
        triangles[i].EpaTriangle? && Shaped(triangles[i]) && forall k :: 0 <= k < 3 ==> 0 <= triangles[i].vertex[k] < |vertices|
    }

    constructor()
      ensures Valid() && vertices == [] && triangles == []
    {
      minDepth := 0.0;
      vertices := [];
      triangles := [];
      iteration := 0;
    }

    /**
     * _addVertex (EPA.cpp:103-110): the index of the first stored vertex
     * equal to `pos`, or `pos` appended and its new index.
     */
    method AddVertex(pos: Vector3) returns (index: int)
      requires Valid()
      modifies this`vertices
      ensures Valid()
      ensures FirstEqual(old(vertices), pos) >= 0 ==> index == FirstEqual(old(vertices), pos) && vertices == old(vertices)
      ensures FirstEqual(old(vertices), pos) == -1 ==> index == |old(vertices)| && vertices == old(vertices) + [pos]
      ensures 0 <= index < |vertices| && Equal(pos, vertices[index])
    {
      var i := 0;
      while i < |vertices|
        invariant 0 <= i <= |vertices|
        invariant forall k :: 0 <= k < i ==> !Equal(pos, vertices[k])
      {
        if Equal(pos, vertices[i]) {
          FirstIsFirst(vertices, pos, i);
          return i;
        }
        i := i + 1;
      }
      FirstNone(vertices, pos);
      vertices := vertices + [pos];
      return |vertices| - 1;
    }

    /**
     * _checkValidTriangle (EPA.cpp:112-119): face t is marked valid
     * exactly when the new vertex is not in front of it.
     */
    method CheckValidTriangle(t: int, newVertex: Vector3)
      requires Valid() && 0 <= t < |triangles|
      modifies this`triangles
      ensures Valid()
      ensures triangles == old(triangles)[t := old(triangles[t]).(valid := Visible(old(triangles[t]), vertices, newVertex))]
    {
      var tri := triangles[t];
      if Dot(Sub(newVertex, vertices[tri.vertex[0]]), tri.dir) > 0.0 {
        triangles := triangles[t := tri.(valid := false)];
      } else {
        triangles := triangles[t := tri.(valid := true)];
      }
    }

    /**
     * _addTriangle with a direction (EPA.cpp:121-136): a face whose
     * direction `dir` (of length l) is longer than EPS is appended with
     * the unit normal dir / l and the distance of its plane; a shorter one
     * is dropped.  The links keep the value-initialised zeros.
     */
    method AddTriangleDir(ver1: int, ver2: int, ver3: int, dir: Vector3, l: real)
      requires Valid() && 0 <= ver1 < |vertices| && 0 <= ver2 < |vertices| && 0 <= ver3 < |vertices|
      requires IsLength(dir, l)
      modifies this`triangles
      ensures Valid()
      ensures l <= EPS ==> triangles == old(triangles)
      ensures l > EPS ==>
                |triangles| == |old(triangles)| + 1 && triangles[..|old(triangles)|] == old(triangles)
                && triangles[|old(triangles)|] == Blank.(vertex := [ver1, ver2, ver3], dir := Div(dir, l),
                                                         dis := PlaneDistance(vertices[ver1], Div(dir, l)))
      ensures l > EPS ==> LengthSquared(triangles[|old(triangles)|].dir) == 1.0
                          && OnPlane(triangles[|old(triangles)|], vertices)
    {
      if l > EPS {
        var n := Div(dir, l);
        DirectedFace(vertices[ver1], dir, l);
        triangles := triangles + [Blank.(vertex := [ver1, ver2, ver3], dir := n, dis := PlaneDistance(vertices[ver1], n))];
      }
    }

    /**
     * _addTriangle from three corners (EPA.cpp:138-159): the normal is the
     * cross product of the edges from corner 1, divided by its length l;
     * slots 1 and 2 are unlinked and slot 0 keeps the value-initialised zero.
     * The length guard is commented out in the source, so collinear corners
     * (l == 0) still append a face: its normal is the zero cross product
     * (0/0 in the source) and its distance is NAN_DISTANCE, which no later
     * search for the nearest face selects.
     */
    method AddTriangle(ver1: int, ver2: int, ver3: int, l: real)
      requires Valid() && 0 <= ver1 < |vertices| && 0 <= ver2 < |vertices| && 0 <= ver3 < |vertices|
      requires IsLength(Cross(Sub(vertices[ver2], vertices[ver1]), Sub(vertices[ver3], vertices[ver1])), l)
      modifies this`triangles
      ensures Valid()
      ensures |triangles| == |old(triangles)| + 1 && triangles[..|old(triangles)|] == old(triangles)
      ensures var c := Cross(Sub(vertices[ver2], vertices[ver1]), Sub(vertices[ver3], vertices[ver1]));
              l > 0.0 ==>
              triangles[|old(triangles)|]
              == Blank.(vertex := [ver1, ver2, ver3], joined := [0, -1, -1], dir := Div(c, l),
                        dis := PlaneDistance(vertices[ver1], Div(c, l)))
      ensures var t := triangles[|old(triangles)|];
              l > 0.0 ==>
              LengthSquared(t.dir) == 1.0 && OnPlane(t, vertices)
              && Dot(vertices[ver2], t.dir) == t.dis && Dot(vertices[ver3], t.dir) == t.dis
      ensures l == 0.0 ==>
              triangles[|old(triangles)|]
              == Blank.(vertex := [ver1, ver2, ver3], joined := [0, -1, -1], dir := Zero, dis := NAN_DISTANCE)
              && triangles[|old(triangles)|].dis >= MAX_NUMBER
    {
      var c := Cross(Sub(vertices[ver2], vertices[ver1]), Sub(vertices[ver3], vertices[ver1]));
      if l > 0.0 {
        CornerFace(vertices[ver1], vertices[ver2], vertices[ver3], l);
        var n := Div(c, l);
        triangles := triangles + [Blank.(vertex := [ver1, ver2, ver3], joined := [0, -1, -1], dir := n,
                                         dis := PlaneDistance(vertices[ver1], n))];
      } else {
        triangles := triangles + [Blank.(vertex := [ver1, ver2, ver3], joined := [0, -1, -1], dir := Zero,
                                         dis := NAN_DISTANCE)];
      }
    }

    /** _setJoinedTriangles (EPA.cpp:161-166): the three links of face t. */
    method SetJoinedTriangles(t: int, tr1: int, tr2: int, tr3: int)
      requires Valid() && 0 <= t < |triangles|
      modifies this`triangles
      ensures Valid()
      ensures triangles == old(triangles)[t := old(triangles[t]).(joined := [tr1, tr2, tr3])]
    {
      triangles := triangles[t := triangles[t].(joined := [tr1, tr2, tr3])];
    }

    /**
     * _findNearestFace (EPA.cpp:239-250): the first face of least distance
     * among those nearer than MAX_NUMBER, or -1 when there is none.
     */
    method FindNearestFace() returns (result: int)
      requires Valid()
      ensures -1 <= result < |triangles|
      ensures result == -1 <==> forall i :: 0 <= i < |triangles| ==> triangles[i].dis >= MAX_NUMBER
      ensures result >= 0 ==> triangles[result].dis < MAX_NUMBER
                              && (forall i :: 0 <= i < |triangles| ==> triangles[result].dis <= triangles[i].dis)
                              && (forall i :: 0 <= i < result ==> triangles[result].dis < triangles[i].dis)
    {
      result := -1;
      var minDis := MAX_NUMBER;
      var i := 0;
      while i < |triangles|
        invariant 0 <= i <= |triangles| && -1 <= result < i
        invariant result == -1 ==> minDis == MAX_NUMBER
        invariant result >= 0 ==> minDis == triangles[result].dis && minDis < MAX_NUMBER
        invariant forall k :: 0 <= k < i ==> minDis <= triangles[k].dis
        invariant result >= 0 ==> forall k :: 0 <= k < result ==> minDis < triangles[k].dis
      {
        if triangles[i].dis < minDis {
          minDis := triangles[i].dis;
          result := i;
        }
        i := i + 1;
      }
    }

    /**
     * The head of _addVertexToConvex (EPA.cpp:209-210): the face being
     * expanded is stamped with the iteration and its distance is pushed to
     * MAX_NUMBER + 0.1 (in float this rounds to MAX_NUMBER), which
     * FindNearestFace never picks since it takes only faces nearer than
     * MAX_NUMBER.
     */
    method Retire(t: int)
      requires Valid() && 0 <= t < |triangles|
      modifies this`triangles
      ensures Valid() && |triangles| == |old(triangles)|
      ensures triangles == old(triangles)[t := old(triangles[t]).(iteration := iteration, dis := MAX_NUMBER + 0.1)]
      ensures triangles[t].dis >= MAX_NUMBER
    {
      triangles := triangles[t := triangles[t].(iteration := iteration, dis := MAX_NUMBER + 0.1)];
    }

    /** One step of the pairing loop of _addVertexToConvex (EPA.cpp:217-229). */
    method Pair(i: int, j: int)
      requires Valid() && 0 <= i < j < |triangles|
      modifies this`triangles
      ensures Valid()
      ensures triangles == Paired(old(triangles), i, j)
    {
      var ti, tj := triangles[i], triangles[j];
      if ti.vertex[0] == tj.vertex[0] {
        triangles := triangles[i := ti.(joined := ti.joined[2 := j])][j := tj.(joined := tj.joined[2 := i])];
      } else if ti.vertex[0] == tj.vertex[1] {
        triangles := triangles[i := ti.(joined := ti.joined[2 := j])][j := tj.(joined := tj.joined[1 := i])];
      } else if ti.vertex[1] == tj.vertex[0] {
        triangles := triangles[i := ti.(joined := ti.joined[1 := j])][j := tj.(joined := tj.joined[2 := i])];
      } else if ti.vertex[1] == tj.vertex[1] {
        triangles := triangles[i := ti.(joined := ti.joined[1 := j])][j := tj.(joined := tj.joined[1 := i])];
      }
    }

    /**
     * The pairing loop of _addVertexToConvex (EPA.cpp:215-236) over the
     * faces from `first` on: it answers true exactly when every new face
     * ends with slots 1 and 2 linked, stopping at the first that does not;
     * every link it writes joins two new faces that share a corner, and
     * nothing else changes.
     */
    method PairNewTriangles(first: int) returns (ok: bool)
      requires Valid() && 0 <= first <= |triangles|
      modifies this`triangles
      ensures Valid() && |triangles| == |old(triangles)|
      ensures Relinked(old(triangles), triangles, first)
      ensures ok <==> forall x :: first <= x < |triangles| ==> Linked(triangles[x])
    {
      ghost var t0 := triangles;
      var i := first;
      while i < |triangles|
        invariant Valid() && |triangles| == |t0| && first <= i <= |triangles|
        invariant Relinked(t0, triangles, first)
        invariant forall x :: first <= x < i ==> Linked(triangles[x])
      {
        var j := i + 1;
        while j < |triangles|
          invariant Valid() && |triangles| == |t0| && i < j <= |triangles|
          invariant Relinked(t0, triangles, first)
          invariant forall x :: first <= x < i ==> Linked(triangles[x])
        {
          ghost var before := triangles;
          Pair(i, j);
          PairRelinks(t0, before, triangles, first, i, j);
          j := j + 1;
        }
        if triangles[i].joined[1] < 0 || triangles[i].joined[2] < 0 {
          return false;
        }
        i := i + 1;
      }
      return true;
    }
  }

  lemma FirstIsFirst(vs: seq<Vector3>, pos: Vector3, i: int)
    requires 0 <= i < |vs| && Equal(pos, vs[i]) && forall k :: 0 <= k < i ==> !Equal(pos, vs[k])
    ensures FirstEqual(vs, pos) == i
  {
  }

  lemma FirstNone(vs: seq<Vector3>, pos: Vector3)
    requires forall k :: 0 <= k < |vs| ==> !Equal(pos, vs[k])
    ensures FirstEqual(vs, pos) == -1
  {
  }

}
