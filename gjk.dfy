/**
 * The discrete side of GJK (CollisionDetected/GJK.h and GJK.cpp): the sign
 * and null tests, the support point of the Minkowski difference of two
 * shapes, and the nearest-point searches on a segment and on a triangle.
 *
 * A search hands back the point of the simplex nearest the origin together
 * with the sub-simplex that carries it (the source's `simplex` array and its
 * count `n`); the public searches also say whether that point is null, that
 * is, whether the origin was reached.  Every division the source makes is by
 * a squared length that the branch taken has shown to be positive.
 */
module Gjk {
  import opened Settings
  import opened Vector3Math
  import opened Vector2Math
  import opened Bodies

  /** GJK::EPS (GJK.cpp:6), the convergence tolerance of compute(). */
  const GJK_EPS: real := 0.0005

  /** sign (GJK.cpp:71-78): 0 below EPS and 1 from EPS on, so never -1. */
  function Sign(a: real): (r: real)
    ensures r == 0.0 || r == 1.0
    ensures r == 1.0 <==> a >= EPS
  {
    if a < EPS then 0.0 else if a > 0.0 then 1.0 else -1.0
  }

  /** isNull(Vector3) (GJK.cpp:89-98): no component further than EPS from zero. */
  function IsNull(v: Vector3): (r: bool)
    ensures r <==> Abs(v.x) <= EPS && Abs(v.y) <= EPS && Abs(v.z) <= EPS
  {
    if Abs(v.x) > EPS then false
    else if Abs(v.y) > EPS then false
    else if Abs(v.z) > EPS then false
    else true
  }

  /** isNull(Vector2) (GJK.cpp:80-87): the same test on two components. */
  function IsNull2(v: Vector2): (r: bool)
    ensures r <==> Abs(v.x) <= EPS && Abs(v.y) <= EPS
  {
    if Abs(v.x) > EPS then false
    else if Abs(v.y) > EPS then false
    else true
  }

  /** A null vector is one equal to zero in the sense of Vector3::equal, and it is short. */
  lemma NullIsEqualZero(v: Vector3)
    ensures IsNull(v) <==> Equal(Zero, v)
    ensures IsNull(v) ==> LengthSquared(v) <= 3.0 * EPS * EPS
  {
    if IsNull(v) {
      SquareBelow(v.x);
      SquareBelow(v.y);
      SquareBelow(v.z);
    }
  }

  lemma SquareBelow(a: real)
    requires Abs(a) <= EPS
    ensures a * a <= EPS * EPS
  {
    var b := Abs(a);
    assert a * a == b * b;
    MulBelow(b, EPS, b);
    MulBelow(b, EPS, EPS);
  }

  lemma MulBelow(x: real, y: real, z: real)
    requires 0.0 <= x <= y && z >= 0.0
    ensures x * z <= y * z
  {
    assert y * z - x * z == (y - x) * z;
  }

  /** A vector two-dimensional null test agrees with the three-dimensional one on a vector with z = 0. */
  lemma NullInPlane(v: Vector2)
    ensures IsNull2(v) <==> IsNull(Vector3(v.x, v.y, 0.0))
  {
  }

  /**
   * support (GJK.cpp:339-345): the support of A along `dir` plus the support
   * of B against it, with the vertex the difference of the two vertices
   * found.  The value bounds every vertex difference along `dir`, so the
   * vertex is the support point of the Minkowski difference A - B.  The
   * out-vertices the source leaves unset when a shape has no vertex are
   * `priorA` and `priorB`.
   */
  method Support(a: Shape, b: Shape, dir: Vector3, priorA: Vector3, priorB: Vector3)
    returns (sM: real, vertex: Vector3)
    ensures forall i, j :: 0 <= i < |a.globalVertices| && 0 <= j < |b.globalVertices| ==>
              Dot(Sub(a.globalVertices[i], b.globalVertices[j]), dir) <= sM
    ensures |a.globalVertices| > 0 && |b.globalVertices| > 0
            && (forall i :: 0 <= i < |a.globalVertices| ==> Dot(a.globalVertices[i], dir) > MIN_NUMBER)
            && (forall j :: 0 <= j < |b.globalVertices| ==> Dot(b.globalVertices[j], Neg(dir)) > MIN_NUMBER) ==>
              Dot(vertex, dir) == sM
              && exists i, j :: 0 <= i < |a.globalVertices| && 0 <= j < |b.globalVertices|
                   && vertex == Sub(a.globalVertices[i], b.globalVertices[j])
  {
    var maxA, vA := a.Support(dir, priorA);
    var maxB, vB := b.Support(Neg(dir), priorB);
    sM := maxA + maxB;
    vertex := Sub(vA, vB);
    forall i, j | 0 <= i < |a.globalVertices| && 0 <= j < |b.globalVertices|
      ensures Dot(Sub(a.globalVertices[i], b.globalVertices[j]), dir) <= sM
    {
      DotSplit(a.globalVertices[i], b.globalVertices[j], dir);
    }
    if |a.globalVertices| > 0 && |b.globalVertices| > 0
       && (forall i :: 0 <= i < |a.globalVertices| ==> Dot(a.globalVertices[i], dir) > MIN_NUMBER)
       && (forall j :: 0 <= j < |b.globalVertices| ==> Dot(b.globalVertices[j], Neg(dir)) > MIN_NUMBER) {
      assert Dot(a.globalVertices[0], dir) <= maxA && Dot(b.globalVertices[0], Neg(dir)) <= maxB;
      ghost var i :| 0 <= i < |a.globalVertices| && FirstMax(a.globalVertices, dir, i, maxA) && vA == a.globalVertices[i];
      ghost var j :| 0 <= j < |b.globalVertices| && FirstMax(b.globalVertices, Neg(dir), j, maxB) && vB == b.globalVertices[j];
      DotSplit(vA, vB, dir);
    }
  }

  lemma DotSplit(p: Vector3, q: Vector3, d: Vector3)
    ensures Dot(Sub(p, q), d) == Dot(p, d) + Dot(q, Neg(d))
  {
  }

  /**
   * What a search leaves: the nearest point found and the corners of the
   * sub-simplex carrying it, in the order the source stores them.
   */
  datatype Closest = Closest(point: Vector3, simplex: seq<Vector3>)

  /** A public search also reports whether that point is null. */
  datatype Nearest = Nearest(point: Vector3, simplex: seq<Vector3>, reached: bool)

  /** The normal GJK uses for the corners s0, s1, s2: cross(s0 - s2, s1 - s0). */
  function TriangleNormal(s0: Vector3, s1: Vector3, s2: Vector3): Vector3
  {
    Cross(Sub(s0, s2), Sub(s1, s0))
  }

  /**
   * `point` is what the source computes for the sub-simplex `s`, drawn from
   * the corners `ps`: a single corner is the point itself; on an edge the
   * point lies on the edge's line and is orthogonal to the edge (the foot
   * of the perpendicular from the origin); on a face it lies in the face's
   * plane and along the face's normal.
   */
  predicate Carried(point: Vector3, s: seq<Vector3>, ps: seq<Vector3>)
  {
    1 <= |s| <= 3 && (forall q :: q in s ==> q in ps)
    && (|s| == 1 ==> point == s[0])
    && (|s| == 2 ==> Dot(point, Sub(s[1], s[0])) == 0.0 && Cross(Sub(point, s[0]), Sub(s[1], s[0])) == Zero)
    && (|s| == 3 ==> Dot(point, TriangleNormal(s[0], s[1], s[2])) == Dot(s[0], TriangleNormal(s[0], s[1], s[2]))
                     && Cross(point, TriangleNormal(s[0], s[1], s[2])) == Zero)
  }

  /** The foot of the perpendicular from the origin to the line through p1 in direction v. */
  function Foot(p1: Vector3, v: Vector3): (r: Vector3)
    requires LengthSquared(v) > 0.0
    ensures Dot(r, v) == 0.0
    ensures Cross(Sub(r, p1), v) == Zero
  {
    var t := - Dot(p1, v) / LengthSquared(v);
    var r := Add(p1, Scale(v, t));
    FootOrthogonal(p1, v, t);
    assert Sub(r, p1) == Scale(v, t);
    CrossScaledSelf(v, t);
    r
  }

  lemma FootOrthogonal(p1: Vector3, v: Vector3, t: real)
    requires LengthSquared(v) > 0.0 && t == - Dot(p1, v) / LengthSquared(v)
    ensures Dot(Add(p1, Scale(v, t)), v) == 0.0
  {
    var l := LengthSquared(v);
    assert t * l == - Dot(p1, v);
    calc {
      Dot(Add(p1, Scale(v, t)), v);
      Dot(p1, v) + t * (v.x * v.x + v.y * v.y + v.z * v.z);
      Dot(p1, v) + t * l;
      0.0;
    }
  }

  /** The foot of the perpendicular from the origin to the plane through p with normal n, scaled along n. */
  function PlaneFoot(p: Vector3, n: Vector3): (r: Vector3)
    requires LengthSquared(n) > 0.0
    ensures Dot(r, n) == Dot(p, n)
    ensures Cross(r, n) == Zero
  {
    var k := Dot(p, n) / LengthSquared(n);
    var r := Scale(n, k);
    assert Dot(r, n) == k * LengthSquared(n);
    CrossScaledSelf(n, k);
    r
  }

  /** The parameter of the origin's projection on the line p1 + t v, in terms of dot products. */
  lemma ParameterSigns(p1: Vector3, v: Vector3)
    requires LengthSquared(v) > 0.0
    ensures - Dot(p1, v) / LengthSquared(v) < 0.0 <==> Dot(p1, v) > 0.0
    ensures - Dot(p1, v) / LengthSquared(v) > 1.0 <==> - Dot(p1, v) > LengthSquared(v)
  {
    var l := LengthSquared(v);
    var t := - Dot(p1, v) / l;
    assert t * l == - Dot(p1, v);
    if t < 0.0 { assert t * l < 0.0; }
    if Dot(p1, v) > 0.0 { assert t * l < 0.0; }
    if t > 1.0 { assert t * l > 1.0 * l; }
    if - Dot(p1, v) > l { assert t * l > 1.0 * l; }
  }

  /**
   * _nearestPoint_edge (GJK.cpp:347-366) on the edge p1-p2: the origin's
   * projection clamped to the edge.  Before p1 (dot(p1, p2 - p1) > 0) it is
   * p1 alone, past p2 it is p2 alone, otherwise it is the foot of the
   * perpendicular with both ends kept.
   */
  function NearestEdge(p1: Vector3, p2: Vector3): (r: Closest)
    requires LengthSquared(Sub(p2, p1)) > 0.0
    ensures Carried(r.point, r.simplex, [p1, p2])
    ensures Dot(p1, Sub(p2, p1)) > 0.0 ==> r == Closest(p1, [p1])
    ensures - Dot(p1, Sub(p2, p1)) > LengthSquared(Sub(p2, p1)) ==> r == Closest(p2, [p2])
    ensures 0.0 <= - Dot(p1, Sub(p2, p1)) <= LengthSquared(Sub(p2, p1)) ==> r.simplex == [p1, p2]
  {
    var v := Sub(p2, p1);
    var t := - Dot(p1, v) / LengthSquared(v);
    ParameterSigns(p1, v);
    if t < 0.0 then Closest(p1, [p1])
    else if t > 1.0 then Closest(p2, [p2])
    else Closest(Foot(p1, v), [p1, p2])
  }

  /**
   * _nearestPoint_2edges (GJK.cpp:368-387): the edge p1-p2 is tried first;
   * past p2 the answer is the one for the edge p2-p3.
   */
  function NearestTwoEdges(p1: Vector3, p2: Vector3, p3: Vector3): (r: Closest)
    requires LengthSquared(Sub(p2, p1)) > 0.0 && LengthSquared(Sub(p3, p2)) > 0.0
    ensures Carried(r.point, r.simplex, [p1, p2, p3]) && |r.simplex| <= 2
    ensures Dot(p1, Sub(p2, p1)) > 0.0 ==> r == Closest(p1, [p1])
    ensures - Dot(p1, Sub(p2, p1)) > LengthSquared(Sub(p2, p1)) ==> r == NearestEdge(p2, p3)
  {
    var v := Sub(p2, p1);
    var t := - Dot(p1, v) / LengthSquared(v);
    ParameterSigns(p1, v);
    if t < 0.0 then Closest(p1, [p1])
    else if t > 1.0 then NearestEdge(p2, p3)
    else Closest(Foot(p1, v), [p1, p2])
  }

  /** A triangle with a non-zero normal has three non-degenerate edges. */
  lemma EdgesOfTriangle(p1: Vector3, p2: Vector3, p3: Vector3)
    requires LengthSquared(TriangleNormal(p1, p2, p3)) > 0.0
    ensures LengthSquared(Sub(p2, p1)) > 0.0 && LengthSquared(Sub(p3, p2)) > 0.0 && LengthSquared(Sub(p1, p3)) > 0.0
  {
    NormalRotates(p1, p2, p3);
    CrossFactors(Sub(p1, p3), Sub(p2, p1));
    CrossFactors(Sub(p2, p1), Sub(p3, p2));
  }

  /** Both factors of a non-zero cross product are non-zero. */
  lemma CrossFactors(u: Vector3, w: Vector3)
    requires LengthSquared(Cross(u, w)) > 0.0
    ensures LengthSquared(u) > 0.0 && LengthSquared(w) > 0.0
  {
    LagrangeIdentity(u, w);
    SquarePositive(Dot(u, w));
    if LengthSquared(u) <= 0.0 {
      NonPositiveProduct(LengthSquared(u), LengthSquared(w));
    }
    if LengthSquared(w) <= 0.0 {
      NonPositiveProduct(LengthSquared(w), LengthSquared(u));
    }
  }

  lemma NonPositiveProduct(x: real, y: real)
    requires x <= 0.0 && y >= 0.0
    ensures x * y <= 0.0
  {
    assert (- x) * y >= 0.0;
  }

  lemma SquarePositive(a: real)
    ensures a * a >= 0.0
  {
    if a < 0.0 {
      assert a * a == (- a) * (- a);
    }
  }

  lemma CrossWithNegation(a: Vector3)
    ensures Cross(Neg(a), a) == Zero
  {
  }

  /** The normal of a rotated triangle is the same. */
  lemma NormalRotates(p1: Vector3, p2: Vector3, p3: Vector3)
    ensures TriangleNormal(p2, p3, p1) == TriangleNormal(p1, p2, p3)
    ensures TriangleNormal(p3, p1, p2) == TriangleNormal(p1, p2, p3)
  {
  }

  /**
   * _nearestPoint_triangle (GJK.cpp:389-433) on a triangle with a non-zero
   * normal.  Three side tests (dot(p_k, cross(dir, edge_k))) pick the
   * region of the origin: inside all three, the foot of the perpendicular
   * on the face's plane with all three corners kept; otherwise an edge or a
   * pair of edges is searched; the case the source marks impossible keeps
   * p1 alone.
   */
  function NearestTriangle(p1: Vector3, p2: Vector3, p3: Vector3): (r: Closest)
    requires LengthSquared(TriangleNormal(p1, p2, p3)) > 0.0
    ensures Carried(r.point, r.simplex, [p1, p2, p3])
  {
    var dir := TriangleNormal(p1, p2, p3);
    EdgesOfTriangle(p1, p2, p3);
    var zn1 := Dot(p1, Cross(dir, Sub(p2, p1)));
    var zn2 := Dot(p2, Cross(dir, Sub(p3, p2)));
    var zn3 := Dot(p3, Cross(dir, Sub(p1, p3)));
    if zn1 <= 0.0 then
      if zn2 <= 0.0 then
        if zn3 <= 0.0 then Closest(PlaneFoot(p1, dir), [p1, p2, p3])
        else NearestEdge(p3, p1)
      else if zn3 <= 0.0 then NearestEdge(p2, p3)
      else NearestTwoEdges(p2, p3, p1)
    else if zn2 <= 0.0 then
      if zn3 <= 0.0 then NearestEdge(p1, p2)
      else NearestTwoEdges(p3, p1, p2)
    else if zn3 <= 0.0 then NearestTwoEdges(p1, p2, p3)
    else Closest(p1, [p1])
  }

  /**
   * nearestPoint for two corners (GJK.cpp:100-131).  A segment shorter than
   * EPS counts as the point p1; otherwise the origin's projection is clamped
   * to it as in NearestEdge.  The origin counts as reached only when the
   * point is null and was not clamped to p2 or (on a real segment) to p1.
   */
  function NearestSegment(p1: Vector3, p2: Vector3): (r: Nearest)
    ensures Carried(r.point, r.simplex, [p1, p2]) && |r.simplex| <= 2
    ensures r.reached ==> IsNull(r.point)
    ensures LengthSquared(Sub(p2, p1)) < EPS * EPS ==> r == Nearest(p1, [p1], IsNull(p1))
    ensures LengthSquared(Sub(p2, p1)) >= EPS * EPS ==>
              r.point == NearestEdge(p1, p2).point && r.simplex == NearestEdge(p1, p2).simplex
              && (r.reached <==> |r.simplex| == 2 && IsNull(r.point))
  {
    var v := Sub(p2, p1);
    var lS := LengthSquared(v);
    if lS < EPS * EPS then Nearest(p1, [p1], IsNull(p1))
    else
      var dpi := - (Dot(p1, v) / lS);
      ClampAgrees(p1, p2);
      if dpi < 0.0 then Nearest(p1, [p1], false)
      else if dpi > 1.0 then Nearest(p2, [p2], false)
      else
        var point := Add(Scale(v, dpi), p1);
        Nearest(point, [p1, p2], IsNull(point))
  }

  /** The clamped projection written out in the segment search is NearestEdge's. */
  lemma ClampAgrees(p1: Vector3, p2: Vector3)
    requires LengthSquared(Sub(p2, p1)) > 0.0
    ensures var v := Sub(p2, p1);
            var dpi := - (Dot(p1, v) / LengthSquared(v));
            && (dpi < 0.0 ==> NearestEdge(p1, p2) == Closest(p1, [p1]))
            && (dpi > 1.0 ==> NearestEdge(p1, p2) == Closest(p2, [p2]))
            && (0.0 <= dpi <= 1.0 ==> NearestEdge(p1, p2) == Closest(Add(Scale(v, dpi), p1), [p1, p2]))
  {
    var v := Sub(p2, p1);
    NegatedQuotient(Dot(p1, v), LengthSquared(v));
    var dpi := - (Dot(p1, v) / LengthSquared(v));
    assert Add(Scale(v, dpi), p1) == Add(p1, Scale(v, dpi));
  }

  /**
   * nearestPoint for three corners (GJK.cpp:133-153).  A triangle whose
   * normal is shorter than EPS counts as the point p1; otherwise the
   * search is NearestTriangle's.  The origin is reached exactly when the
   * point found is null.
   */
  function NearestPointTriangle(p1: Vector3, p2: Vector3, p3: Vector3): (r: Nearest)
    ensures Carried(r.point, r.simplex, [p1, p2, p3])
    ensures r.reached <==> IsNull(r.point)
    ensures LengthSquared(TriangleNormal(p1, p2, p3)) < EPS * EPS ==> r == Nearest(p1, [p1], IsNull(p1))
    ensures LengthSquared(TriangleNormal(p1, p2, p3)) >= EPS * EPS ==>
              r.point == NearestTriangle(p1, p2, p3).point && r.simplex == NearestTriangle(p1, p2, p3).simplex
  {
    var dir := Cross(Sub(p1, p3), Sub(p2, p1));
    if LengthSquared(dir) < EPS * EPS then Nearest(p1, [p1], IsNull(p1))
    else
      var c := NearestTriangle(p1, p2, p3);
      Nearest(c.point, c.simplex, IsNull(c.point))
  }

  lemma NegatedQuotient(a: real, b: real)
    requires b != 0.0
    ensures - (a / b) == - a / b
  {
    assert (- a / b) * b == - a;
    assert (a / b) * b == a;
  }

  /** A degenerate segment (both corners equal) answers p1 and reaches the origin only at p1 = 0. */
  lemma SegmentOfOnePoint(p: Vector3)
    ensures NearestSegment(p, p) == Nearest(p, [p], IsNull(p))
  {
    assert LengthSquared(Sub(p, p)) == 0.0;
  }

  /** The segment search does not depend on the order of its corners: the point found is the same. */
  lemma {:induction false} SegmentSymmetric(p1: Vector3, p2: Vector3)
    requires LengthSquared(Sub(p2, p1)) >= EPS * EPS
    ensures NearestSegment(p1, p2).point == NearestSegment(p2, p1).point
  {
    var v, w := Sub(p2, p1), Sub(p1, p2);
    assert w == Neg(v);
    assert LengthSquared(w) == LengthSquared(v);
    assert Dot(p2, w) == - Dot(p1, v) - LengthSquared(v);
    var a, b := NearestEdge(p1, p2), NearestEdge(p2, p1);
    if 0.0 <= - Dot(p1, v) <= LengthSquared(v) {
      assert a.simplex == [p1, p2] && b.simplex == [p2, p1];
      LineShift(b.point, p1, p2);
      FootUnique(a.point, b.point, p1, v);
    }
  }

  /** A point on the line through p2 in direction p1 - p2 is on the line through p1 in direction p2 - p1. */
  lemma LineShift(b: Vector3, p1: Vector3, p2: Vector3)
    requires Dot(b, Sub(p1, p2)) == 0.0 && Cross(Sub(b, p2), Sub(p1, p2)) == Zero
    ensures Dot(b, Sub(p2, p1)) == 0.0 && Cross(Sub(b, p1), Sub(p2, p1)) == Zero
  {
    var v := Sub(p2, p1);
    assert Sub(b, p1) == Add(Sub(b, p2), v);
    assert Cross(Add(Sub(b, p2), v), v) == Add(Cross(Sub(b, p2), v), Cross(v, v));
    assert Cross(Sub(b, p2), v) == Neg(Cross(Sub(b, p2), Sub(p1, p2)));
  }

  /** On a line through p1 with direction v, only one point is orthogonal to v. */
  lemma FootUnique(a: Vector3, b: Vector3, p1: Vector3, v: Vector3)
    requires LengthSquared(v) > 0.0
    requires Dot(a, v) == 0.0 && Cross(Sub(a, p1), v) == Zero
    requires Dot(b, v) == 0.0 && Cross(Sub(b, p1), v) == Zero
    ensures a == b
  {
    var d := Sub(a, b);
    assert Dot(d, v) == 0.0;
    assert Cross(d, v) == Zero by {
      assert Cross(d, v) == Sub(Cross(Sub(a, p1), v), Cross(Sub(b, p1), v));
    }
    ParallelOrthogonalZero(d, v);
  }

  /** A vector both parallel and orthogonal to a non-zero vector is zero. */
  lemma ParallelOrthogonalZero(d: Vector3, v: Vector3)
    requires LengthSquared(v) > 0.0 && Dot(d, v) == 0.0 && Cross(d, v) == Zero
    ensures d == Zero
  {
    TripleCross(d, v);
    assert Dot(v, d) == 0.0;
    assert Cross(v, Zero) == Zero;
    var l := LengthSquared(v);
    assert Scale(d, l) == Zero;
    ZeroFactor(d.x, l);
    ZeroFactor(d.y, l);
    ZeroFactor(d.z, l);
  }

  lemma ZeroFactor(x: real, l: real)
    requires l > 0.0 && x * l == 0.0
    ensures x == 0.0
  {
    assert x == (x * l) / l;
  }

  /** v x (d x v) = |v|^2 d - (v.d) v. */
  lemma TripleCross(d: Vector3, v: Vector3)
    ensures Cross(v, Cross(d, v)) == Sub(Scale(d, LengthSquared(v)), Scale(v, Dot(v, d)))
  {
    var l, p := LengthSquared(v), Dot(v, d);
    TripleComponent(d.x, d.y, d.z, v.x, v.y, v.z, l, p);
    TripleComponent(d.y, d.z, d.x, v.y, v.z, v.x, l, p);
    TripleComponent(d.z, d.x, d.y, v.z, v.x, v.y, l, p);
  }

  lemma TripleComponent(dx: real, dy: real, dz: real, vx: real, vy: real, vz: real, l: real, p: real)
    requires l == vx * vx + vy * vy + vz * vz && p == vx * dx + vy * dy + vz * dz
    ensures vy * (dx * vy - dy * vx) - vz * (dz * vx - dx * vz) == dx * l - vx * p
  {
  }

  /** |d|^2 |v|^2 = (d.v)^2 + |d x v|^2. */
  lemma LagrangeIdentity(d: Vector3, v: Vector3)
    ensures LengthSquared(d) * LengthSquared(v) == Dot(d, v) * Dot(d, v) + LengthSquared(Cross(d, v))
  {
  }
}
