/**
 * Three-dimensional vectors (VectorMath/Vector3.h and Vector3.cpp).
 *
 * Vector3 is a value type in the engine: it is copied on assignment and its
 * in-place mutators (minAxis, maxAxis, normalize) are modelled as functions
 * that return the updated value.  std::sqrt is never evaluated here: where
 * the engine takes a length, the caller supplies it together with the fact
 * that it is the square root of the squared length.
 */
module Vector3Math {
  import opened Settings

  datatype Vector3 = Vector3(x: real, y: real, z: real)

  const Zero: Vector3 := Vector3(0.0, 0.0, 0.0)

  function Add(a: Vector3, b: Vector3): Vector3 { Vector3(a.x + b.x, a.y + b.y, a.z + b.z) }
  function Sub(a: Vector3, b: Vector3): Vector3 { Vector3(a.x - b.x, a.y - b.y, a.z - b.z) }
  function Scale(a: Vector3, k: real): Vector3 { Vector3(a.x * k, a.y * k, a.z * k) }
  function Div(a: Vector3, k: real): Vector3 requires k != 0.0 { Vector3(a.x / k, a.y / k, a.z / k) }

  /** Unary minus (Vector3.h:99-102). */
  function Neg(a: Vector3): (r: Vector3)
    ensures Add(a, r) == Zero
  {
    Vector3(-a.x, -a.y, -a.z)
  }

  lemma NegNeg(a: Vector3)
    ensures Neg(Neg(a)) == a
  {
  }

  /** The component selected by operator[] (0 = x, 1 = y, 2 = z). */
  function At(a: Vector3, n: nat): real
    requires n < 3
  {
    if n == 0 then a.x else if n == 1 then a.y else a.z
  }

  function Dot(a: Vector3, b: Vector3): real
  {
    a.x * b.x + a.y * b.y + a.z * b.z
  }

  function Cross(a: Vector3, b: Vector3): Vector3
  {
    Vector3(a.y * b.z - a.z * b.y, a.z * b.x - a.x * b.z, a.x * b.y - a.y * b.x)
  }

  function LengthSquared(a: Vector3): (r: real)
    ensures r >= 0.0
  {
    a.x * a.x + a.y * a.y + a.z * a.z
  }

  /** `l` is a valid result of length(): the non-negative square root of lengthSquared(). */
  predicate IsLength(a: Vector3, l: real)
  {
    l >= 0.0 && l * l == LengthSquared(a)
  }

  lemma DotSymmetric(a: Vector3, b: Vector3)
    ensures Dot(a, b) == Dot(b, a)
  {
  }

  lemma CrossAntisymmetric(a: Vector3, b: Vector3)
    ensures Cross(a, b) == Neg(Cross(b, a))
  {
  }

  /** cross(a, b) is orthogonal to both of its arguments (Vector3.cpp:10-15). */
  lemma CrossOrthogonal(a: Vector3, b: Vector3)
    ensures Dot(a, Cross(a, b)) == 0.0
    ensures Dot(b, Cross(a, b)) == 0.0
  {
    calc {
      Dot(a, Cross(a, b));
      a.x * (a.y * b.z) - a.x * (a.z * b.y) + a.y * (a.z * b.x) - a.y * (a.x * b.z)
        + a.z * (a.x * b.y) - a.z * (a.y * b.x);
      0.0;
    }
    calc {
      Dot(b, Cross(a, b));
      b.x * (a.y * b.z) - b.x * (a.z * b.y) + b.y * (a.z * b.x) - b.y * (a.x * b.z)
        + b.z * (a.x * b.y) - b.z * (a.y * b.x);
      0.0;
    }
  }

  /** length() (Vector3.h) with the square root supplied by the caller. */
  function Length(a: Vector3, sqrt: real -> real): real
  {
    sqrt(LengthSquared(a))
  }

  /** The value of `normalize()`: the new vector and the returned length. */
  datatype Normalized = Normalized(v: Vector3, length: real)

  /**
   * normalize() (Vector3.h:114-128) given `l`, the value length() returns.
   * A vector shorter than EPS becomes zero and 0 is returned; otherwise every
   * component is divided by the length, which is returned.  When `l` really
   * is the length, the result has unit length.
   */
  function Normalize(a: Vector3, l: real): (r: Normalized)
    ensures Abs(l) < EPS ==> r == Normalized(Zero, 0.0)
    ensures Abs(l) >= EPS ==> r.length == l && Scale(r.v, l) == a
    ensures Abs(l) >= EPS && IsLength(a, l) ==> LengthSquared(r.v) == 1.0
  {
    if Abs(l) < EPS then Normalized(Zero, 0.0)
    else
      var v := Div(a, l);
      assert Scale(v, l) == a;
      if IsLength(a, l) then UnitAfterDivision(a, l); Normalized(v, l)
      else Normalized(v, l)
  }

  lemma UnitAfterDivision(a: Vector3, l: real)
    requires IsLength(a, l) && l > 0.0
    ensures Scale(Div(a, l), l) == a
    ensures LengthSquared(Div(a, l)) == 1.0
  {
    var v := Div(a, l);
    assert v.x * l == a.x && v.y * l == a.y && v.z * l == a.z;
    calc {
      LengthSquared(v) * (l * l);
      (v.x * l) * (v.x * l) + (v.y * l) * (v.y * l) + (v.z * l) * (v.z * l);
      LengthSquared(a);
      1.0 * (l * l);
    }
  }

  /** minAxis(b) (Vector3.h:151-159): each component becomes the smaller of the two. */
  function MinAxis(a: Vector3, b: Vector3): (r: Vector3)
    ensures r.x <= a.x && r.x <= b.x && (r.x == a.x || r.x == b.x)
    ensures r.y <= a.y && r.y <= b.y && (r.y == a.y || r.y == b.y)
    ensures r.z <= a.z && r.z <= b.z && (r.z == a.z || r.z == b.z)
  {
    Vector3(if b.x < a.x then b.x else a.x,
            if b.y < a.y then b.y else a.y,
            if b.z < a.z then b.z else a.z)
  }

  /** maxAxis(p) (Vector3.h:161-169): each component becomes the larger of the two. */
  function MaxAxis(a: Vector3, p: Vector3): (r: Vector3)
    ensures r.x >= a.x && r.x >= p.x && (r.x == a.x || r.x == p.x)
    ensures r.y >= a.y && r.y >= p.y && (r.y == a.y || r.y == p.y)
    ensures r.z >= a.z && r.z >= p.z && (r.z == a.z || r.z == p.z)
  {
    Vector3(if p.x > a.x then p.x else a.x,
            if p.y > a.y then p.y else a.y,
            if p.z > a.z then p.z else a.z)
  }

  /** `a <= b` on every axis. */
  predicate LessEq(a: Vector3, b: Vector3)
  {
    a.x <= b.x && a.y <= b.y && a.z <= b.z
  }

  /** equal(p) (Vector3.h:210-219): every component within EPS. */
  function Equal(a: Vector3, p: Vector3): (r: bool)
    ensures r <==> Abs(p.x - a.x) <= EPS && Abs(p.y - a.y) <= EPS && Abs(p.z - a.z) <= EPS
  {
    if Abs(p.x - a.x) > EPS then false
    else if Abs(p.y - a.y) > EPS then false
    else if Abs(p.z - a.z) > EPS then false
    else true
  }

  lemma EqualSymmetric(a: Vector3, p: Vector3)
    ensures Equal(a, p) == Equal(p, a)
  {
  }

  /** equal(float a) (Vector3.h:221-230): every component within EPS of `s`. */
  function EqualScalar(a: Vector3, s: real): (r: bool)
    ensures r <==> Equal(a, Vector3(s, s, s))
  {
    if Abs(a.x - s) > EPS then false
    else if Abs(a.y - s) > EPS then false
    else if Abs(a.z - s) > EPS then false
    else true
  }

  /** inBound(a) (Vector3.h:232-235): every |component| strictly below `a`. */
  function InBound(v: Vector3, a: real): (r: bool)
    ensures r ==> a > 0.0
    ensures r <==> -a < v.x < a && -a < v.y < a && -a < v.z < a
  {
    Abs(v.x) < a && Abs(v.y) < a && Abs(v.z) < a
  }

  /**
   * equalDir(p) (Vector3.h:171-208), kept with its case structure: per axis
   * the ratio p.c / a.c, or 0 where a.c is near zero (which then demands
   * p.c near zero as well); non-zero ratios must agree within EPS.
   */
  function EqualDir(a: Vector3, p: Vector3): bool
  {
    if Abs(a.x) < EPS && Abs(p.x) >= EPS then false
    else
      var kx := if Abs(a.x) < EPS then 0.0 else p.x / a.x;
      if Abs(a.y) < EPS && Abs(p.y) >= EPS then false
      else
        var ky := if Abs(a.y) < EPS then 0.0 else p.y / a.y;
        if Abs(a.y) >= EPS && kx != 0.0 && Abs(kx - ky) >= EPS then false
        else if Abs(a.z) < EPS && Abs(p.z) >= EPS then false
        else
          var kz := if Abs(a.z) < EPS then 0.0 else p.z / a.z;
          if Abs(a.z) >= EPS && kx != 0.0 && Abs(kx - kz) >= EPS then false
          else if Abs(a.z) >= EPS && ky != 0.0 && Abs(ky - kz) >= EPS then false
          else true
  }

  /** A component that is near zero in `a` but not in `p` makes equalDir false. */
  lemma EqualDirRejectsZeroMismatch(a: Vector3, p: Vector3, n: nat)
    requires n < 3 && Abs(At(a, n)) < EPS && Abs(At(p, n)) >= EPS
    ensures !EqualDir(a, p)
  {
  }

  /**
   * The comparison is one-sided: a near-zero component of `p` against a non-zero
   * one of `a` is a ratio of 0, which is then ignored, so equalDir is not
   * symmetric.
   */
  lemma EqualDirNotSymmetric()
    ensures EqualDir(Vector3(1.0, 1.0, 1.0), Zero)
    ensures !EqualDir(Zero, Vector3(1.0, 1.0, 1.0))
  {
  }

  /** projection_n (Vector3.cpp:17-21): projection of `point` on a ray with unit direction `n`. */
  function ProjectionN(n: Vector3, rayPoint: Vector3, point: Vector3): Vector3
  {
    Add(rayPoint, Scale(n, Dot(Sub(point, rayPoint), n)))
  }

  /** With a unit direction the residual of projection_n is orthogonal to the ray. */
  lemma ProjectionNOrthogonal(n: Vector3, rayPoint: Vector3, point: Vector3)
    requires LengthSquared(n) == 1.0
    ensures Dot(Sub(point, ProjectionN(n, rayPoint, point)), n) == 0.0
  {
    var d := Dot(Sub(point, rayPoint), n);
    ResidualOrthogonal(Sub(point, rayPoint), n, d);
    assert Sub(point, ProjectionN(n, rayPoint, point)) == Sub(Sub(point, rayPoint), Scale(n, d));
  }

  /** dot(w - n*k, n) == dot(w, n) - k*|n|^2, the step shared by all projections. */
  lemma ResidualOrthogonal(w: Vector3, n: Vector3, k: real)
    ensures Dot(Sub(w, Scale(n, k)), n) == Dot(w, n) - k * LengthSquared(n)
  {
    calc {
      Dot(Sub(w, Scale(n, k)), n);
      (w.x - n.x * k) * n.x + (w.y - n.y * k) * n.y + (w.z - n.z * k) * n.z;
      Dot(w, n) - k * (n.x * n.x + n.y * n.y + n.z * n.z);
    }
  }

  /**
   * projection (Vector3.cpp:23-31): the foot of the perpendicular from `point`
   * to the ray, or `point` itself when the direction is shorter than EPS.
   */
  function Projection(rayDir: Vector3, rayPoint: Vector3, point: Vector3): (r: Vector3)
    ensures LengthSquared(rayDir) <= EPS ==> r == point
    ensures LengthSquared(rayDir) > EPS ==> Dot(Sub(point, r), rayDir) == 0.0
    ensures LengthSquared(rayDir) > EPS ==> Cross(Sub(r, rayPoint), rayDir) == Zero
  {
    var lsq := LengthSquared(rayDir);
    if lsq > EPS then
      var dpi := Dot(Sub(point, rayPoint), rayDir) / lsq;
      var r := Add(rayPoint, Scale(rayDir, dpi));
      ResidualOrthogonal(Sub(point, rayPoint), rayDir, dpi);
      assert Sub(point, r) == Sub(Sub(point, rayPoint), Scale(rayDir, dpi));
      assert Sub(r, rayPoint) == Scale(rayDir, dpi);
      CrossScaledSelf(rayDir, dpi);
      r
    else point
  }

  lemma CrossScaledSelf(a: Vector3, k: real)
    ensures Cross(Scale(a, k), a) == Zero
  {
    assert (a.y * k) * a.z - (a.z * k) * a.y == 0.0;
    assert (a.z * k) * a.x - (a.x * k) * a.z == 0.0;
    assert (a.x * k) * a.y - (a.y * k) * a.x == 0.0;
  }

  /** projectionToPlane_n (Vector3.cpp:33-36). */
  function ProjectionToPlaneN(n: Vector3, planePoint: Vector3, point: Vector3): Vector3
  {
    Sub(point, Scale(n, Dot(Sub(point, planePoint), n)))
  }

  /** With a unit normal, projectionToPlane_n lands on the plane. */
  lemma ProjectionToPlaneNOnPlane(n: Vector3, planePoint: Vector3, point: Vector3)
    requires LengthSquared(n) == 1.0
    ensures Dot(Sub(ProjectionToPlaneN(n, planePoint, point), planePoint), n) == 0.0
  {
    var d := Dot(Sub(point, planePoint), n);
    ResidualOrthogonal(Sub(point, planePoint), n, d);
    assert Sub(ProjectionToPlaneN(n, planePoint, point), planePoint)
        == Sub(Sub(point, planePoint), Scale(n, d));
  }

  /**
   * projectionToPlane_n is affine: the point at parameter t on a segment
   * projects to the point at parameter t on the projected segment.
   */
  lemma ProjectionAlongSegment(n: Vector3, planePoint: Vector3, a0: Vector3, a1: Vector3, t: real)
    ensures var p0 := ProjectionToPlaneN(n, planePoint, a0);
            ProjectionToPlaneN(n, planePoint, Add(a0, Scale(Sub(a1, a0), t)))
            == Add(p0, Scale(Sub(ProjectionToPlaneN(n, planePoint, a1), p0), t))
  {
    var x := Add(a0, Scale(Sub(a1, a0), t));
    var d0 := Dot(Sub(a0, planePoint), n);
    var d1 := Dot(Sub(a1, planePoint), n);
    var p0 := ProjectionToPlaneN(n, planePoint, a0);
    var p1 := ProjectionToPlaneN(n, planePoint, a1);
    calc {
      ProjectionToPlaneN(n, planePoint, x);
      Sub(x, Scale(n, Dot(Sub(x, planePoint), n)));
      { HeightAlongSegment(n, planePoint, a0, a1, t); }
      Sub(x, Scale(n, d0 + (d1 - d0) * t));
      { ShiftedSegment(a0, a1, n, d0, d1, t); }
      Add(Sub(a0, Scale(n, d0)), Scale(Sub(Sub(a1, Scale(n, d1)), Sub(a0, Scale(n, d0))), t));
      Add(p0, Scale(Sub(p1, p0), t));
    }
  }

  /** Moving each end of a segment along n moves the point at parameter t by the interpolated amount. */
  lemma ShiftedSegment(a0: Vector3, a1: Vector3, n: Vector3, d0: real, d1: real, t: real)
    ensures Sub(Add(a0, Scale(Sub(a1, a0), t)), Scale(n, d0 + (d1 - d0) * t))
            == Add(Sub(a0, Scale(n, d0)), Scale(Sub(Sub(a1, Scale(n, d1)), Sub(a0, Scale(n, d0))), t))
  {
    var e := Sub(a1, a0);
    var f := Sub(Scale(n, d1), Scale(n, d0));
    calc {
      Sub(Add(a0, Scale(e, t)), Scale(n, d0 + (d1 - d0) * t));
      { ScaleSplit(n, d0, d1, t); }
      Sub(Add(a0, Scale(e, t)), Add(Scale(n, d0), Scale(f, t)));
      { Regroup(a0, Scale(e, t), Scale(n, d0), Scale(f, t)); }
      Add(Sub(a0, Scale(n, d0)), Sub(Scale(e, t), Scale(f, t)));
      { ScaleSubDistributes(e, f, t); }
      Add(Sub(a0, Scale(n, d0)), Scale(Sub(e, f), t));
      { assert Sub(e, f) == Sub(Sub(a1, Scale(n, d1)), Sub(a0, Scale(n, d0))); }
      Add(Sub(a0, Scale(n, d0)), Scale(Sub(Sub(a1, Scale(n, d1)), Sub(a0, Scale(n, d0))), t));
    }
  }

  /** n scaled by an interpolated factor is the interpolation of the two scaled vectors. */
  lemma ScaleSplit(n: Vector3, d0: real, d1: real, t: real)
    ensures Scale(n, d0 + (d1 - d0) * t) == Add(Scale(n, d0), Scale(Sub(Scale(n, d1), Scale(n, d0)), t))
  {
    SplitComponent(n.x, d0, d1, t);
    SplitComponent(n.y, d0, d1, t);
    SplitComponent(n.z, d0, d1, t);
  }

  /** One component of ScaleSplit. */
  lemma SplitComponent(m: real, d0: real, d1: real, t: real)
    ensures m * (d0 + (d1 - d0) * t) == m * d0 + (m * d1 - m * d0) * t
  {
  }

  /** Scaling distributes over a difference. */
  lemma ScaleSubDistributes(e: Vector3, f: Vector3, t: real)
    ensures Sub(Scale(e, t), Scale(f, t)) == Scale(Sub(e, f), t)
  {
    assert (e.x - f.x) * t == e.x * t - f.x * t;
    assert (e.y - f.y) * t == e.y * t - f.y * t;
    assert (e.z - f.z) * t == e.z * t - f.z * t;
  }

  /** (a + b) - (c + d) == (a - c) + (b - d). */
  lemma Regroup(a: Vector3, b: Vector3, c: Vector3, d: Vector3)
    ensures Sub(Add(a, b), Add(c, d)) == Add(Sub(a, c), Sub(b, d))
  {
  }

  /** The height above a plane is affine along a segment. */
  lemma HeightAlongSegment(n: Vector3, planePoint: Vector3, a0: Vector3, a1: Vector3, t: real)
    ensures Dot(Sub(Add(a0, Scale(Sub(a1, a0), t)), planePoint), n)
            == Dot(Sub(a0, planePoint), n) + (Dot(Sub(a1, planePoint), n) - Dot(Sub(a0, planePoint), n)) * t
  {
    HeightComponent(a0.x, a1.x, planePoint.x, n.x, t);
    HeightComponent(a0.y, a1.y, planePoint.y, n.y, t);
    HeightComponent(a0.z, a1.z, planePoint.z, n.z, t);
  }

  /** One component of HeightAlongSegment. */
  lemma HeightComponent(u0: real, u1: real, q: real, m: real, t: real)
    ensures ((u0 + (u1 - u0) * t) - q) * m == (u0 - q) * m + ((u1 - q) * m - (u0 - q) * m) * t
  {
  }

  /**
   * projectionToPlane (Vector3.cpp:38-45): the same for a direction of any
   * length longer than EPS; `point` itself otherwise.
   */
  function ProjectionToPlane(dir: Vector3, planePoint: Vector3, point: Vector3): (r: Vector3)
    ensures LengthSquared(dir) <= EPS ==> r == point
    ensures LengthSquared(dir) > EPS ==> Dot(Sub(r, planePoint), dir) == 0.0
  {
    var lsq := LengthSquared(dir);
    if lsq > EPS then
      var k := Dot(Sub(point, planePoint), dir) / lsq;
      var r := Sub(point, Scale(dir, k));
      ResidualOrthogonal(Sub(point, planePoint), dir, k);
      assert Sub(r, planePoint) == Sub(Sub(point, planePoint), Scale(dir, k));
      r
    else point
  }

  /** The out-parameters `result` and `t` of a successful intersection. */
  datatype RayHit = RayHit(point: Vector3, t: real)

  /**
   * collisionPlaneRay with a plane given as (normal, D) (Vector3.cpp:74-83).
   * It fails exactly when the ray is parallel to the plane within EPS; on
   * success the point is rayPoint + rayDir*t and satisfies the plane equation.
   */
  function CollisionPlaneRay(normal: Vector3, planeD: real, rayPoint: Vector3, rayDir: Vector3): (r: Option<RayHit>)
    ensures r.None? <==> Abs(Dot(rayDir, normal)) < EPS
    ensures r.Some? ==> r.value.point == Add(rayPoint, Scale(rayDir, r.value.t))
    ensures r.Some? ==> Dot(r.value.point, normal) + planeD == 0.0
  {
    var d := Dot(rayDir, normal);
    if Abs(d) < EPS then None
    else
      var t := -((Dot(rayPoint, normal) + planeD) / d);
      var p := Add(rayPoint, Scale(rayDir, t));
      DotAlongRay(rayPoint, rayDir, t, normal);
      Some(RayHit(p, t))
  }

  lemma DotAlongRay(p: Vector3, dir: Vector3, t: real, n: Vector3)
    ensures Dot(Add(p, Scale(dir, t)), n) == Dot(p, n) + t * Dot(dir, n)
  {
  }

  /** collisionPlaneRay with a plane through `planePoint` (Vector3.cpp:85-95). */
  function CollisionPlaneRayAt(normal: Vector3, planePoint: Vector3, rayPoint: Vector3, rayDir: Vector3): (r: Option<RayHit>)
    ensures r.None? <==> Abs(Dot(rayDir, normal)) < EPS
    ensures r.Some? ==> r.value.point == Add(rayPoint, Scale(rayDir, r.value.t))
    ensures r.Some? ==> Dot(Sub(r.value.point, planePoint), normal) == 0.0
  {
    var d := Dot(rayDir, normal);
    if Abs(d) < EPS then None
    else
      var t := -(Dot(Sub(rayPoint, planePoint), normal) / d);
      var p := Add(rayPoint, Scale(rayDir, t));
      DotAlongRay(Sub(rayPoint, planePoint), rayDir, t, normal);
      assert Sub(p, planePoint) == Add(Sub(rayPoint, planePoint), Scale(rayDir, t));
      Some(RayHit(p, t))
  }

  /** The out-parameters of a successful collisionLinesOnPlane. */
  datatype SegmentHit = SegmentHit(point: Vector3, tA: real, tB: real)

  /**
   * collisionLinesOnPlane (Vector3.cpp:97-137): intersection of segment A
   * with the line of segment B inside a plane.  Segment A must be longer than
   * EPS; the line through B is turned into a plane through B containing the
   * plane normal; tB is read from the first axis on which B's direction
   * exceeds EPS.  Success needs both parameters inside [0, 1].
   */
  function CollisionLinesOnPlane(a1: Vector3, a2: Vector3, b1: Vector3, b2: Vector3, planeNormal: Vector3): (r: Option<SegmentHit>)
    ensures LengthSquared(Sub(a2, a1)) <= EPS ==> r.None?
    ensures r.Some? ==> 0.0 <= r.value.tA <= 1.0 && 0.0 <= r.value.tB <= 1.0
    ensures r.Some? ==> r.value.point == Add(a1, Scale(Sub(a2, a1), r.value.tA))
  {
    var dirA := Sub(a2, a1);
    var lsq := LengthSquared(dirA);
    if lsq <= EPS then None
    else
      var t1 := Dot(Sub(b1, a1), dirA) / lsq;
      var t2 := Dot(Sub(b2, a1), dirA) / lsq;
      if !(0.0 <= t1 <= 1.0) && !(0.0 <= t2 <= 1.0) then None
      else
        var dirB := Sub(b2, b1);
        var dir := Cross(dirB, planeNormal);
        match CollisionPlaneRay(dir, -Dot(b1, dir), a1, dirA)
        case None => None
        case Some(hit) =>
          if !(0.0 <= hit.t <= 1.0) then None
          else
            var tB :=
              if Abs(dirB.x) > EPS then Some((hit.point.x - b1.x) / dirB.x)
              else if Abs(dirB.y) > EPS then Some((hit.point.y - b1.y) / dirB.y)
              else if Abs(dirB.z) > EPS then Some((hit.point.z - b1.z) / dirB.z)
              else None;
            if tB.Some? && 0.0 <= tB.value <= 1.0 then Some(SegmentHit(hit.point, hit.t, tB.value))
            else None
  }

  /** The pair written by createNormal12. */
  datatype Basis = Basis(normalX: Vector3, normalY: Vector3)

  /**
   * createNormal12 (Vector3.cpp:178-185): two vectors orthogonal to `normal`
   * and to each other, seeded with (1,0,2), or (2,0,-1) when the normal is
   * within EPS of (1,0,2).
   */
  function CreateNormal12(normal: Vector3): (r: Basis)
    ensures Dot(r.normalX, normal) == 0.0 && Dot(r.normalY, normal) == 0.0
    ensures Dot(r.normalX, r.normalY) == 0.0
    ensures r.normalY == Cross(normal, if Equal(Vector3(1.0, 0.0, 2.0), normal)
                                       then Vector3(2.0, 0.0, -1.0) else Vector3(1.0, 0.0, 2.0))
  {
    var seed := if Equal(Vector3(1.0, 0.0, 2.0), normal) then Vector3(2.0, 0.0, -1.0) else Vector3(1.0, 0.0, 2.0);
    var ny := Cross(normal, seed);
    var nx := Cross(normal, ny);
    CrossOrthogonal(normal, seed);
    CrossOrthogonal(normal, ny);
    DotSymmetric(nx, normal);
    DotSymmetric(ny, normal);
    DotSymmetric(nx, ny);
    Basis(nx, ny)
  }

  /** Scaling the second argument of a dot product scales the product. */
  lemma ScaledDot(x: Vector3, v: Vector3, l: real)
    ensures Dot(x, Scale(v, l)) == l * Dot(x, v)
  {
  }

  /** A product with a non-zero factor is zero only when the other factor is. */
  lemma NonZeroFactor(l: real, d: real)
    requires l != 0.0 && l * d == 0.0
    ensures d == 0.0
  {
  }

  /** Dividing a vector orthogonal to `n` by its length keeps it orthogonal. */
  lemma NormalizedOrthogonal(a: Vector3, n: Vector3, l: real)
    requires Dot(n, a) == 0.0
    ensures Dot(n, Normalize(a, l).v) == 0.0
  {
    if Abs(l) >= EPS {
      var v := Normalize(a, l).v;
      ScaledDot(n, v, l);
      NonZeroFactor(l, Dot(n, v));
    }
  }
}
