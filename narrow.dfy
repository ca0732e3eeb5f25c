/**
 * The narrow phase (CollisionDetected.h/.cpp) and the dispatch of the world
 * step that feeds it (PhysicsWorld.cpp:226-292).
 *
 * The routines are modelled on values: each takes what it reads of the two
 * shapes (centres, ends, radii, vertex buffers, polygons) and returns what it
 * would hand to the contact container: the order of the two bodies in the
 * manifold, the manifold's normal and the contact point.  The results of GJK
 * and EPA, and the square roots the source takes, are parameters: GJK and
 * EPA are modelled on their own (gjk.dfy, epa.dfy), and a square root `l`
 * of a squared length is tied to it by IsLength.
 */
module Narrow {
  import opened Settings
  import opened Vector3Math
  import opened Bodies

  // ---------------------------------------------------------------------------
  // Dispatch
  // ---------------------------------------------------------------------------

  /** The collision routines of CollisionDetected, named by the kinds of their two parameters (CollisionDetected.h:20-35). */
  datatype Routine = SphereSphere | CapsuleSphere | CapsuleCapsule | HullSphere | HullCapsule | HullHull

  /** What the world does with a pair of shapes: nothing, or one routine, given the shapes reversed when `swapped`. */
  datatype Call = Skip | Run(routine: Routine, swapped: bool)

  /** The kinds of the two parameters of each routine, as declared. */
  function Params(r: Routine): (ShapeKind, ShapeKind)
  {
    match r
    case SphereSphere => (SphereShape, SphereShape)
    case CapsuleSphere => (CapsuleShape, SphereShape)
    case CapsuleCapsule => (CapsuleShape, CapsuleShape)
    case HullSphere => (HullShape, SphereShape)
    case HullCapsule => (HullShape, CapsuleShape)
    case HullHull => (HullShape, HullShape)
  }

  /**
   * _updateCollision(shapeA, shapeB) (PhysicsWorld.cpp:226-292): a switch on
   * the first shape's kind, then on the second's.  The overloads taking
   * (sphere, capsule), (sphere, hull) and (capsule, hull) only call the
   * routine with the shapes reversed (CollisionDetected.cpp:81-84, 320-323,
   * 661-664); an undefined kind falls to `default` and nothing happens.
   */
  function Dispatch(a: ShapeKind, b: ShapeKind): (c: Call)
    ensures c.Skip? <==> a == Undefined || b == Undefined
  {
    match a
    case SphereShape =>
      (match b
       case SphereShape => Run(SphereSphere, false)
       case CapsuleShape => Run(CapsuleSphere, true)
       case HullShape => Run(HullSphere, true)
       case Undefined => Skip)
    case CapsuleShape =>
      (match b
       case SphereShape => Run(CapsuleSphere, false)
       case CapsuleShape => Run(CapsuleCapsule, false)
       case HullShape => Run(HullCapsule, true)
       case Undefined => Skip)
    case HullShape =>
      (match b
       case SphereShape => Run(HullSphere, false)
       case CapsuleShape => Run(HullCapsule, false)
       case HullShape => Run(HullHull, false)
       case Undefined => Skip)
    case Undefined => Skip
  }

  /** Every pair of defined kinds reaches the routine whose parameters have exactly those kinds, in the order it declares. */
  lemma DispatchTyped(a: ShapeKind, b: ShapeKind)
    requires a != Undefined && b != Undefined
    ensures Dispatch(a, b).Run?
    ensures Params(Dispatch(a, b).routine) == if Dispatch(a, b).swapped then (b, a) else (a, b)
  {
  }

  /** The dispatch does not depend on which shape comes first: both orders reach the same routine, reversed exactly once between them. */
  lemma DispatchSymmetric(a: ShapeKind, b: ShapeKind)
    ensures Dispatch(a, b).Skip? == Dispatch(b, a).Skip?
    ensures Dispatch(a, b).Run? ==> Dispatch(a, b).routine == Dispatch(b, a).routine
    ensures Dispatch(a, b).Run? && a != b ==> Dispatch(a, b).swapped != Dispatch(b, a).swapped
    ensures Dispatch(a, b).Run? && a == b ==> !Dispatch(a, b).swapped
  {
  }

  // ---------------------------------------------------------------------------
  // What a routine reports
  // ---------------------------------------------------------------------------

  /** The part of ContactTypes::ContactPoint the narrow phase fills in. */
  datatype Touch = Touch(pointOnBodyA: Vector3, pointOnBodyB: Vector3, depth: real)

  /**
   * One contact found by a routine: the manifold takes the bodies of the
   * routine's two shapes in parameter order, or in the opposite order when
   * `reversed`, with `normal`, and receives `touch`.
   */
  datatype Detection = Detection(reversed: bool, normal: Vector3, touch: Touch)

  /** A unit direction and a penetration depth. */
  datatype Gap = Gap(normal: Vector3, depth: real)

  /** A non-negative root of a square is at most a non-negative bound of the square. */
  lemma RootBelow(l: real, r: real)
    requires l >= 0.0 && r >= 0.0 && l * l <= r * r
    ensures l <= r
  {
    if l > r {
      PositiveProduct(l - r, l + r);
    }
  }

  lemma SquareNonNegative(a: real)
    ensures a * a >= 0.0
  {
    if a < 0.0 {
      PositiveProduct(-a, -a);
    } else if a > 0.0 {
      PositiveProduct(a, a);
    }
  }

  lemma PositiveProduct(a: real, b: real)
    requires a > 0.0 && b > 0.0
    ensures a * b > 0.0
  {
  }

  /**
   * The common gate after GJK reports the shapes apart with closest vector
   * `v` (CollisionDetected.cpp:93-101, 286-294, 389-397): no contact when
   * the gap is longer than the radius `r` (compared squared) or not longer
   * than EPS; otherwise the unit direction of `v` and the depth `r` minus
   * the gap.
   */
  function SeparatedGap(v: Vector3, r: real, l: real): (g: Option<Gap>)
    requires IsLength(v, l)
    ensures g.Some? <==> LengthSquared(v) <= r * r && l > EPS
  {
    if LengthSquared(v) > r * r then None
    else if l <= EPS then None
    else Some(Gap(Div(v, l), r - l))
  }

  /** A gap that passes has a unit normal along the closest vector and a depth in [0, r). */
  lemma SeparatedGapFacts(v: Vector3, r: real, l: real)
    requires IsLength(v, l) && r >= 0.0 && SeparatedGap(v, r, l).Some?
    ensures var g := SeparatedGap(v, r, l).value;
      LengthSquared(g.normal) == 1.0 && Scale(g.normal, l) == v && 0.0 <= g.depth < r
  {
    UnitAfterDivision(v, l);
    RootBelow(l, r);
  }

  // ---------------------------------------------------------------------------
  // Sphere against sphere
  // ---------------------------------------------------------------------------

  /**
   * collision(sphere, sphere) (CollisionDetected.cpp:15-33), `l` being the
   * distance of the centres: a contact when the squared distance is at most
   * the squared radius sum and not below EPS.  The manifold takes sphere B
   * first, with the unit normal from A to B; the points are the two
   * surface points along it and the depth is the overlap.
   */
  function SphereSphereContact(cA: Vector3, rA: real, cB: Vector3, rB: real, l: real): (r: Option<Detection>)
    requires IsLength(Sub(cB, cA), l)
    ensures r.Some? <==> EPS <= LengthSquared(Sub(cB, cA)) <= (rA + rB) * (rA + rB)
    ensures r.Some? ==> r.value.reversed
  {
    var d := Sub(cB, cA);
    var rSum := rA + rB;
    if LengthSquared(d) > rSum * rSum then None
    else if LengthSquared(d) < EPS then None
    else
      var n := Div(d, l);
      Some(Detection(true, n, Touch(Add(cA, Scale(n, rA)), Sub(cB, Scale(n, rB)), rSum - l)))
  }

  /**
   * A sphere–sphere contact has a unit normal from A's centre to B's, a
   * depth in [0, rA + rB), each point on its own sphere's surface, and the
   * two points `depth` apart along the normal.
   */
  lemma SphereSphereFacts(cA: Vector3, rA: real, cB: Vector3, rB: real, l: real)
    requires IsLength(Sub(cB, cA), l) && rA >= 0.0 && rB >= 0.0
    requires SphereSphereContact(cA, rA, cB, rB, l).Some?
    ensures var c := SphereSphereContact(cA, rA, cB, rB, l).value;
      LengthSquared(c.normal) == 1.0 && Scale(c.normal, l) == Sub(cB, cA)
      && 0.0 <= c.touch.depth < rA + rB
      && LengthSquared(Sub(c.touch.pointOnBodyA, cA)) == rA * rA
      && LengthSquared(Sub(c.touch.pointOnBodyB, cB)) == rB * rB
      && Sub(c.touch.pointOnBodyA, c.touch.pointOnBodyB) == Scale(c.normal, c.touch.depth)
  {
    var d := Sub(cB, cA);
    var n := Div(d, l);
    UnitAfterDivision(d, l);
    RootBelow(l, rA + rB);
    ScaledUnit(n, rA);
    ScaledUnit(n, rB);
    var c := SphereSphereContact(cA, rA, cB, rB, l).value;
    assert Sub(c.touch.pointOnBodyA, cA) == Scale(n, rA);
    assert Sub(c.touch.pointOnBodyB, cB) == Neg(Scale(n, rB));
  }

  /** A unit vector scaled by `k` has squared length k². */
  lemma ScaledUnit(n: Vector3, k: real)
    requires LengthSquared(n) == 1.0
    ensures LengthSquared(Scale(n, k)) == k * k && LengthSquared(Neg(Scale(n, k))) == k * k
  {
    assert LengthSquared(Scale(n, k)) == (k * k) * LengthSquared(n);
  }

  // ---------------------------------------------------------------------------
  // Capsule against sphere
  // ---------------------------------------------------------------------------

  /**
   * The parameter along the capsule's axis of the point the sphere is
   * measured from (CollisionDetected.cpp:41-65): the projection of the
   * sphere's centre when it falls on the axis segment, else the nearer end.
   */
  function AxisParameter(proj: real, length: real): real
  {
    if 0.0 <= proj <= length then proj else if proj <= 0.0 then 0.0 else length
  }

  /** That point, as the source takes it: on the axis, or the end vertex nS (CollisionDetected.cpp:46, 61-66). */
  function AxisPoint(e0: Vector3, e1: Vector3, dir: Vector3, length: real, proj: real): Vector3
  {
    if 0.0 <= proj <= length then Add(e0, Scale(dir, proj)) else if proj <= 0.0 then e0 else e1
  }

  /** The clamped parameter lies on the segment and no parameter of the segment is nearer the projection. */
  lemma AxisParameterClosest(proj: real, length: real, u: real)
    requires 0.0 <= length && 0.0 <= u <= length
    ensures 0.0 <= AxisParameter(proj, length) <= length
    ensures (AxisParameter(proj, length) - proj) * (AxisParameter(proj, length) - proj) <= (u - proj) * (u - proj)
  {
    var t := AxisParameter(proj, length);
    if proj < 0.0 {
      assert 0.0 <= t - proj <= u - proj;
      NonNegativeSquares(t - proj, u - proj);
    } else if proj > length {
      assert 0.0 <= proj - t <= proj - u;
      NonNegativeSquares(proj - t, proj - u);
    }
  }

  lemma NonNegativeSquares(a: real, b: real)
    requires 0.0 <= a <= b
    ensures a * a <= b * b
  {
    assert a * a <= a * b;
  }

  /** With a unit axis, the squared distance from the sphere's centre to the axis point at `u` is (u - proj)² plus a part that does not depend on `u`. */
  lemma AxisDistance(e0: Vector3, dir: Vector3, s: Vector3, u: real)
    requires LengthSquared(dir) == 1.0
    ensures var w := Sub(s, e0); var proj := Dot(w, dir);
      LengthSquared(Sub(Add(e0, Scale(dir, u)), s)) == (u - proj) * (u - proj) + LengthSquared(w) - proj * proj
  {
    var w := Sub(s, e0);
    var d := Sub(Add(e0, Scale(dir, u)), s);
    assert d == Sub(Scale(dir, u), w);
    assert LengthSquared(d) == u * u * LengthSquared(dir) - 2.0 * u * Dot(w, dir) + LengthSquared(w);
  }

  /**
   * When the capsule's end e1 is e0 + dir * length for a unit `dir`, the
   * point the routine measures from is the point of the axis segment
   * nearest the sphere's centre.
   */
  lemma AxisPointClosest(e0: Vector3, e1: Vector3, dir: Vector3, length: real, s: Vector3, u: real)
    requires LengthSquared(dir) == 1.0 && length >= 0.0 && e1 == Add(e0, Scale(dir, length)) && 0.0 <= u <= length
    ensures var proj := Dot(Sub(s, e0), dir);
      AxisPoint(e0, e1, dir, length, proj) == Add(e0, Scale(dir, AxisParameter(proj, length)))
      && LengthSquared(Sub(AxisPoint(e0, e1, dir, length, proj), s)) <= LengthSquared(Sub(Add(e0, Scale(dir, u)), s))
  {
    var proj := Dot(Sub(s, e0), dir);
    var t := AxisParameter(proj, length);
    if proj <= 0.0 && !(0.0 <= proj <= length) {
      assert Add(e0, Scale(dir, 0.0)) == e0;
    }
    AxisParameterClosest(proj, length, u);
    AxisDistance(e0, dir, s, t);
    AxisDistance(e0, dir, s, u);
  }

  /** What a routine that may divide by zero hands on: nothing, a contact, or a contact whose normal and depth are NaN. */
  datatype Outcome = Miss | Found(detection: Detection) | NotANumber

  /**
   * collision(capsule, sphere) as written (CollisionDetected.cpp:35-79), `l`
   * being the distance from the sphere's centre to the axis point: a
   * contact when that squared distance is at most the squared radius sum,
   * the manifold taking the capsule first with the unit normal from the
   * sphere's centre to the axis point.  Nothing guards the division by
   * `l`: when the centre lies on the axis segment (`l` is 0) it is a
   * division of zero by zero and the contact is NaN.
   */
  function CapsuleSphereAsWritten(e0: Vector3, e1: Vector3, dir: Vector3, length: real, rc: real,
                                  s: Vector3, rs: real, l: real): (r: Outcome)
    requires IsLength(Sub(AxisPoint(e0, e1, dir, length, Dot(Sub(s, e0), dir)), s), l)
    ensures var d := Sub(AxisPoint(e0, e1, dir, length, Dot(Sub(s, e0), dir)), s);
      (r.Miss? <==> LengthSquared(d) > (rs + rc) * (rs + rc)) && (r.NotANumber? <==> !r.Miss? && l == 0.0)
    ensures r.Found? ==> !r.detection.reversed
  {
    var q := AxisPoint(e0, e1, dir, length, Dot(Sub(s, e0), dir));
    var d := Sub(q, s);
    var rSum := rs + rc;
    if LengthSquared(d) > rSum * rSum then Miss
    else if l == 0.0 then NotANumber
    else
      var n := Div(d, l);
      Found(Detection(false, n, Touch(Sub(q, Scale(n, rc)), Add(s, Scale(n, rs)), rSum - l)))
  }

  /**
   * collision(capsule, sphere) with the guard sphere against sphere has
   * (CollisionDetected.cpp:20-21): a centre closer than EPS (squared) to
   * the axis point gives no contact.
   */
  function CapsuleSphereContact(e0: Vector3, e1: Vector3, dir: Vector3, length: real, rc: real,
                                s: Vector3, rs: real, l: real): (r: Outcome)
    requires IsLength(Sub(AxisPoint(e0, e1, dir, length, Dot(Sub(s, e0), dir)), s), l)
    ensures var d := Sub(AxisPoint(e0, e1, dir, length, Dot(Sub(s, e0), dir)), s);
      !r.NotANumber? && (r.Found? <==> EPS <= LengthSquared(d) <= (rs + rc) * (rs + rc))
    ensures r.Found? ==> !r.detection.reversed
  {
    var q := AxisPoint(e0, e1, dir, length, Dot(Sub(s, e0), dir));
    var d := Sub(q, s);
    var rSum := rs + rc;
    if LengthSquared(d) > rSum * rSum then Miss
    else if LengthSquared(d) < EPS then Miss
    else
      var n := Div(d, l);
      Found(Detection(false, n, Touch(Sub(q, Scale(n, rc)), Add(s, Scale(n, rs)), rSum - l)))
  }

  /**
   * A sphere centred on the capsule's axis segment, anywhere from e0 to e1:
   * the code as written divides zero by zero; the guarded routine reports
   * no contact.
   */
  lemma CapsuleSphereOnAxis(e0: Vector3, dir: Vector3, length: real, rc: real, t: real, rs: real, l: real)
    requires LengthSquared(dir) == 1.0 && 0.0 <= t <= length
    requires IsLength(Sub(AxisPoint(e0, Add(e0, Scale(dir, length)), dir, length,
                                    Dot(Sub(Add(e0, Scale(dir, t)), e0), dir)), Add(e0, Scale(dir, t))), l)
    ensures CapsuleSphereAsWritten(e0, Add(e0, Scale(dir, length)), dir, length, rc, Add(e0, Scale(dir, t)), rs, l).NotANumber?
    ensures CapsuleSphereContact(e0, Add(e0, Scale(dir, length)), dir, length, rc, Add(e0, Scale(dir, t)), rs, l).Miss?
  {
    var s := Add(e0, Scale(dir, t));
    var e1 := Add(e0, Scale(dir, length));
    assert Sub(s, e0) == Scale(dir, t);
    ScaledDot(dir, dir, t);
    DotSymmetric(dir, Scale(dir, t));
    assert Dot(Sub(s, e0), dir) == t;
    var d := Sub(AxisPoint(e0, e1, dir, length, Dot(Sub(s, e0), dir)), s);
    assert d == Zero;
    assert LengthSquared(d) == 0.0;
    SquareNonNegative(rs + rc);
    assert !(LengthSquared(d) > (rs + rc) * (rs + rc));
    assert IsLength(d, l);
    RootBelow(l, 0.0);
  }

  /**
   * A guarded capsule–sphere contact has a unit normal, a depth in
   * [0, rs + rc), its first point on the capsule's surface and its second on
   * the sphere's, `depth` apart against the normal.
   */
  lemma CapsuleSphereFacts(e0: Vector3, e1: Vector3, dir: Vector3, length: real, rc: real, s: Vector3, rs: real, l: real)
    requires IsLength(Sub(AxisPoint(e0, e1, dir, length, Dot(Sub(s, e0), dir)), s), l) && rc >= 0.0 && rs >= 0.0
    requires CapsuleSphereContact(e0, e1, dir, length, rc, s, rs, l).Found?
    ensures var q := AxisPoint(e0, e1, dir, length, Dot(Sub(s, e0), dir));
      var c := CapsuleSphereContact(e0, e1, dir, length, rc, s, rs, l).detection;
      LengthSquared(c.normal) == 1.0 && Scale(c.normal, l) == Sub(q, s)
      && 0.0 <= c.touch.depth < rs + rc
      && LengthSquared(Sub(c.touch.pointOnBodyA, q)) == rc * rc
      && LengthSquared(Sub(c.touch.pointOnBodyB, s)) == rs * rs
      && Sub(c.touch.pointOnBodyA, c.touch.pointOnBodyB) == Scale(c.normal, -c.touch.depth)
  {
    var q := AxisPoint(e0, e1, dir, length, Dot(Sub(s, e0), dir));
    var d := Sub(q, s);
    var n := Div(d, l);
    UnitAfterDivision(d, l);
    RootBelow(l, rs + rc);
    ScaledUnit(n, rc);
    ScaledUnit(n, rs);
    var c := CapsuleSphereContact(e0, e1, dir, length, rc, s, rs, l).detection;
    assert Sub(c.touch.pointOnBodyA, q) == Neg(Scale(n, rc));
    assert Sub(c.touch.pointOnBodyB, s) == Scale(n, rs);
  }

  // ---------------------------------------------------------------------------
  // Routines that start from GJK and EPA
  // ---------------------------------------------------------------------------

  /** What GJK and EPA tell a routine: apart, with GJK's closest vector, or overlapping, with EPA's normal and depth. */
  datatype Probe = Apart(closest: Vector3) | Overlap(normal: Vector3, minDepth: real)

  /**
   * The normal and depth capsule against capsule and hull against sphere
   * derive (CollisionDetected.cpp:93-106, 286-299): the separated gate
   * when GJK finds the shapes apart, else EPA's normal reversed and the
   * radius minus EPA's depth.
   */
  function ProbeGap(probe: Probe, r: real, l: real): (g: Option<Gap>)
    requires probe.Apart? ==> IsLength(probe.closest, l)
    ensures probe.Overlap? ==> g == Some(Gap(Neg(probe.normal), r - probe.minDepth))
    ensures probe.Apart? ==> (g.Some? <==> LengthSquared(probe.closest) <= r * r && l > EPS)
  {
    match probe
    case Apart(v) => SeparatedGap(v, r, l)
    case Overlap(n, d) => Some(Gap(Neg(n), r - d))
  }

  /**
   * The normal hull against capsule hands to its manifold
   * (CollisionDetected.cpp:389-401, 406): the gate divides by minus the gap, or
   * keeps EPA's normal, and the manifold is given the opposite.
   */
  function HullCapsuleGap(probe: Probe, r: real, l: real): (g: Option<Gap>)
    requires probe.Apart? ==> IsLength(probe.closest, l)
    ensures g.Some? <==> probe.Overlap? || (LengthSquared(probe.closest) <= r * r && l > EPS)
  {
    match probe
    case Apart(v) =>
      if LengthSquared(v) > r * r then None
      else if l <= EPS then None
      else
        var normal := Div(v, -l);
        Some(Gap(Neg(normal), r - l))
    case Overlap(n, d) => Some(Gap(Neg(n), r - d))
  }

  /** The two negations cancel: hull against capsule gates and orients exactly as hull against sphere does. */
  lemma HullCapsuleGapAgrees(probe: Probe, r: real, l: real)
    requires probe.Apart? ==> IsLength(probe.closest, l)
    ensures HullCapsuleGap(probe, r, l) == ProbeGap(probe, r, l)
  {
    if probe.Apart? && HullCapsuleGap(probe, r, l).Some? {
      var v := probe.closest;
      assert Neg(Div(v, -l)) == Div(v, l);
    }
  }

  /**
   * The end of collision(hull, sphere) (CollisionDetected.cpp:300-317): a
   * dynamic hull's body goes first with the normal, the contact's second
   * point on the sphere's surface; a hull that is not dynamic goes second
   * and the normal is reversed, the first point on the sphere's surface.
   */
  function Oriented(g: Gap, hullDynamic: bool, s: Vector3, r: real): (d: Detection)
    ensures d.reversed == !hullDynamic
  {
    if hullDynamic then
      var pB := Add(s, Scale(g.normal, r));
      Detection(false, g.normal, Touch(Sub(pB, Scale(g.normal, g.depth)), pB, g.depth))
    else
      var pA := Add(s, Scale(g.normal, r));
      Detection(true, Neg(g.normal), Touch(pA, Sub(pA, Scale(g.normal, g.depth)), g.depth))
  }

  /** collision(hull, sphere) (CollisionDetected.cpp:280-318). */
  function HullSphereContact(probe: Probe, l: real, hullDynamic: bool, s: Vector3, r: real): (d: Option<Detection>)
    requires probe.Apart? ==> IsLength(probe.closest, l)
    ensures d.Some? <==> ProbeGap(probe, r, l).Some?
  {
    match ProbeGap(probe, r, l)
    case None => None
    case Some(g) => Some(Oriented(g, hullDynamic, s, r))
  }

  /**
   * Whichever body goes first, the point on the sphere's body is the one
   * along the gap's normal at the sphere's radius, the manifold's normal is
   * the gap's normal turned to point from its first body's side, and the
   * first point lies `depth` behind the second along that normal.
   */
  lemma HullSphereOrientation(probe: Probe, l: real, hullDynamic: bool, s: Vector3, r: real)
    requires probe.Apart? ==> IsLength(probe.closest, l)
    requires HullSphereContact(probe, l, hullDynamic, s, r).Some?
    ensures var g := ProbeGap(probe, r, l).value; var d := HullSphereContact(probe, l, hullDynamic, s, r).value;
      d.reversed == !hullDynamic
      && (if hullDynamic then d.touch.pointOnBodyB else d.touch.pointOnBodyA) == Add(s, Scale(g.normal, r))
      && d.normal == (if hullDynamic then g.normal else Neg(g.normal))
      && Sub(d.touch.pointOnBodyA, d.touch.pointOnBodyB) == Scale(d.normal, -d.touch.depth)
      && d.touch.depth == g.depth
  {
  }

  /**
   * collision(hull, hull) (CollisionDetected.cpp:808-817): contacts are
   * generated only when GJK finds the hulls overlapping, and the manifold
   * of generateContactManifold takes EPA's normal reversed
   * (CollisionDetected.cpp:766).
   */
  function HullHullNormal(probe: Probe): (n: Option<Vector3>)
    ensures n.Some? <==> probe.Overlap?
    ensures n.Some? ==> Add(n.value, probe.normal) == Zero
  {
    match probe
    case Apart(_) => None
    case Overlap(m, _) => Some(Neg(m))
  }

  // ---------------------------------------------------------------------------
  // Polygons of a hull
  // ---------------------------------------------------------------------------

  /** Every corner of `p` indexes `buffer`. */
  predicate Indexes(p: Polygon, buffer: seq<Vector3>)
  {
    forall k :: 0 <= k < |p.vertices| ==> 0 <= p.vertices[k] < |buffer|
  }

  /**
   * The side test of vertexInPolygon for edge `j`, from corner j to the
   * next (the last edge closing back to corner 0): the offset of `v` from
   * the edge's start against the edge crossed with the polygon's normal.
   */
  function EdgeSide(v: Vector3, buffer: seq<Vector3>, p: Polygon, j: int): real
    requires Indexes(p, buffer) && 0 <= j < |p.vertices|
  {
    var a := buffer[p.vertices[j]];
    var b := buffer[p.vertices[(j + 1) % |p.vertices|]];
    Dot(Sub(v, a), Cross(Sub(b, a), p.normal))
  }

  /** `v` is at least EPS on the inner side of every edge of `p`. */
  predicate Inside(v: Vector3, buffer: seq<Vector3>, p: Polygon)
    requires Indexes(p, buffer)
  {
    forall j :: 0 <= j < |p.vertices| ==> EdgeSide(v, buffer, p, j) <= -EPS
  }

  /**
   * vertexInPolygon (CollisionDetected.cpp:326-341): the edges in order, the
   * closing edge last, false at the first edge `v` is not EPS inside of.
   */
  method VertexInPolygon(v: Vector3, buffer: seq<Vector3>, p: Polygon) returns (inside: bool)
    requires |p.vertices| >= 1 && Indexes(p, buffer)
    ensures inside <==> Inside(v, buffer, p)
  {
    var n := |p.vertices|;
    var j := 0;
    while j < n - 1
      invariant 0 <= j <= n - 1
      invariant forall i :: 0 <= i < j ==> EdgeSide(v, buffer, p, i) <= -EPS
    {
      var dis := EdgeSide(v, buffer, p, j);
      if dis > -EPS {
        return false;
      }
      j := j + 1;
    }
    var dis := EdgeSide(v, buffer, p, j);
    if dis > -EPS {
      return false;
    }
    return true;
  }

  /** No corner of a polygon is inside it: its own edge's test gives 0. */
  lemma CornerNotInside(buffer: seq<Vector3>, p: Polygon, k: int)
    requires Indexes(p, buffer) && 0 <= k < |p.vertices|
    ensures !Inside(buffer[p.vertices[k]], buffer, p)
  {
    var a := buffer[p.vertices[k]];
    assert Sub(a, a) == Zero;
    assert EdgeSide(a, buffer, p, k) == 0.0;
  }

  /** The first index of a largest entry. */
  predicate IsFirstMax(s: seq<real>, i: int)
  {
    0 <= i < |s| && (forall k :: 0 <= k < |s| ==> s[k] <= s[i]) && (forall k :: 0 <= k < i ==> s[k] < s[i])
  }

  /** A sequence has at most one first largest entry. */
  lemma FirstMaxUnique(s: seq<real>, i: int, j: int)
    requires IsFirstMax(s, i) && IsFirstMax(s, j)
    ensures i == j
  {
    assert s[i] <= s[j] && s[j] <= s[i];
  }

  /** How far each polygon's normal goes along `dir`. */
  function NormalScores(dir: Vector3, polygons: seq<Polygon>): (s: seq<real>)
    ensures |s| == |polygons| && forall k :: 0 <= k < |s| ==> s[k] == Dot(dir, polygons[k].normal)
  {
    seq(|polygons|, k requires 0 <= k < |polygons| => Dot(dir, polygons[k].normal))
  }

  /**
   * The reference polygon of a hull (CollisionDetected.cpp:408-418 for hull
   * against capsule, 742-763 for each hull of a pair): polygon 0, replaced
   * by each later polygon whose normal goes strictly further along `dir`,
   * so the first polygon facing `dir` most.
   */
  method ReferencePolygon(dir: Vector3, polygons: seq<Polygon>) returns (i: int)
    requires |polygons| >= 1
    ensures IsFirstMax(NormalScores(dir, polygons), i)
  {
    ghost var s := NormalScores(dir, polygons);
    i := 0;
    var maxA := Dot(dir, polygons[0].normal);
    var k := 1;
    while k < |polygons|
      invariant 1 <= k <= |polygons|
      invariant IsFirstMax(s[..k], i) && maxA == s[i]
    {
      var dis := Dot(dir, polygons[k].normal);
      if dis > maxA {
        maxA := dis;
        i := k;
      }
      k := k + 1;
    }
    assert s[..k] == s;
  }

  /** How far each corner of `p` goes along `dir`. */
  function VertexScores(dir: Vector3, buffer: seq<Vector3>, p: Polygon): (s: seq<real>)
    requires Indexes(p, buffer)
    ensures |s| == |p.vertices| && forall k :: 0 <= k < |s| ==> s[k] == Dot(dir, buffer[p.vertices[k]])
  {
    seq(|p.vertices|, k requires 0 <= k < |p.vertices| => Dot(dir, buffer[p.vertices[k]]))
  }

  /**
   * The support corner of a reference polygon (CollisionDetected.cpp:779-799):
   * the running maximum starts at PE_MINNUMBERf and only a strictly larger
   * score replaces it, so the result is the first corner furthest along
   * `dir`, or none (-1) when no score exceeds PE_MINNUMBERf and the source
   * leaves the point unset.
   */
  method SupportCorner(dir: Vector3, buffer: seq<Vector3>, p: Polygon) returns (found: int)
    requires Indexes(p, buffer)
    ensures found == -1 <==> forall k :: 0 <= k < |p.vertices| ==> VertexScores(dir, buffer, p)[k] <= MIN_NUMBER
    ensures found != -1 ==> IsFirstMax(VertexScores(dir, buffer, p), found)
  {
    ghost var s := VertexScores(dir, buffer, p);
    var max := MIN_NUMBER;
    found := -1;
    var i := 0;
    while i < |p.vertices|
      invariant 0 <= i <= |p.vertices|
      invariant found == -1 ==> max == MIN_NUMBER
      invariant found != -1 ==> 0 <= found < i && max == s[found] && max > MIN_NUMBER
      invariant forall k :: 0 <= k < i ==> s[k] <= max
      invariant forall k :: 0 <= k < found ==> s[k] < max
    {
      var dis := Dot(dir, buffer[p.vertices[i]]);
      assert dis == s[i];
      if dis > max {
        max := dis;
        found := i;
      }
      i := i + 1;
    }
  }

  /**
   * The two corners of the reference polygon furthest along the normal, in
   * hull against capsule when no face meets the capsule flat
   * (CollisionDetected.cpp:478-494): `first` is the first furthest corner;
   * `second` the furthest of the others, or -1 (the source leaves vP[1]
   * unset) when none of them scores above PE_MINNUMBERf.
   */
  method TopTwo(dir: Vector3, buffer: seq<Vector3>, p: Polygon) returns (first: int, second: int)
    requires |p.vertices| >= 1 && Indexes(p, buffer)
    ensures IsFirstMax(VertexScores(dir, buffer, p), first)
    ensures second == -1 ==> (forall k :: 0 <= k < |p.vertices| && k != first ==> VertexScores(dir, buffer, p)[k] <= MIN_NUMBER)
    ensures second != -1 ==> (0 <= second < |p.vertices| && second != first
      && forall k :: 0 <= k < |p.vertices| && k != first ==> VertexScores(dir, buffer, p)[k] <= VertexScores(dir, buffer, p)[second])
  {
    ghost var s := VertexScores(dir, buffer, p);
    first, second := 0, -1;
    var maxB := MIN_NUMBER;
    var maxA := Dot(dir, buffer[p.vertices[0]]);
    var i := 1;
    while i < |p.vertices|
      invariant 1 <= i <= |p.vertices| && 0 <= first < i && maxA == s[first]
      invariant forall k :: 0 <= k < i ==> s[k] <= maxA
      invariant forall k :: 0 <= k < first ==> s[k] < maxA
      invariant second == -1 ==> (maxB == MIN_NUMBER && forall k :: 0 <= k < i && k != first ==> s[k] <= MIN_NUMBER)
      invariant second != -1 ==> (0 <= second < i && second != first && maxB == s[second]
        && forall k :: 0 <= k < i && k != first ==> s[k] <= maxB)
    {
      var dis := Dot(dir, buffer[p.vertices[i]]);
      assert dis == s[i];
      if dis > maxA {
        maxB := maxA;
        second := first;
        maxA := dis;
        first := i;
      } else if dis > maxB {
        maxB := dis;
        second := i;
      }
      i := i + 1;
    }
  }

  // ---------------------------------------------------------------------------
  // Hull against capsule, face case: at most two contacts
  // ---------------------------------------------------------------------------

  /** The positions below `n` whose test hit, in order. */
  function Hits(hits: seq<bool>, n: nat): (r: seq<int>)
    requires n <= |hits|
  {
    if n == 0 then [] else Hits(hits, n - 1) + (if hits[n - 1] then [n - 1] else [])
  }

  /** Hits lists exactly the hit positions below `n`, increasing. */
  lemma {:induction false} HitsExactly(hits: seq<bool>, n: nat)
    requires n <= |hits|
    ensures forall k :: 0 <= k < n ==> (hits[k] <==> k in Hits(hits, n))
    ensures forall i :: 0 <= i < |Hits(hits, n)| ==> 0 <= Hits(hits, n)[i] < n
    ensures forall i, j :: 0 <= i < j < |Hits(hits, n)| ==> Hits(hits, n)[i] < Hits(hits, n)[j]
  {
    if n > 0 {
      HitsExactly(hits, n - 1);
    }
  }

  /** The first two hits, or all of them when there are fewer. */
  function FirstTwoHits(hits: seq<bool>): seq<int>
  {
    var all := Hits(hits, |hits|);
    if |all| <= 2 then all else all[..2]
  }

  /** The hits below `n` begin the hits below any larger bound. */
  lemma {:induction false} HitsPrefix(hits: seq<bool>, n: nat, m: nat)
    requires n <= m <= |hits|
    ensures Hits(hits, n) <= Hits(hits, m)
    decreases m - n
  {
    if n < m {
      HitsPrefix(hits, n, m - 1);
    }
  }

  /**
   * The face case of hull against capsule (CollisionDetected.cpp:419-477),
   * given which of its candidate contacts pass their tests: position 0 and
   * 1 are the capsule's two ends, tried both; then the polygon's edges in
   * order while fewer than two contacts are made, the closing edge last.
   * The contacts made are the first two candidates that pass.
   */
  method FaceContacts(hits: seq<bool>) returns (taken: seq<int>)
    requires |hits| >= 3
    ensures taken == FirstTwoHits(hits)
    ensures |taken| <= 2
  {
    taken := [];
    if hits[0] {
      taken := taken + [0];
    }
    if hits[1] {
      taken := taken + [1];
    }
    assert Hits(hits, 1) == (if hits[0] then [0] else []);
    assert taken == Hits(hits, 2);
    if |taken| < 2 {
      var i := 2;
      while i < |hits| - 1 && |taken| < 2
        invariant 2 <= i <= |hits| - 1
        invariant taken == Hits(hits, i) && |taken| <= 2
      {
        if hits[i] {
          taken := taken + [i];
        }
        i := i + 1;
      }
      if |taken| < 2 {
        if hits[|hits| - 1] {
          taken := taken + [|hits| - 1];
        }
        assert taken == Hits(hits, |hits|);
      } else {
        HitsPrefix(hits, i, |hits|);
      }
    } else {
      HitsPrefix(hits, 2, |hits|);
    }
  }

  // ---------------------------------------------------------------------------
  // Hull against capsule, edge case: the test of the capsule's far end
  // ---------------------------------------------------------------------------

  /**
   * The second contact of hull against capsule when the polygon's edge
   * lies across the normal (CollisionDetected.cpp:547-572), as written:
   * the squared distance between the two points is compared with the
   * radius itself (line 568), where the other three such tests (lines 548,
   * 615, 636) compare it with the squared radius.
   */
  function FarEndAsWritten(pointOnBodyA: Vector3, pointOnBodyB: Vector3, normal: Vector3, radius: real): (t: Option<Touch>)
    ensures t.Some? <==> LengthSquared(Sub(pointOnBodyB, pointOnBodyA)) <= radius
  {
    var temp := Sub(pointOnBodyB, pointOnBodyA);
    if LengthSquared(temp) <= radius then
      Some(Touch(pointOnBodyA, Sub(pointOnBodyB, Scale(normal, radius)), radius - Dot(temp, normal)))
    else None
  }

  /** The same test against the squared radius, as its three siblings make it. */
  function FarEnd(pointOnBodyA: Vector3, pointOnBodyB: Vector3, normal: Vector3, radius: real): (t: Option<Touch>)
    ensures t.Some? <==> LengthSquared(Sub(pointOnBodyB, pointOnBodyA)) <= radius * radius
  {
    var temp := Sub(pointOnBodyB, pointOnBodyA);
    if LengthSquared(temp) <= radius * radius then
      Some(Touch(pointOnBodyA, Sub(pointOnBodyB, Scale(normal, radius)), radius - Dot(temp, normal)))
    else None
  }

  /** The corrected test accepts the end exactly when it is within the capsule's radius of the hull's point. */
  lemma FarEndWithinRadius(pointOnBodyA: Vector3, pointOnBodyB: Vector3, normal: Vector3, radius: real, l: real)
    requires radius >= 0.0 && IsLength(Sub(pointOnBodyB, pointOnBodyA), l)
    ensures FarEnd(pointOnBodyA, pointOnBodyB, normal, radius).Some? <==> l <= radius
  {
    if l <= radius {
      NonNegativeSquares(l, radius);
    } else if l * l <= radius * radius {
      RootBelow(l, radius);
    }
  }

  /**
   * For a radius below 1 the test as written accepts an end further away
   * than the radius (radius 0.5, distance 0.6: 0.36 <= 0.5), which the
   * corrected test rejects.
   */
  lemma FarEndAsWrittenAcceptsFar(pointOnBodyA: Vector3, pointOnBodyB: Vector3, normal: Vector3, radius: real, l: real)
    requires IsLength(Sub(pointOnBodyB, pointOnBodyA), l) && 0.0 <= radius < l && l * l <= radius
    ensures FarEndAsWritten(pointOnBodyA, pointOnBodyB, normal, radius).Some?
    ensures FarEnd(pointOnBodyA, pointOnBodyB, normal, radius).None?
  {
    FarEndWithinRadius(pointOnBodyA, pointOnBodyB, normal, radius, l);
  }

  /**
   * For a radius above 1 the test as written rejects an end within the
   * radius (radius 2, distance 1.5: 2.25 > 2), which the corrected test
   * accepts.
   */
  lemma FarEndAsWrittenMissesNear(pointOnBodyA: Vector3, pointOnBodyB: Vector3, normal: Vector3, radius: real, l: real)
    requires IsLength(Sub(pointOnBodyB, pointOnBodyA), l) && l <= radius && radius < l * l
    ensures FarEndAsWritten(pointOnBodyA, pointOnBodyB, normal, radius).None?
    ensures FarEnd(pointOnBodyA, pointOnBodyB, normal, radius).Some?
  {
    FarEndWithinRadius(pointOnBodyA, pointOnBodyB, normal, radius, l);
  }

  // ---------------------------------------------------------------------------
  // Polygon against polygon: the corners inside the other face
  // ---------------------------------------------------------------------------

  /**
   * The contact a corner `v` behind the other face gives
   * (CollisionDetected.cpp:709-714): the corner, its projection on the
   * face's plane along the face's normal, and the distance to the plane
   * measured along the manifold's normal.
   */
  function CornerTouch(v: Vector3, pB: Vector3, normalB: Vector3, normal: Vector3): (t: Touch)
    ensures t.depth >= 0.0
  {
    var depth := Dot(Sub(v, pB), normalB);
    Touch(v, Sub(v, Scale(normalB, depth)), Abs(Dot(Scale(normalB, depth), normal)))
  }

  /** The first `n` corners of `a` behind or on the plane of `b` (through pB, normal normalB) and inside `b`, as contacts. */
  function Clipped(bufA: seq<Vector3>, a: Polygon, bufB: seq<Vector3>, b: Polygon, pB: Vector3, normalB: Vector3,
                   normal: Vector3, n: nat): seq<Touch>
    requires Indexes(a, bufA) && Indexes(b, bufB) && n <= |a.vertices|
  {
    if n == 0 then []
    else
      var v := bufA[a.vertices[n - 1]];
      Clipped(bufA, a, bufB, b, pB, normalB, normal, n - 1)
      + (if Dot(Sub(v, pB), normalB) <= 0.0 && Inside(v, bufB, b) then [CornerTouch(v, pB, normalB, normal)] else [])
  }

  /**
   * Every contact Clipped lists comes from a corner of `a` behind the plane
   * and inside `b`, and is projected onto the plane when normalB is a unit
   * vector; every such corner gives one.
   */
  lemma {:induction false} ClippedExactly(bufA: seq<Vector3>, a: Polygon, bufB: seq<Vector3>, b: Polygon, pB: Vector3,
                                          normalB: Vector3, normal: Vector3, n: nat)
    requires Indexes(a, bufA) && Indexes(b, bufB) && n <= |a.vertices|
    ensures forall t :: t in Clipped(bufA, a, bufB, b, pB, normalB, normal, n) ==>
      t.depth >= 0.0 && Dot(Sub(t.pointOnBodyA, pB), normalB) <= 0.0 && Inside(t.pointOnBodyA, bufB, b)
      && (LengthSquared(normalB) == 1.0 ==> Dot(Sub(t.pointOnBodyB, pB), normalB) == 0.0)
    ensures forall k :: 0 <= k < n && Dot(Sub(bufA[a.vertices[k]], pB), normalB) <= 0.0 && Inside(bufA[a.vertices[k]], bufB, b) ==>
      CornerTouch(bufA[a.vertices[k]], pB, normalB, normal) in Clipped(bufA, a, bufB, b, pB, normalB, normal, n)
  {
    if n > 0 {
      ClippedExactly(bufA, a, bufB, b, pB, normalB, normal, n - 1);
      var v := bufA[a.vertices[n - 1]];
      if LengthSquared(normalB) == 1.0 {
        OnPlane(v, pB, normalB);
      }
    }
  }

  /** Moving a point back along a unit normal by its height above a plane puts it on the plane. */
  lemma OnPlane(v: Vector3, pB: Vector3, normalB: Vector3)
    requires LengthSquared(normalB) == 1.0
    ensures Dot(Sub(Sub(v, Scale(normalB, Dot(Sub(v, pB), normalB))), pB), normalB) == 0.0
  {
    var d := Dot(Sub(v, pB), normalB);
    assert Sub(Sub(v, Scale(normalB, d)), pB) == Sub(Sub(v, pB), Scale(normalB, d));
    assert Dot(Sub(Sub(v, pB), Scale(normalB, d)), normalB) == d - d * LengthSquared(normalB);
  }

  /**
   * The loop over a polygon's corners in collisionPolygonToPolygon
   * (CollisionDetected.cpp:707-717): each corner behind the other face's
   * plane that vertexInPolygon finds inside that face gives a contact.
   */
  method ClipCorners(bufA: seq<Vector3>, a: Polygon, bufB: seq<Vector3>, b: Polygon, pB: Vector3, normalB: Vector3,
                     normal: Vector3) returns (touches: seq<Touch>)
    requires Indexes(a, bufA) && Indexes(b, bufB) && |b.vertices| >= 1
    ensures touches == Clipped(bufA, a, bufB, b, pB, normalB, normal, |a.vertices|)
  {
    touches := [];
    var i := 0;
    while i < |a.vertices|
      invariant 0 <= i <= |a.vertices|
      invariant touches == Clipped(bufA, a, bufB, b, pB, normalB, normal, i)
    {
      var v := bufA[a.vertices[i]];
      var depth := Dot(Sub(v, pB), normalB);
      if depth <= 0.0 {
        var inside := VertexInPolygon(v, bufB, b);
        if inside {
          touches := touches + [CornerTouch(v, pB, normalB, normal)];
        }
      }
      i := i + 1;
    }
  }

  // ---------------------------------------------------------------------------
  // Polygon against polygon: the edge crossings
  // ---------------------------------------------------------------------------

  /** The corner of `a` before corner i, the last corner before the first. */
  function PrevCorner(a: Polygon, i: int): int
    requires 0 <= i < |a.vertices|
  {
    if i == 0 then a.vertices[|a.vertices| - 1] else a.vertices[i - 1]
  }

  /** The corner of `b` after corner j, the first corner after the last. */
  function NextCorner(b: Polygon, j: int): int
    requires 0 <= j < |b.vertices|
  {
    if j + 1 < |b.vertices| then b.vertices[j + 1] else b.vertices[0]
  }

  /**
   * One edge a0-a1 of the incident face against one edge b0-b1 of the other
   * face, whose plane passes through pB with normal normalB
   * (CollisionDetected.cpp:685-691): both ends of the first edge are
   * projected onto that plane along the manifold's normal, and when
   * collisionLinesOnPlane finds a crossing at tA on the projected edge, the
   * point at tA on the edge itself is kept if it lies behind or on the
   * plane. The contact pairs that point with its projection, at the
   * distance to the plane measured along the manifold's normal.
   */
  function EdgeTouch(a0: Vector3, a1: Vector3, b0: Vector3, b1: Vector3, pB: Vector3, normalB: Vector3,
                     normal: Vector3): (r: Option<Touch>)
    ensures var hit := CollisionLinesOnPlane(ProjectionToPlaneN(normal, pB, a0), ProjectionToPlaneN(normal, pB, a1),
                                             b0, b1, normal);
            r.Some? <==> hit.Some? && Dot(Sub(Add(a0, Scale(Sub(a1, a0), hit.value.tA)), pB), normalB) <= 0.0
    ensures var hit := CollisionLinesOnPlane(ProjectionToPlaneN(normal, pB, a0), ProjectionToPlaneN(normal, pB, a1),
                                             b0, b1, normal);
            r.Some? ==> hit.Some? && r.value.pointOnBodyA == Add(a0, Scale(Sub(a1, a0), hit.value.tA))
                        && r.value.pointOnBodyB == ProjectionToPlaneN(normal, pB, r.value.pointOnBodyA)
                        && r.value.depth >= 0.0
  {
    var vp := ProjectionToPlaneN(normal, pB, a0);
    var vn := ProjectionToPlaneN(normal, pB, a1);
    match CollisionLinesOnPlane(vp, vn, b0, b1, normal)
    case None => None
    case Some(hit) =>
      var temp1 := Add(a0, Scale(Sub(a1, a0), hit.tA));
      var depth := Dot(Sub(temp1, pB), normalB);
      if depth <= 0.0 then
        ProjectionAlongSegment(normal, pB, a0, a1, hit.tA);
        Some(Touch(temp1, hit.point, Abs(Dot(Scale(normalB, depth), normal))))
      else None
  }

  /** Edge i of `a` (ending at corner i) against edge j of `b` (starting at corner j). */
  function Crossing(bufA: seq<Vector3>, a: Polygon, bufB: seq<Vector3>, b: Polygon, pB: Vector3, normalB: Vector3,
                    normal: Vector3, i: int, j: int): Option<Touch>
    requires Indexes(a, bufA) && Indexes(b, bufB) && 0 <= i < |a.vertices| && 0 <= j < |b.vertices|
  {
    EdgeTouch(bufA[PrevCorner(a, i)], bufA[a.vertices[i]], bufB[b.vertices[j]], bufB[NextCorner(b, j)],
              pB, normalB, normal)
  }

  /** The touches a sequence of optional ones holds, in order. */
  function Present(os: seq<Option<Touch>>): seq<Touch>
  {
    if |os| == 0 then []
    else Present(os[..|os| - 1]) + (if os[|os| - 1].Some? then [os[|os| - 1].value] else [])
  }

  /** Present lists exactly the touches the sequence holds. */
  lemma {:induction false} PresentExactly(os: seq<Option<Touch>>)
    ensures forall t :: t in Present(os) <==> exists j :: 0 <= j < |os| && os[j] == Some(t)
  {
    if |os| > 0 {
      var init := os[..|os| - 1];
      PresentExactly(init);
      assert forall j :: 0 <= j < |init| ==> init[j] == os[j];
    }
  }

  /** Edge i of `a` against every edge of `b`, in order. */
  function Row(bufA: seq<Vector3>, a: Polygon, bufB: seq<Vector3>, b: Polygon, pB: Vector3, normalB: Vector3,
               normal: Vector3, i: int): (r: seq<Option<Touch>>)
    requires Indexes(a, bufA) && Indexes(b, bufB) && 0 <= i < |a.vertices|
    ensures |r| == |b.vertices|
  {
    seq(|b.vertices|, j requires 0 <= j < |b.vertices| => Crossing(bufA, a, bufB, b, pB, normalB, normal, i, j))
  }

  /** The kept crossings of the first n edges of `a` with every edge of `b`, edge by edge. */
  function EdgeCrossings(bufA: seq<Vector3>, a: Polygon, bufB: seq<Vector3>, b: Polygon, pB: Vector3,
                         normalB: Vector3, normal: Vector3, n: nat): seq<Touch>
    requires Indexes(a, bufA) && Indexes(b, bufB) && n <= |a.vertices|
  {
    if n == 0 then []
    else
      EdgeCrossings(bufA, a, bufB, b, pB, normalB, normal, n - 1)
      + Present(Row(bufA, a, bufB, b, pB, normalB, normal, n - 1))
  }

  /**
   * The edge loop keeps exactly the crossings, of any edge of `a` with any
   * edge of `b`, whose point on `a` lies behind or on the plane of `b`.
   */
  lemma {:induction false} EdgeCrossingsExactly(bufA: seq<Vector3>, a: Polygon, bufB: seq<Vector3>, b: Polygon,
                                                pB: Vector3, normalB: Vector3, normal: Vector3, n: nat)
    requires Indexes(a, bufA) && Indexes(b, bufB) && n <= |a.vertices|
    ensures forall t :: t in EdgeCrossings(bufA, a, bufB, b, pB, normalB, normal, n) <==>
      exists i, j :: 0 <= i < n && 0 <= j < |b.vertices| && Row(bufA, a, bufB, b, pB, normalB, normal, i)[j] == Some(t)
  {
    if n > 0 {
      EdgeCrossingsExactly(bufA, a, bufB, b, pB, normalB, normal, n - 1);
      PresentExactly(Row(bufA, a, bufB, b, pB, normalB, normal, n - 1));
    }
  }

  /**
   * The edge loop of collisionPolygonToPolygon (CollisionDetected.cpp:
   * 677-706): each edge of `a`, from the previous corner (the last corner
   * for the first edge) to the current one, against each edge of `b`, the
   * closing edge from the last corner back to the first handled after the
   * inner loop.
   */
  method ClipEdges(bufA: seq<Vector3>, a: Polygon, bufB: seq<Vector3>, b: Polygon, pB: Vector3, normalB: Vector3,
                   normal: Vector3) returns (touches: seq<Touch>)
    requires Indexes(a, bufA) && Indexes(b, bufB) && |a.vertices| >= 1 && |b.vertices| >= 1
    ensures touches == EdgeCrossings(bufA, a, bufB, b, pB, normalB, normal, |a.vertices|)
  {
    touches := [];
    var v0 := a.vertices[|a.vertices| - 1];
    var i := 0;
    while i < |a.vertices|
      invariant 0 <= i <= |a.vertices| && 0 <= v0 < |bufA|
      invariant i < |a.vertices| ==> v0 == PrevCorner(a, i)
      invariant touches == EdgeCrossings(bufA, a, bufB, b, pB, normalB, normal, i)
    {
      var v1 := a.vertices[i];
      ghost var row := Row(bufA, a, bufB, b, pB, normalB, normal, i);
      var j := 0;
      while j < |b.vertices| - 1
        invariant 0 <= j <= |b.vertices| - 1
        invariant touches == EdgeCrossings(bufA, a, bufB, b, pB, normalB, normal, i) + Present(row[..j])
      {
        var t := EdgeTouch(bufA[v0], bufA[v1], bufB[b.vertices[j]], bufB[b.vertices[j + 1]], pB, normalB, normal);
        assert row[..j + 1][..j] == row[..j] && row[j] == t;
        if t.Some? {
          touches := touches + [t.value];
        }
        j := j + 1;
      }
      var t := EdgeTouch(bufA[v0], bufA[v1], bufB[b.vertices[j]], bufB[b.vertices[0]], pB, normalB, normal);
      assert row[..j + 1][..j] == row[..j] && row[j] == t && row[..j + 1] == row;
      if t.Some? {
        touches := touches + [t.value];
      }
      v0 := v1;
      i := i + 1;
    }
  }

  /**
   * Every contact collisionPolygonToPolygon buffers before
   * optimizeContactPoints (CollisionDetected.cpp:677-729): the edge
   * crossings, then A's corners inside B's face, then B's corners inside
   * A's face.
   */
  method PolygonToPolygon(bufA: seq<Vector3>, a: Polygon, pA: Vector3, normalA: Vector3,
                          bufB: seq<Vector3>, b: Polygon, pB: Vector3, normalB: Vector3, normal: Vector3)
    returns (touches: seq<Touch>)
    requires Indexes(a, bufA) && Indexes(b, bufB) && |a.vertices| >= 1 && |b.vertices| >= 1
    ensures touches == EdgeCrossings(bufA, a, bufB, b, pB, normalB, normal, |a.vertices|)
                       + Clipped(bufA, a, bufB, b, pB, normalB, normal, |a.vertices|)
                       + Exchanged(Clipped(bufB, b, bufA, a, pA, normalA, normal, |b.vertices|))
  {
    var crossings := ClipEdges(bufA, a, bufB, b, pB, normalB, normal);
    var corners := PolygonCorners(bufA, a, pA, normalA, bufB, b, pB, normalB, normal);
    touches := crossings + corners;
  }

  /** A contact with its two points exchanged. */
  function Exchanged(ts: seq<Touch>): (r: seq<Touch>)
    ensures |r| == |ts| && forall k :: 0 <= k < |r| ==>
      r[k].pointOnBodyA == ts[k].pointOnBodyB && r[k].pointOnBodyB == ts[k].pointOnBodyA && r[k].depth == ts[k].depth
  {
    seq(|ts|, k requires 0 <= k < |ts| => Touch(ts[k].pointOnBodyB, ts[k].pointOnBodyA, ts[k].depth))
  }

  /**
   * Both corner loops of collisionPolygonToPolygon (CollisionDetected.cpp:
   * 707-729): A's corners inside B's face, then B's corners inside A's
   * face with the projected point first, as addTempContactPoint receives
   * them.
   */
  method PolygonCorners(bufA: seq<Vector3>, a: Polygon, pA: Vector3, normalA: Vector3,
                        bufB: seq<Vector3>, b: Polygon, pB: Vector3, normalB: Vector3, normal: Vector3)
    returns (touches: seq<Touch>)
    requires Indexes(a, bufA) && Indexes(b, bufB) && |a.vertices| >= 1 && |b.vertices| >= 1
    ensures touches == Clipped(bufA, a, bufB, b, pB, normalB, normal, |a.vertices|)
                       + Exchanged(Clipped(bufB, b, bufA, a, pA, normalA, normal, |b.vertices|))
  {
    var fromA := ClipCorners(bufA, a, bufB, b, pB, normalB, normal);
    var fromB := ClipCorners(bufB, b, bufA, a, pA, normalA, normal);
    touches := fromA + Exchanged(fromB);
  }
}
