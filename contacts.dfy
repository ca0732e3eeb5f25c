/**
 * Contact records (ContactTypes.h) and the container that collects them
 * (ContactsContainer.cpp).  A manifold names its two bodies by their place
 * in the world's body list; its three fixed arrays of four slots are
 * sequences of length MAX_MANIFOLD_POINTS.
 */
module Contacts {
  import opened Settings
  import opened Vector3Math
  import opened Materials
  import opened Rotation
  import opened Bodies

  /** ContactPoint (ContactTypes.h:13-19). */
  datatype ContactPoint = ContactPoint(pointOnBodyA: Vector3, pointOnBodyB: Vector3, point: Vector3, depth: real)

  /** R_ContactPoint (ContactTypes.h:21-26): offset from the body's centre, r x normal, r x binormal. */
  datatype RPoint = RPoint(r: Vector3, rn: Vector3, rb: Vector3)

  /** InfoPointOnCM (ContactTypes.h:28-39). */
  datatype InfoPoint = InfoPoint(binormal: Vector3, depthA: real, depthB: real,
                                 impulse: real, impulseFriction: real, pseudoImpulse: real,
                                 kNormal: real, kBinormal: real, kPseudo: real)

  /** ContactManifold (ContactTypes.h:41-53). */
  datatype Manifold = Manifold(solved: bool, bodyA: int, bodyB: int, normal: Vector3,
                               info: seq<InfoPoint>, pointA: seq<RPoint>, pointB: seq<RPoint>,
                               notStatB: bool, e: real, mu: real, countPoints: int)

  /** The value-initialised records a resized vector holds. */
  const BlankPoint := ContactPoint(Zero, Zero, Zero, 0.0)
  const BlankR := RPoint(Zero, Zero, Zero)
  const BlankInfo := InfoPoint(Zero, 0.0, 0.0, 0.0, 0.0, 0.0, 0.0, 0.0, 0.0)

  /** Three arrays of four slots and a point count that fits them. */
  predicate WellFormed(m: Manifold)
  {
    |m.info| == MAX_MANIFOLD_POINTS && |m.pointA| == MAX_MANIFOLD_POINTS
    && |m.pointB| == MAX_MANIFOLD_POINTS && 0 <= m.countPoints <= MAX_MANIFOLD_POINTS
  }

  predicate AllWellFormed(ms: seq<Manifold>)
  {
    forall i :: 0 <= i < |ms| ==> WellFormed(ms[i])
  }

  /** Every manifold names two bodies of a list of `n`. */
  predicate BodiesBelow(ms: seq<Manifold>, n: int)
  {
    forall i :: 0 <= i < |ms| ==> 0 <= ms[i].bodyA < n && 0 <= ms[i].bodyB < n
  }

  /** The part of a body that adding a contact point reads. */
  datatype Motion = Motion(position: Vector3, velocity: Vector3, angularVelocity: Vector3)

  function MotionOf(b: Body): Motion
    reads b`position, b`velocity, b`angularVelocity
  {
    Motion(b.position, b.velocity, b.angularVelocity)
  }

  /** The manifold addContactManifold appends (ContactsContainer.cpp:26-37). */
  function Opened(bodyA: int, bodyB: int, normal: Vector3, material: Material, notStatB: bool): Manifold
  {
    Manifold(false, bodyA, bodyB, normal,
             seq(MAX_MANIFOLD_POINTS, _ => BlankInfo), seq(MAX_MANIFOLD_POINTS, _ => BlankR),
             seq(MAX_MANIFOLD_POINTS, _ => BlankR), notStatB, 1.0 + material.e, material.mu, 0)
  }

  /** getPointA (ContactTypes.h:55-58): the world point of slot `i` on body A. */
  function PointA(m: Manifold, i: int, positionA: Vector3): Vector3
    requires WellFormed(m) && 0 <= i < MAX_MANIFOLD_POINTS
  {
    Add(m.pointA[i].r, positionA)
  }

  /** getPointB (ContactTypes.h:60-63). */
  function PointB(m: Manifold, i: int, positionB: Vector3): Vector3
    requires WellFormed(m) && 0 <= i < MAX_MANIFOLD_POINTS
  {
    Add(m.pointB[i].r, positionB)
  }

  // ---------------------------------------------------------------------
  // Friction direction
  // ---------------------------------------------------------------------

  /** The velocity of the point at offset `r` of a body. */
  function Slip(a: Motion, r: Vector3): Vector3
  {
    Add(a.velocity, Cross(a.angularVelocity, r))
  }

  /** `w` less its component along `normal`. */
  function Tangential(w: Vector3, normal: Vector3): Vector3
  {
    Sub(w, Scale(normal, Dot(normal, w)))
  }

  /** The direction tried when the sliding velocity vanishes: x (odd slots) or z (even slots) crossed with the normal. */
  function Fallback(n: int, normal: Vector3): Vector3
  {
    if n % 2 == 1 then Cross(Vector3(1.0, 0.0, 0.0), normal) else Cross(Vector3(0.0, 0.0, 1.0), normal)
  }

  /** The binormal of computeBinormalOnCM_notStatB (ContactsContainer.cpp:46-59) for relative velocity `w`. */
  function BinormalDynamic(w: Vector3, normal: Vector3, n: int, sqrt: real -> real): Vector3
  {
    var t := Tangential(w, normal);
    if Normalize(t, Length(t, sqrt)).length == 0.0 then
      var f := Fallback(n, normal);
      if InBound(f, EPS) then Vector3(0.0, 1.0, 0.0) else Normalize(f, Length(f, sqrt)).v
    else Normalize(t, Length(t, sqrt)).v
  }

  /** The binormal of solveBinormalOnCM_statB (ContactsContainer.cpp:67-78): body B does not move. */
  function BinormalStatic(w: Vector3, normal: Vector3, n: int, sqrt: real -> real): Vector3
  {
    var t := Tangential(w, normal);
    if Normalize(t, Length(t, sqrt)).length < EPS then
      var f := Fallback(n, normal);
      if LengthSquared(f) < EPS then Vector3(0.0, 1.0, 0.0) else Normalize(f, Length(f, sqrt)).v
    else Normalize(t, Length(t, sqrt)).v
  }

  /** With a unit normal the tangential part of any velocity is orthogonal to it. */
  lemma TangentialOrthogonal(w: Vector3, normal: Vector3)
    requires LengthSquared(normal) == 1.0
    ensures Dot(normal, Tangential(w, normal)) == 0.0
  {
    ResidualOrthogonal(w, normal, Dot(normal, w));
    DotSymmetric(Tangential(w, normal), normal);
    DotSymmetric(w, normal);
  }

  /**
   * The friction direction lies in the contact plane: for a unit normal the
   * binormal is the unit sliding direction when the body slides, and
   * otherwise the fallback axis, orthogonal to the normal unless that axis
   * itself is degenerate.
   */
  lemma BinormalInPlane(w: Vector3, normal: Vector3, n: int, sqrt: real -> real)
    requires LengthSquared(normal) == 1.0
    ensures var t := Tangential(w, normal); var l := Length(t, sqrt);
            Abs(l) >= EPS ==> Scale(BinormalDynamic(w, normal, n, sqrt), l) == t
    ensures !InBound(Fallback(n, normal), EPS) ==> Dot(normal, BinormalDynamic(w, normal, n, sqrt)) == 0.0
    ensures LengthSquared(Fallback(n, normal)) >= EPS ==> Dot(normal, BinormalStatic(w, normal, n, sqrt)) == 0.0
  {
    var t := Tangential(w, normal);
    var f := Fallback(n, normal);
    TangentialOrthogonal(w, normal);
    NormalizedOrthogonal(t, normal, Length(t, sqrt));
    if n % 2 == 1 {
      CrossOrthogonal(Vector3(1.0, 0.0, 0.0), normal);
    } else {
      CrossOrthogonal(Vector3(0.0, 0.0, 1.0), normal);
    }
    NormalizedOrthogonal(f, normal, Length(f, sqrt));
  }

  // ---------------------------------------------------------------------
  // Adding points
  // ---------------------------------------------------------------------

  /** contactPoint.depth after addContact (ContactsContainer.cpp:97-100): less MAIN_DEPTH, times 1/dt. */
  function Adjusted(depth: real, xdt: real): real
  {
    (depth - MAIN_DEPTH) * xdt
  }

  /** A stored depth: the adjusted depth times an error-reduction factor (ContactsContainer.cpp:101-102). */
  function Depth(depth: real, xdt: real, erp: real): real
  {
    Adjusted(depth, xdt) * erp
  }

  /**
   * addContact_static (ContactsContainer.cpp:114-127), also the body-A half
   * of addContact when body B is static: slot countPoints of the A records
   * gets r, r x n and r x binormal, the info slot the binormal and the two
   * scaled depths, and the count grows.
   */
  function WithStaticPoint(m: Manifold, p: Vector3, depth: real, a: Motion,
                           erpA: real, erpB: real, xdt: real, sqrt: real -> real): (r: Manifold)
    requires WellFormed(m) && m.countPoints < MAX_MANIFOLD_POINTS
    ensures WellFormed(r) && r.countPoints == m.countPoints + 1
    ensures PointA(r, m.countPoints, a.position) == p
    ensures r.info[m.countPoints].depthA == Depth(depth, xdt, erpA)
    ensures r.info[m.countPoints].depthB == Depth(depth, xdt, erpB)
    ensures r.pointB == m.pointB
    ensures forall i :: 0 <= i < m.countPoints ==> r.info[i] == m.info[i] && r.pointA[i] == m.pointA[i]
    ensures r.(info := m.info, pointA := m.pointA, countPoints := m.countPoints) == m
  {
    var n := m.countPoints;
    var rA := Sub(p, a.position);
    var bin := BinormalStatic(Slip(a, rA), m.normal, n, sqrt);
    m.(pointA := m.pointA[n := RPoint(rA, Cross(rA, m.normal), Cross(rA, bin))],
       info := m.info[n := m.info[n].(binormal := bin, depthA := Depth(depth, xdt, erpA), depthB := Depth(depth, xdt, erpB))],
       countPoints := n + 1)
  }

  /**
   * addContact (ContactsContainer.cpp:82-108) on the manifold: with a
   * dynamic body B both record arrays get the point, from the relative
   * velocity; otherwise only the A side, as addContact_static.
   */
  function WithPoint(m: Manifold, cp: ContactPoint, a: Motion, b: Motion,
                     erpA: real, erpB: real, xdt: real, sqrt: real -> real): (r: Manifold)
    requires WellFormed(m) && m.countPoints < MAX_MANIFOLD_POINTS
    ensures WellFormed(r) && r.countPoints == m.countPoints + 1
    ensures PointA(r, m.countPoints, a.position) == cp.pointOnBodyA
    ensures m.notStatB ==> PointB(r, m.countPoints, b.position) == cp.pointOnBodyB
    ensures !m.notStatB ==> r.pointB == m.pointB
    ensures r.info[m.countPoints].depthA == Depth(cp.depth, xdt, erpA)
    ensures r.info[m.countPoints].depthB == Depth(cp.depth, xdt, erpB)
    ensures forall i :: 0 <= i < m.countPoints ==>
              r.info[i] == m.info[i] && r.pointA[i] == m.pointA[i] && r.pointB[i] == m.pointB[i]
    ensures r.(info := m.info, pointA := m.pointA, pointB := m.pointB, countPoints := m.countPoints) == m
  {
    if !m.notStatB then WithStaticPoint(m, cp.pointOnBodyA, cp.depth, a, erpA, erpB, xdt, sqrt)
    else
      var n := m.countPoints;
      var rA := Sub(cp.pointOnBodyA, a.position);
      var rB := Sub(cp.pointOnBodyB, b.position);
      var bin := BinormalDynamic(Sub(Slip(a, rA), Slip(b, rB)), m.normal, n, sqrt);
      m.(pointA := m.pointA[n := RPoint(rA, Cross(rA, m.normal), Cross(rA, bin))],
         pointB := m.pointB[n := RPoint(rB, Cross(rB, m.normal), Cross(rB, bin))],
         info := m.info[n := m.info[n].(binormal := bin, depthA := Depth(cp.depth, xdt, erpA),
                                                       depthB := Depth(cp.depth, xdt, erpB))],
         countPoints := n + 1)
  }

  /** addContact for each point of `cps` in turn. */
  function WithPoints(m: Manifold, cps: seq<ContactPoint>, a: Motion, b: Motion,
                      erpA: real, erpB: real, xdt: real, sqrt: real -> real): (r: Manifold)
    requires WellFormed(m) && m.countPoints + |cps| <= MAX_MANIFOLD_POINTS
    ensures WellFormed(r) && r.countPoints == m.countPoints + |cps|
    ensures r.bodyA == m.bodyA && r.bodyB == m.bodyB && r.normal == m.normal && r.notStatB == m.notStatB
    decreases |cps|
  {
    if cps == [] then m
    else WithPoints(WithPoint(m, cps[0], a, b, erpA, erpB, xdt, sqrt), cps[1..], a, b, erpA, erpB, xdt, sqrt)
  }

  /** A run of addContact calls leaves the slots in use before it alone. */
  lemma {:induction false} WithPointsKeeps(m: Manifold, cps: seq<ContactPoint>, i: int, a: Motion, b: Motion,
                                           erpA: real, erpB: real, xdt: real, sqrt: real -> real)
    requires WellFormed(m) && m.countPoints + |cps| <= MAX_MANIFOLD_POINTS && 0 <= i < m.countPoints
    ensures var r := WithPoints(m, cps, a, b, erpA, erpB, xdt, sqrt);
            r.info[i] == m.info[i] && r.pointA[i] == m.pointA[i] && r.pointB[i] == m.pointB[i]
    decreases |cps|
  {
    if cps != [] {
      WithPointsKeeps(WithPoint(m, cps[0], a, b, erpA, erpB, xdt, sqrt), cps[1..], i, a, b, erpA, erpB, xdt, sqrt);
    }
  }

  /**
   * After a run of addContact calls, slot countPoints + k holds point k of
   * the run: getPointA gives back its point on body A, and the depths are
   * its adjusted depth times the two ERP factors.
   */
  lemma {:induction false} WithPointsRecords(m: Manifold, cps: seq<ContactPoint>, k: int, a: Motion, b: Motion,
                                             erpA: real, erpB: real, xdt: real, sqrt: real -> real)
    requires WellFormed(m) && m.countPoints + |cps| <= MAX_MANIFOLD_POINTS && 0 <= k < |cps|
    ensures var r := WithPoints(m, cps, a, b, erpA, erpB, xdt, sqrt);
            PointA(r, m.countPoints + k, a.position) == cps[k].pointOnBodyA
            && r.info[m.countPoints + k].depthA == Depth(cps[k].depth, xdt, erpA)
            && r.info[m.countPoints + k].depthB == Depth(cps[k].depth, xdt, erpB)
    decreases |cps|
  {
    var m1 := WithPoint(m, cps[0], a, b, erpA, erpB, xdt, sqrt);
    assert WithPoints(m, cps, a, b, erpA, erpB, xdt, sqrt) == WithPoints(m1, cps[1..], a, b, erpA, erpB, xdt, sqrt);
    if k == 0 {
      WithPointsKeeps(m1, cps[1..], m.countPoints, a, b, erpA, erpB, xdt, sqrt);
    } else {
      WithPointsRecords(m1, cps[1..], k - 1, a, b, erpA, erpB, xdt, sqrt);
      assert cps[1..][k - 1] == cps[k];
    }
  }

  /** Adding one more point after a run of points extends the run. */
  lemma {:induction false} WithPointsSnoc(m: Manifold, cps: seq<ContactPoint>, c: ContactPoint, a: Motion, b: Motion,
                                          erpA: real, erpB: real, xdt: real, sqrt: real -> real)
    requires WellFormed(m) && m.countPoints + |cps| < MAX_MANIFOLD_POINTS
    ensures WithPoints(m, cps + [c], a, b, erpA, erpB, xdt, sqrt)
            == WithPoint(WithPoints(m, cps, a, b, erpA, erpB, xdt, sqrt), c, a, b, erpA, erpB, xdt, sqrt)
    decreases |cps|
  {
    if cps != [] {
      assert (cps + [c])[1..] == cps[1..] + [c];
      WithPointsSnoc(WithPoint(m, cps[0], a, b, erpA, erpB, xdt, sqrt), cps[1..], c, a, b, erpA, erpB, xdt, sqrt);
    } else {
      assert ([c])[1..] == [];
    }
  }

  /** The candidate point with its depth as addContact leaves it. */
  function AdjustedPoint(cp: ContactPoint, xdt: real): ContactPoint
  {
    cp.(depth := Adjusted(cp.depth, xdt))
  }

  /** The midpoint addTempContactPoint stores (ContactsContainer.cpp:134). */
  function Midpoint(p: Vector3, q: Vector3): (r: Vector3)
    ensures Sub(r, p) == Sub(q, r)
  {
    Scale(Add(p, q), 0.5)
  }

  // ---------------------------------------------------------------------
  // Reducing the candidates to four
  // ---------------------------------------------------------------------

  /**
   * The four directions of optimizeContactPoints (ContactsContainer.cpp:163-182):
   * slot 0 the largest and slot 1 the smallest projection on normalX,
   * slots 2 and 3 the same on normalY.
   */
  function Along(p: ContactPoint, basis: Basis, d: int): real
  {
    Dot(p.point, if d < 2 then basis.normalX else basis.normalY)
  }

  /** `v` strictly improves on `w` in direction `d`. */
  predicate Beats(d: int, v: real, w: real)
  {
    if d % 2 == 0 then v > w else v < w
  }

  /** The running value's start: MIN_NUMBER for a maximum, MAX_NUMBER for a minimum. */
  function Sentinel(d: int): real
  {
    if d % 2 == 0 then MIN_NUMBER else MAX_NUMBER
  }

  /**
   * The extreme of direction `d` over the first `n` points: its index (-1
   * when no point beats the sentinel, the null pointer of the source) and
   * its value.  No point beats it, and every earlier point is strictly
   * worse, so it is the first point attaining the extreme.
   */
  function Extreme(ps: seq<ContactPoint>, basis: Basis, d: int, n: int): (r: (int, real))
    requires 0 <= n <= |ps|
    ensures -1 <= r.0 < n
    ensures r.0 == -1 ==> r.1 == Sentinel(d)
    ensures r.0 >= 0 ==> r.1 == Along(ps[r.0], basis, d) && Beats(d, r.1, Sentinel(d))
    ensures forall k :: 0 <= k < n ==> !Beats(d, Along(ps[k], basis, d), r.1)
    ensures forall k :: 0 <= k < r.0 ==> Beats(d, r.1, Along(ps[k], basis, d))
  {
    if n == 0 then (-1, Sentinel(d))
    else
      var prior := Extreme(ps, basis, d, n - 1);
      var v := Along(ps[n - 1], basis, d);
      if Beats(d, v, prior.1) then (n - 1, v) else prior
  }

  /** One comparison of the extreme scan: point `i`, at `s` along the axis, takes over from the running extreme when it beats it. */
  method Improve(d: int, s: real, i: int, id: int, best: real) returns (id': int, best': real)
    ensures (id', best') == if Beats(d, s, best) then (i, s) else (id, best)
  {
    id', best' := id, best;
    if d % 2 == 0 {
      if s > best {
        id', best' := i, s;
      }
    } else {
      if s < best {
        id', best' := i, s;
      }
    }
  }

  /** One more point: it takes over exactly when it beats the extreme so far. */
  lemma ExtremeStep(ps: seq<ContactPoint>, basis: Basis, d: int, n: int)
    requires 0 <= n < |ps| && 0 <= d < 4
    ensures var prior := Extreme(ps, basis, d, n);
            var v := Along(ps[n], basis, d);
            Extreme(ps, basis, d, n + 1) == if Beats(d, v, prior.1) then (n, v) else prior
  {
  }

  /** Slot `i` of the four extremes is added: it is a point and no later slot holds the same one (ContactsContainer.cpp:183-193). */
  predicate Keep(ids: seq<int>, i: int)
    requires 0 <= i < |ids|
  {
    ids[i] >= 0 && ids[i] !in ids[i + 1..]
  }

  /** The kept slots among the first `n`, in slot order. */
  function Chosen(ids: seq<int>, n: int): (r: seq<int>)
    requires 0 <= n <= |ids|
    ensures |r| <= n
    ensures forall x :: x in r ==> x >= 0 && x in ids && x !in ids[n..]
  {
    if n == 0 then []
    else
      var prior := Chosen(ids, n - 1);
      assert ids[n..] == ids[n - 1..][1..];
      if Keep(ids, n - 1) then prior + [ids[n - 1]] else prior
  }

  /** No index is chosen twice. */
  lemma {:induction false} ChosenDistinct(ids: seq<int>, n: int)
    requires 0 <= n <= |ids|
    ensures forall k, l :: 0 <= k < l < |Chosen(ids, n)| ==> Chosen(ids, n)[k] != Chosen(ids, n)[l]
  {
    if n > 0 {
      ChosenDistinct(ids, n - 1);
      if Keep(ids, n - 1) {
        assert ids[n - 1] == ids[n - 1..][0];
      }
    }
  }

  /** Every kept slot among the first `n` is chosen. */
  lemma {:induction false} ChosenKeeps(ids: seq<int>, n: int)
    requires 0 <= n <= |ids|
    ensures forall i :: 0 <= i < n && Keep(ids, i) ==> ids[i] in Chosen(ids, n)
  {
    if n > 0 {
      ChosenKeeps(ids, n - 1);
    }
  }

  /** Every point among the four extremes is added exactly once. */
  lemma ChosenComplete(ids: seq<int>, x: int)
    requires |ids| == 4 && x >= 0 && x in ids
    ensures x in Chosen(ids, 4)
  {
    var i :| 0 <= i < 4 && ids[i] == x && x !in ids[i + 1..];
    assert Keep(ids, i);
    ChosenKeeps(ids, 4);
  }

  /** The points named by `ids`. */
  function Pick(ps: seq<ContactPoint>, ids: seq<int>): (r: seq<ContactPoint>)
    requires forall x :: x in ids ==> 0 <= x < |ps|
    ensures |r| == |ids| && forall k :: 0 <= k < |ids| ==> ids[k] in ids && r[k] == ps[ids[k]]
  {
    seq(|ids|, k requires 0 <= k < |ids| => assert ids[k] in ids; ps[ids[k]])
  }

  /** The indices 0 .. n-1. */
  function Upto(n: nat): (r: seq<int>)
    ensures |r| == n && forall k :: 0 <= k < n ==> r[k] == k
    ensures forall x :: x in r ==> 0 <= x < n
  {
    seq(n, k => k)
  }

  // ---------------------------------------------------------------------
  // Static bodies and warm starting
  // ---------------------------------------------------------------------

  /** A point record seen from the other body: r x n and r x binormal change sign. */
  function Flipped(p: RPoint): RPoint
  {
    RPoint(p.r, Neg(p.rn), Neg(p.rb))
  }

  /**
   * _swapBodyOnContactManifold (ShockPropagationSolver.cpp:52-66), the
   * same exchange compareContacts makes when body A is static
   * (ContactsContainer.cpp:208-221): the bodies trade places, so do the
   * point records of the used slots, with r x n and r x binormal negated,
   * and the normal is reversed.
   */
  function Swapped(m: Manifold): (r: Manifold)
    requires WellFormed(m)
    ensures WellFormed(r)
    ensures r.bodyA == m.bodyB && r.bodyB == m.bodyA && r.normal == Neg(m.normal)
    ensures forall i :: 0 <= i < m.countPoints ==>
              PointA(r, i, Zero) == PointB(m, i, Zero) && PointB(r, i, Zero) == PointA(m, i, Zero)
    ensures r.(bodyA := m.bodyA, bodyB := m.bodyB, normal := m.normal, pointA := m.pointA, pointB := m.pointB) == m
  {
    m.(bodyA := m.bodyB, bodyB := m.bodyA, normal := Neg(m.normal),
       pointA := seq(MAX_MANIFOLD_POINTS, i requires 0 <= i < MAX_MANIFOLD_POINTS =>
                       if i < m.countPoints then Flipped(m.pointB[i]) else m.pointA[i]),
       pointB := seq(MAX_MANIFOLD_POINTS, i requires 0 <= i < MAX_MANIFOLD_POINTS =>
                       if i < m.countPoints then Flipped(m.pointA[i]) else m.pointB[i]))
  }

  /** Swapping twice restores the manifold. */
  lemma SwappedTwice(m: Manifold)
    requires WellFormed(m)
    ensures Swapped(Swapped(m)) == m
  {
    var s := Swapped(Swapped(m));
    forall i | 0 <= i < MAX_MANIFOLD_POINTS
      ensures s.pointA[i] == m.pointA[i] && s.pointB[i] == m.pointB[i]
    {
      if i < m.countPoints {
        NegNeg(m.pointA[i].rn); NegNeg(m.pointA[i].rb);
        NegNeg(m.pointB[i].rn); NegNeg(m.pointB[i].rb);
      }
    }
    NegNeg(m.normal);
  }

  /**
   * The head of compareContacts (ContactsContainer.cpp:205-225): a static
   * body B clears notStatB; otherwise a static body A is swapped into the
   * place of B and notStatB is cleared; two dynamic bodies set it.
   */
  function Ordered(m: Manifold, staticA: bool, staticB: bool): (r: Manifold)
    requires WellFormed(m)
    ensures WellFormed(r)
  {
    if staticB then m.(notStatB := false)
    else if staticA then Swapped(m).(notStatB := false)
    else m.(notStatB := true)
  }

  /**
   * After the ordering, notStatB says that neither body is static, and a
   * static body is always body B: when only A was static the bodies are
   * exchanged with their records, else nothing but the flag changes.
   */
  lemma OrderedPutsStaticLast(m: Manifold, staticA: bool, staticB: bool)
    requires WellFormed(m)
    ensures var r := Ordered(m, staticA, staticB);
            (r.notStatB <==> !staticA && !staticB)
            && (staticA && !staticB ==>
                  r.bodyA == m.bodyB && r.bodyB == m.bodyA
                  && forall i :: 0 <= i < m.countPoints ==> PointA(r, i, Zero) == PointB(m, i, Zero))
            && (!staticA || staticB ==> r.(notStatB := m.notStatB) == m)
  {
  }

  /**
   * The first point of `prev` whose offset on the matching side is within
   * EPS_FOR_CONTACT of `r` on every axis (ContactsContainer.cpp:244-245,
   * 279-280), or -1.  `inv` says the previous manifold had the bodies the
   * other way round, so its B records are compared.
   */
  function MatchPoint(r: Vector3, prev: Manifold, inv: bool, n: int): (j: int)
    requires WellFormed(prev) && 0 <= n <= prev.countPoints
    ensures -1 <= j < n
    ensures j >= 0 ==> Near(r, prev, inv, j)
    ensures forall k :: 0 <= k < n && (j == -1 || k < j) ==> !Near(r, prev, inv, k)
  {
    if n == 0 then -1
    else
      var j := MatchPoint(r, prev, inv, n - 1);
      if j >= 0 then j else if Near(r, prev, inv, n - 1) then n - 1 else -1
  }

  predicate Near(r: Vector3, prev: Manifold, inv: bool, k: int)
    requires WellFormed(prev) && 0 <= k < MAX_MANIFOLD_POINTS
  {
    InBound(Sub(r, if inv then prev.pointB[k].r else prev.pointA[k].r), EPS_FOR_CONTACT)
  }

  /**
   * One point's accumulated impulses after matching: copied from previous
   * slot `j` (friction negated when inverted), or zeroed when there is none
   * (ContactsContainer.cpp:247-249, 270-272, 281-283, 304-306, 313-315).
   */
  function WarmInfo(p: InfoPoint, prev: Manifold, j: int, inv: bool): (q: InfoPoint)
    requires WellFormed(prev) && j < MAX_MANIFOLD_POINTS
    ensures j < 0 ==> q.impulse == 0.0 && q.impulseFriction == 0.0 && q.pseudoImpulse == 0.0
    ensures j >= 0 ==> q.impulse == prev.info[j].impulse && q.pseudoImpulse == prev.info[j].pseudoImpulse
                       && q.impulseFriction == (if inv then -prev.info[j].impulseFriction else prev.info[j].impulseFriction)
    ensures q.(impulse := p.impulse, impulseFriction := p.impulseFriction, pseudoImpulse := p.pseudoImpulse) == p
  {
    if j < 0 then p.(impulse := 0.0, impulseFriction := 0.0, pseudoImpulse := 0.0)
    else
      var o := prev.info[j];
      p.(impulse := o.impulse, impulseFriction := if inv then -o.impulseFriction else o.impulseFriction,
         pseudoImpulse := o.pseudoImpulse)
  }

  /** The previous slot matched by slot `i`, or -1 when there is no previous manifold. */
  function Matched(m: Manifold, i: int, prev: Manifold, found: bool, inv: bool): (j: int)
    requires WellFormed(m) && WellFormed(prev) && 0 <= i < MAX_MANIFOLD_POINTS
    ensures -1 <= j < prev.countPoints
  {
    if found then MatchPoint(m.pointA[i].r, prev, inv, prev.countPoints) else -1
  }

  /** How many of the first `n` slots found a previous point. */
  function CountMatched(m: Manifold, n: int, prev: Manifold, found: bool, inv: bool): (c: int)
    requires WellFormed(m) && WellFormed(prev) && 0 <= n <= MAX_MANIFOLD_POINTS
    ensures 0 <= c <= n
    ensures !found ==> c == 0
  {
    if n == 0 then 0
    else CountMatched(m, n - 1, prev, found, inv) + (if Matched(m, n - 1, prev, found, inv) >= 0 then 1 else 0)
  }

  /** The manifold's info after warm starting its first `n` slots. */
  function Warmed(m: Manifold, n: int, prev: Manifold, found: bool, inv: bool): (r: Manifold)
    requires WellFormed(m) && WellFormed(prev) && 0 <= n <= MAX_MANIFOLD_POINTS
    ensures WellFormed(r) && r.(info := m.info) == m
    ensures forall i :: 0 <= i < MAX_MANIFOLD_POINTS ==>
              r.info[i] == if i < n then WarmInfo(m.info[i], prev, Matched(m, i, prev, found, inv), inv) else m.info[i]
  {
    m.(info := seq(MAX_MANIFOLD_POINTS, i requires 0 <= i < MAX_MANIFOLD_POINTS =>
                     if i < n then WarmInfo(m.info[i], prev, Matched(m, i, prev, found, inv), inv) else m.info[i]))
  }

  /** The impulse body B receives for body A's `j`. */
  function Opposite(j: real): real
  {
    -j
  }

  /** The linear impulse a warm-started slot carries: normal times impulse plus binormal times friction. */
  function LinearOf(m: Manifold, i: int): Vector3
    requires WellFormed(m) && 0 <= i < MAX_MANIFOLD_POINTS
  {
    Add(Scale(m.normal, m.info[i].impulse), Scale(m.info[i].binormal, m.info[i].impulseFriction))
  }

  /** The angular impulse of a slot on one side: r x n times impulse plus r x binormal times friction. */
  function AngularOf(p: RPoint, impulse: real, impulseFriction: real): Vector3
  {
    Add(Scale(p.rn, impulse), Scale(p.rb, impulseFriction))
  }

  /** The first previous manifold of the list that pairs `a` with `b`, and whether it has them inverted (ContactsContainer.cpp:228-238). */
  function PrevMatch(prevIds: seq<int>, prevs: seq<Manifold>, b: int): (r: Option<(int, bool)>)
    requires forall k :: 0 <= k < |prevIds| ==> 0 <= prevIds[k] < |prevs|
    ensures r.Some? ==> r.value.0 in prevIds
                        && (if r.value.1 then prevs[r.value.0].bodyA == b else prevs[r.value.0].bodyB == b)
    ensures r.None? <==> forall k :: 0 <= k < |prevIds| ==> prevs[prevIds[k]].bodyA != b && prevs[prevIds[k]].bodyB != b
  {
    if prevIds == [] then None
    else if prevs[prevIds[0]].bodyB == b then Some((prevIds[0], false))
    else if prevs[prevIds[0]].bodyA == b then Some((prevIds[0], true))
    else PrevMatch(prevIds[1..], prevs, b)
  }

  /** The four extremes of optimizeContactPoints over the first `n` candidates. */
  function ExtremeIds(ps: seq<ContactPoint>, basis: Basis, n: int): (ids: seq<int>)
    requires 0 <= n <= |ps|
    ensures |ids| == 4 && forall x :: x in ids ==> -1 <= x < n
  {
    [Extreme(ps, basis, 0, n).0, Extreme(ps, basis, 1, n).0, Extreme(ps, basis, 2, n).0, Extreme(ps, basis, 3, n).0]
  }

  /** The candidates after addContact has adjusted the depth of those at `ids`. */
  function AdjustedAt(ps: seq<ContactPoint>, ids: seq<int>, xdt: real): (r: seq<ContactPoint>)
    ensures |r| == |ps|
  {
    seq(|ps|, k requires 0 <= k < |ps| => if k in ids then AdjustedPoint(ps[k], xdt) else ps[k])
  }

  /** Picking one more index appends its point. */
  lemma PickSnoc(ps: seq<ContactPoint>, ids: seq<int>, k: int)
    requires 0 <= k < |ps| && forall x :: x in ids ==> 0 <= x < |ps|
    ensures Pick(ps, ids + [k]) == Pick(ps, ids) + [ps[k]]
  {
    assert Pick(ps, ids + [k]) == Pick(ps, ids) + [ps[k]];
  }

  /** Adjusting one more candidate, not adjusted before, changes that slot alone. */
  lemma AdjustedAtSnoc(ps: seq<ContactPoint>, ids: seq<int>, k: int, xdt: real)
    requires 0 <= k < |ps| && k !in ids
    ensures AdjustedAt(ps, ids + [k], xdt) == AdjustedAt(ps, ids, xdt)[k := AdjustedPoint(ps[k], xdt)]
  {
    assert AdjustedAt(ps, ids + [k], xdt) == AdjustedAt(ps, ids, xdt)[k := AdjustedPoint(ps[k], xdt)];
  }

  /**
   * The local body pointers compareContacts goes on with
   * (ContactsContainer.cpp:203-209): when only body A is static, the swap
   * sequence leaves both locals pointing at the old body A.
   */
  function LocalsAsWritten(m: Manifold, staticA: bool, staticB: bool): (int, int)
  {
    if !staticB && staticA then (m.bodyA, m.bodyA) else (m.bodyA, m.bodyB)
  }

  /**
   * With a static body A and a dynamic body B the locals both name the
   * static body, while the reordered manifold's body A is the dynamic one.
   */
  lemma LocalsAsWrittenMissDynamicBody()
    ensures var m := Opened(0, 1, Zero, Material(0.0, 1.0), true);
            LocalsAsWritten(m, true, false) == (0, 0) && Ordered(m, true, false).bodyA == 1
  {
    var m := Opened(0, 1, Zero, Material(0.0, 1.0), true);
    assert WellFormed(m);
  }

  /** Momentum balance: opposite impulses change m*v of two dynamic bodies by opposite amounts. */
  lemma MomentumBalanced(l: Vector3, invMassA: real, invMassB: real)
    requires invMassA > 0.0 && invMassB > 0.0
    ensures Add(Scale(Scale(l, invMassA), 1.0 / invMassA), Scale(Scale(Neg(l), invMassB), 1.0 / invMassB)) == Zero
  {
    assert invMassA * (1.0 / invMassA) == 1.0;
    assert invMassB * (1.0 / invMassB) == 1.0;
  }

  /**
   * The warm-start impulses of slot `i` (ContactsContainer.cpp:250-263):
   * body A receives the linear impulse, the angular impulse about its
   * offset and the pseudo-impulse; a dynamic body B the opposite ones about
   * its own offset; a static body B nothing.
   */
  method WarmPoint(m: Manifold, i: int, bodyA: Body, bodyB: Body)
    requires WellFormed(m) && 0 <= i < MAX_MANIFOLD_POINTS && bodyA != bodyB
    modifies bodyA`velocity, bodyA`angularVelocity, bodyA`pseudoVelocity, bodyA`pseudoAngularVelocity
    modifies bodyB`velocity, bodyB`angularVelocity, bodyB`pseudoVelocity, bodyB`pseudoAngularVelocity
    ensures bodyA.velocity == Add(old(bodyA.velocity), Scale(LinearOf(m, i), bodyA.invMass))
            && bodyA.angularVelocity == Add(old(bodyA.angularVelocity), Scale(AngularOf(m.pointA[i], m.info[i].impulse, m.info[i].impulseFriction), bodyA.invInertia))
            && bodyA.pseudoVelocity == Add(old(bodyA.pseudoVelocity), Scale(m.normal, m.info[i].pseudoImpulse))
            && bodyA.pseudoAngularVelocity == Add(old(bodyA.pseudoAngularVelocity), Scale(m.pointA[i].rn, Turn(bodyA.invInertia, m.info[i].pseudoImpulse)))
    ensures m.notStatB ==>
            bodyB.velocity == Add(old(bodyB.velocity), Scale(Neg(LinearOf(m, i)), bodyB.invMass))
            && bodyB.angularVelocity == Add(old(bodyB.angularVelocity), Scale(AngularOf(m.pointB[i], -m.info[i].impulse, -m.info[i].impulseFriction), bodyB.invInertia))
            && bodyB.pseudoVelocity == Add(old(bodyB.pseudoVelocity), Scale(m.normal, -m.info[i].pseudoImpulse))
            && bodyB.pseudoAngularVelocity == Add(old(bodyB.pseudoAngularVelocity), Scale(m.pointB[i].rn, Turn(bodyB.invInertia, Opposite(m.info[i].pseudoImpulse))))
    ensures !m.notStatB ==> bodyB.velocity == old(bodyB.velocity) && bodyB.angularVelocity == old(bodyB.angularVelocity)
                            && bodyB.pseudoVelocity == old(bodyB.pseudoVelocity)
                            && bodyB.pseudoAngularVelocity == old(bodyB.pseudoAngularVelocity)
  {
    var q := m.info[i];
    Push(bodyA, LinearOf(m, i), AngularOf(m.pointA[i], q.impulse, q.impulseFriction), m.normal, m.pointA[i].rn, q.pseudoImpulse);
    if m.notStatB {
      Push(bodyB, Neg(LinearOf(m, i)), AngularOf(m.pointB[i], -q.impulse, -q.impulseFriction), m.normal, m.pointB[i].rn, Opposite(q.pseudoImpulse));
    }
  }

  /** One side of a warm start: a linear and an angular impulse, and a pseudo-impulse along `normal` about `rn`. */
  method Push(b: Body, linear: Vector3, angular: Vector3, normal: Vector3, rn: Vector3, pseudoImpulse: real)
    modifies b`velocity, b`angularVelocity, b`pseudoVelocity, b`pseudoAngularVelocity
    ensures b.velocity == Add(old(b.velocity), Scale(linear, b.invMass))
    ensures b.angularVelocity == Add(old(b.angularVelocity), Scale(angular, b.invInertia))
    ensures b.pseudoVelocity == Add(old(b.pseudoVelocity), Scale(normal, pseudoImpulse))
    ensures b.pseudoAngularVelocity == Add(old(b.pseudoAngularVelocity), Scale(rn, Turn(b.invInertia, pseudoImpulse)))
  {
    b.ApplyLinearImpulseVector(linear);
    b.ApplyAngularImpulseVector(angular);
    b.ApplyLinearPseudoImpulse(normal, pseudoImpulse);
    b.ApplyAngularPseudoImpulse(rn, pseudoImpulse);
  }

  /** The search for a previous point near slot offset `r` (ContactsContainer.cpp:244-245, 279-280). */
  method MatchIn(r: Vector3, prev: Manifold, inv: bool) returns (j: int)
    requires WellFormed(prev)
    ensures j == MatchPoint(r, prev, inv, prev.countPoints)
  {
    j := 0;
    while j < prev.countPoints && !Near(r, prev, inv, j)
      invariant 0 <= j <= prev.countPoints
      invariant forall k :: 0 <= k < j ==> !Near(r, prev, inv, k)
    {
      j := j + 1;
    }
    if j == prev.countPoints {
      j := -1;
    }
  }

  /** Every index of a body's previous-contact list names a previous manifold. */
  predicate PrevBelow(prevIds: seq<int>, n: int)
  {
    forall k :: 0 <= k < |prevIds| ==> 0 <= prevIds[k] < n
  }

  /** The bodies of a list, as a set of objects. */
  function Objects(bodies: seq<Body>): (r: set<Body>)
    ensures forall k :: 0 <= k < |bodies| ==> bodies[k] in r
  {
    set k | 0 <= k < |bodies| :: bodies[k]
  }

  /** No body appears twice in the list. */
  predicate DistinctBodies(bodies: seq<Body>)
  {
    forall i, j :: 0 <= i < j < |bodies| ==> bodies[i] != bodies[j]
  }

  /** The current collision group of each body, in list order. */
  ghost function CurrentGroups(bodies: seq<Body>): (r: seq<nat>)
    reads Objects(bodies)`currentGroup
    ensures |r| == |bodies| && forall k :: 0 <= k < |bodies| ==> r[k] == bodies[k].currentGroup
  {
    if |bodies| == 0 then [] else CurrentGroups(bodies[..|bodies| - 1]) + [bodies[|bodies| - 1].currentGroup]
  }

  /** The index each body holds, in list order. */
  ghost function Indices(bodies: seq<Body>): (r: seq<int>)
    reads Objects(bodies)`index
    ensures |r| == |bodies| && forall k :: 0 <= k < |bodies| ==> r[k] == bodies[k].index
  {
    if |bodies| == 0 then [] else Indices(bodies[..|bodies| - 1]) + [bodies[|bodies| - 1].index]
  }

  /**
   * _mergeCollisionGroup (Body.cpp:346-353) on the list of current groups,
   * `idx` holding the bodies' indices: of bodies `a` and `b`, the one with
   * the larger index hands its group to the other.  Only the two change,
   * and they end in one group.
   */
  function MergedGroups(cur: seq<nat>, idx: seq<int>, a: int, b: int): (r: seq<nat>)
    requires |idx| == |cur| && 0 <= a < |cur| && 0 <= b < |cur|
    ensures |r| == |cur| && r[a] == r[b]
    ensures forall k :: 0 <= k < |cur| && k != a && k != b ==> r[k] == cur[k]
    ensures r[a] == (if idx[a] > idx[b] then cur[a] else cur[b])
  {
    if idx[a] > idx[b] then cur[b := cur[a]] else cur[a := cur[b]]
  }

  /** One merge of two bodies of a list without repeats, as MergedGroups says. */
  method MergePair(bodies: seq<Body>, a: int, b: int)
    requires 0 <= a < |bodies| && 0 <= b < |bodies| && DistinctBodies(bodies)
    modifies {bodies[a], bodies[b]}`currentGroup
    ensures Indices(bodies) == old(Indices(bodies))
    ensures CurrentGroups(bodies) == MergedGroups(old(CurrentGroups(bodies)), Indices(bodies), a, b)
  {
    ghost var before, idx := CurrentGroups(bodies), Indices(bodies);
    bodies[a].MergeCollisionGroup(bodies[b]);
    forall k | 0 <= k < |bodies|
      ensures CurrentGroups(bodies)[k] == MergedGroups(before, idx, a, b)[k]
    {
      if k != a && k != b {
        assert bodies[k] != bodies[a] && bodies[k] != bodies[b];
      }
    }
  }

  /** updateCollisionGroups on the list of current groups: the merge of every manifold's two bodies, first manifold first. */
  function MergeFold(cur: seq<nat>, idx: seq<int>, ms: seq<Manifold>): (r: seq<nat>)
    requires |idx| == |cur| && BodiesBelow(ms, |cur|)
    ensures |r| == |cur|
    ensures |ms| > 0 ==> r[ms[|ms| - 1].bodyA] == r[ms[|ms| - 1].bodyB]
    decreases |ms|
  {
    if |ms| == 0 then cur
    else
      var last := ms[|ms| - 1];
      MergedGroups(MergeFold(cur, idx, ms[..|ms| - 1]), idx, last.bodyA, last.bodyB)
  }

  /** A body names a group after the merges only if some body named it before: merging never invents a group. */
  lemma {:induction false} MergeFoldWithin(cur: seq<nat>, idx: seq<int>, ms: seq<Manifold>)
    requires |idx| == |cur| && BodiesBelow(ms, |cur|)
    ensures forall k :: 0 <= k < |cur| ==> MergeFold(cur, idx, ms)[k] in cur
    decreases |ms|
  {
    if |ms| > 0 {
      MergeFoldWithin(cur, idx, ms[..|ms| - 1]);
    }
  }

  /** A body no manifold names keeps its group. */
  lemma {:induction false} MergeFoldUntouched(cur: seq<nat>, idx: seq<int>, ms: seq<Manifold>, k: int)
    requires |idx| == |cur| && BodiesBelow(ms, |cur|) && 0 <= k < |cur|
    requires forall i :: 0 <= i < |ms| ==> ms[i].bodyA != k && ms[i].bodyB != k
    ensures MergeFold(cur, idx, ms)[k] == cur[k]
    decreases |ms|
  {
    if |ms| > 0 {
      MergeFoldUntouched(cur, idx, ms[..|ms| - 1], k);
    }
  }

  /** `n` rounds of updateCollisionGroups over the same manifolds. */
  function MergeRoundsOf(cur: seq<nat>, idx: seq<int>, ms: seq<Manifold>, n: int): (r: seq<nat>)
    requires |idx| == |cur| && BodiesBelow(ms, |cur|)
    ensures |r| == |cur|
    decreases n
  {
    if n <= 0 then cur else MergeFold(MergeRoundsOf(cur, idx, ms, n - 1), idx, ms)
  }

  /** However many rounds run, every group named afterwards was named before, and after one round the last manifold's bodies share one. */
  lemma {:induction false} MergeRoundsWithin(cur: seq<nat>, idx: seq<int>, ms: seq<Manifold>, n: int)
    requires |idx| == |cur| && BodiesBelow(ms, |cur|)
    ensures forall k :: 0 <= k < |cur| ==> MergeRoundsOf(cur, idx, ms, n)[k] in cur
    ensures n > 0 && |ms| > 0 ==>
      MergeRoundsOf(cur, idx, ms, n)[ms[|ms| - 1].bodyA] == MergeRoundsOf(cur, idx, ms, n)[ms[|ms| - 1].bodyB]
    decreases n
  {
    if n > 0 {
      var before := MergeRoundsOf(cur, idx, ms, n - 1);
      MergeRoundsWithin(cur, idx, ms, n - 1);
      MergeFoldWithin(before, idx, ms);
    }
  }

  /** Previous manifold `k` of the list, or an empty manifold standing for none when `k` is -1. */
  function PrevOr(prevs: seq<Manifold>, k: int): (m: Manifold)
    requires AllWellFormed(prevs)
    ensures WellFormed(m)
    ensures 0 <= k < |prevs| ==> m == prevs[k]
  {
    if 0 <= k < |prevs| then prevs[k] else Opened(-1, -1, Zero, Material(0.0, 0.0), false)
  }

  /** The four velocities of a body that contacts change. */
  ghost function Velocities(b: Body): (Vector3, Vector3, Vector3, Vector3)
    reads b
  {
    (b.velocity, b.angularVelocity, b.pseudoVelocity, b.pseudoAngularVelocity)
  }

  /**
   * The previous manifold to warm from, whether there is one, and whether
   * its bodies are the other way round: the first match of PrevMatch, or
   * an empty manifold and no match.
   */
  function PrevFound(prevIds: seq<int>, prevs: seq<Manifold>, b: int): (r: (Manifold, bool, bool))
    requires PrevBelow(prevIds, |prevs|) && AllWellFormed(prevs)
    ensures WellFormed(r.0)
    ensures r.1 <==> PrevMatch(prevIds, prevs, b).Some?
    ensures r.1 ==> r.0 == prevs[PrevMatch(prevIds, prevs, b).value.0] && r.2 == PrevMatch(prevIds, prevs, b).value.1
    ensures !r.1 ==> !r.2 && r.0.countPoints == 0
  {
    match PrevMatch(prevIds, prevs, b)
    case Some((k, inv)) => (prevs[k], true, inv)
    case None => (Opened(-1, -1, Zero, Material(0.0, 0.0), false), false, false)
  }

  /** The linear impulses the first `n` slots hand to body A: the sum of those of warmed manifold `w` over the slots that matched. */
  function Handed(m: Manifold, w: Manifold, n: int, prev: Manifold, found: bool, inv: bool): (t: Vector3)
    requires WellFormed(m) && WellFormed(w) && WellFormed(prev) && 0 <= n <= MAX_MANIFOLD_POINTS
    ensures CountMatched(m, n, prev, found, inv) == 0 ==> t == Zero
  {
    if n == 0 then Zero
    else
      var t := Handed(m, w, n - 1, prev, found, inv);
      if Matched(m, n - 1, prev, found, inv) >= 0 then Add(t, LinearOf(w, n - 1)) else t
  }

  /** The impulse `l` as the body receives it: itself for body A, its opposite for body B (`away`). */
  function Toward(l: Vector3, away: bool): (r: Vector3)
    ensures away ==> Add(l, r) == Zero
    ensures !away ==> r == l
  {
    if away then Neg(l) else l
  }

  /**
   * The four velocities `v` of a body after the warm-start impulses of
   * slot `i` of the warmed manifold `w` (ContactsContainer.cpp:250-262),
   * with the body's inverse mass `s` and inverse inertia `t`: body A's
   * linear, angular, pseudo and angular pseudo impulses, or (`away`) the
   * opposite ones about body B's own offset.
   */
  function SlotPushed(v: (Vector3, Vector3, Vector3, Vector3), w: Manifold, i: int, s: real, t: real, away: bool)
    : (u: (Vector3, Vector3, Vector3, Vector3))
    requires WellFormed(w) && 0 <= i < MAX_MANIFOLD_POINTS
    ensures u.0 == Add(v.0, Scale(Toward(LinearOf(w, i), away), s))
  {
    var q := w.info[i];
    if away then
      (Add(v.0, Scale(Neg(LinearOf(w, i)), s)),
       Add(v.1, Scale(AngularOf(w.pointB[i], -q.impulse, -q.impulseFriction), t)),
       Add(v.2, Scale(w.normal, -q.pseudoImpulse)),
       Add(v.3, Scale(w.pointB[i].rn, Turn(t, Opposite(q.pseudoImpulse)))))
    else
      (Add(v.0, Scale(LinearOf(w, i), s)),
       Add(v.1, Scale(AngularOf(w.pointA[i], q.impulse, q.impulseFriction), t)),
       Add(v.2, Scale(w.normal, q.pseudoImpulse)),
       Add(v.3, Scale(w.pointA[i].rn, Turn(t, q.pseudoImpulse))))
  }

  /**
   * The four velocities `v` of a body after the warm start has pushed them,
   * slot by slot, by the impulses of every matched slot among the first
   * `n` (`away`: the opposite impulses, as body B receives them).
   */
  function Pushed(v: (Vector3, Vector3, Vector3, Vector3), m: Manifold, w: Manifold, n: int, prev: Manifold,
                  found: bool, inv: bool, s: real, t: real, away: bool): (u: (Vector3, Vector3, Vector3, Vector3))
    requires WellFormed(m) && WellFormed(w) && WellFormed(prev) && 0 <= n <= MAX_MANIFOLD_POINTS
    ensures CountMatched(m, n, prev, found, inv) == 0 ==> u == v
  {
    if n == 0 then v
    else
      var u := Pushed(v, m, w, n - 1, prev, found, inv, s, t, away);
      if Matched(m, n - 1, prev, found, inv) >= 0 then SlotPushed(u, w, n - 1, s, t, away) else u
  }

  /**
   * Pushing slot by slot is pushing once by the whole sum: the linear
   * velocity gains the summed matched impulses (Handed), or their
   * opposite, over the mass.
   */
  lemma {:induction false} PushedSums(v: (Vector3, Vector3, Vector3, Vector3), m: Manifold, w: Manifold, n: int, prev: Manifold,
                                      found: bool, inv: bool, s: real, t: real, away: bool)
    requires WellFormed(m) && WellFormed(w) && WellFormed(prev) && 0 <= n <= MAX_MANIFOLD_POINTS
    ensures Pushed(v, m, w, n, prev, found, inv, s, t, away).0 == Add(v.0, Scale(Toward(Handed(m, w, n, prev, found, inv), away), s))
  {
    if n == 0 {
      Accumulates(v.0, Zero, Zero, s, away);
    } else {
      PushedSums(v, m, w, n - 1, prev, found, inv, s, t, away);
      if Matched(m, n - 1, prev, found, inv) >= 0 {
        Accumulates(v.0, Handed(m, w, n - 1, prev, found, inv), LinearOf(w, n - 1), s, away);
      }
    }
  }

  /**
   * The whole warm start of a manifold between two dynamic bodies keeps
   * their total linear momentum: the change of body A's linear velocity
   * times its mass and that of body B cancel.
   */
  lemma PushedBalanced(vA: (Vector3, Vector3, Vector3, Vector3), vB: (Vector3, Vector3, Vector3, Vector3), m: Manifold, w: Manifold,
                       prev: Manifold, found: bool, inv: bool, sA: real, tA: real, sB: real, tB: real)
    requires WellFormed(m) && WellFormed(w) && WellFormed(prev) && sA > 0.0 && sB > 0.0
    ensures var uA := Pushed(vA, m, w, m.countPoints, prev, found, inv, sA, tA, false);
            var uB := Pushed(vB, m, w, m.countPoints, prev, found, inv, sB, tB, true);
            Add(Scale(Sub(uA.0, vA.0), 1.0 / sA), Scale(Sub(uB.0, vB.0), 1.0 / sB)) == Zero
  {
    var h := Handed(m, w, m.countPoints, prev, found, inv);
    PushedSums(vA, m, w, m.countPoints, prev, found, inv, sA, tA, false);
    PushedSums(vB, m, w, m.countPoints, prev, found, inv, sB, tB, true);
    BalancedPushes(vA.0, vB.0, h, sA, sB);
  }

  /** Velocities pushed by `h` and by its opposite, over the two masses, change by momenta that cancel. */
  lemma BalancedPushes(vA: Vector3, vB: Vector3, h: Vector3, sA: real, sB: real)
    requires sA > 0.0 && sB > 0.0
    ensures Add(Scale(Sub(Add(vA, Scale(Toward(h, false), sA)), vA), 1.0 / sA),
                Scale(Sub(Add(vB, Scale(Toward(h, true), sB)), vB), 1.0 / sB)) == Zero
  {
    assert Sub(Add(vA, Scale(h, sA)), vA) == Scale(h, sA);
    assert Sub(Add(vB, Scale(Neg(h), sB)), vB) == Scale(Neg(h), sB);
    MomentumBalanced(h, sA, sB);
  }

  /**
   * Impulses applied one after the other add up: v + t*s + l*s == v + (t + l)*s,
   * for the impulses as either body receives them; pushing by nothing leaves v.
   */
  lemma Accumulates(v: Vector3, t: Vector3, l: Vector3, s: real, away: bool)
    ensures Add(Add(v, Scale(Toward(t, away), s)), Scale(Toward(l, away), s)) == Add(v, Scale(Toward(Add(t, l), away), s))
    ensures Add(v, Scale(Toward(Zero, away), s)) == v
  {
  }

  /** Warming slot `n` of the manifold warmed up to `n` gives the manifold warmed up to n + 1. */
  lemma WarmedStep(m: Manifold, n: int, prev: Manifold, found: bool, inv: bool)
    requires WellFormed(m) && WellFormed(prev) && 0 <= n < MAX_MANIFOLD_POINTS
    ensures var w := Warmed(m, n, prev, found, inv);
            w.(info := w.info[n := WarmInfo(w.info[n], prev, Matched(m, n, prev, found, inv), inv)])
            == Warmed(m, n + 1, prev, found, inv)
  {
    var w := Warmed(m, n, prev, found, inv);
    var u := w.(info := w.info[n := WarmInfo(w.info[n], prev, Matched(m, n, prev, found, inv), inv)]);
    assert u.info == Warmed(m, n + 1, prev, found, inv).info;
  }

  /**
   * The contact container (ContactsContainer.h:40-51): the candidate-point
   * buffer and its fill count, the previous and current manifold lists,
   * the two error-reduction factors and the warm-start counters.
   */
  class ContactsContainer {
    var temp: array<ContactPoint>
    var countTemp: int
    var prevManifolds: seq<Manifold>
    var manifolds: seq<Manifold>
    var erpA: real
    var erpB: real
    var usedPrev: int
    var notUsedPrev: int

    /** The buffer has its fixed size and a count within it; every manifold is well formed. */
    ghost predicate Valid()
      reads this`temp, this`countTemp, this`manifolds, this`prevManifolds
    {
      temp.Length == MAX_TEMP_POINTS && 0 <= countTemp <= MAX_TEMP_POINTS
      && AllWellFormed(manifolds) && AllWellFormed(prevManifolds)
    }

    /** ContactsContainer() (ContactsContainer.cpp:6-11). */
    constructor ()
      ensures Valid() && fresh(temp) && countTemp == 0
      ensures manifolds == [] && prevManifolds == []
      ensures erpA == 0.15 && erpB == 0.3 && usedPrev == 0 && notUsedPrev == 0
    {
      temp := new ContactPoint[MAX_TEMP_POINTS](_ => BlankPoint);
      countTemp := 0;
      manifolds, prevManifolds := [], [];
      erpA, erpB := 0.15, 0.3;
      usedPrev, notUsedPrev := 0, 0;
    }

    /** setERP (ContactsContainer.cpp:13-17). */
    method SetERP(a: real, b: real)
      modifies this`erpA, this`erpB
      ensures erpA == a && erpB == b
    {
      erpA, erpB := a, b;
    }

    /** clearCMPoints (ContactsContainer.cpp:19-22). */
    method ClearCMPoints()
      modifies this`countTemp
      ensures countTemp == 0
    {
      countTemp := 0;
    }

    /**
     * addContactManifold (ContactsContainer.cpp:24-41): one manifold is
     * appended, with no points, e = 1 + material.e and mu = material.mu,
     * and its index returned; with a dynamic body B the two bodies' groups
     * are merged and A's default group is woken.
     */
    method AddContactManifold(bodyA: int, bodyB: int, normal: Vector3, material: Material,
                              bodies: seq<Body>, groups: seq<CollisionGroup>)
      returns (index: int, groups': seq<CollisionGroup>)
      requires Valid() && 0 <= bodyA < |bodies| && 0 <= bodyB < |bodies|
      requires bodies[bodyA].defaultGroup < |groups|
      modifies this`manifolds, {bodies[bodyA]}`currentGroup, {bodies[bodyB]}`currentGroup
      ensures Valid() && index == old(|manifolds|) && |manifolds| == index + 1
      ensures manifolds == old(manifolds) + [Opened(bodyA, bodyB, normal, material, bodies[bodyB].IsDynamic())]
      ensures manifolds[index].countPoints == 0 && manifolds[index].e == 1.0 + material.e
      ensures manifolds[index].mu == material.mu
      ensures bodies[bodyB].IsDynamic() ==>
                bodies[bodyA].currentGroup == bodies[bodyB].currentGroup
                && groups' == groups[bodies[bodyA].defaultGroup := groups[bodies[bodyA].defaultGroup].(nonSleep := true)]
      ensures !bodies[bodyB].IsDynamic() ==>
                groups' == groups && bodies[bodyA].currentGroup == old(bodies[bodyA].currentGroup)
                && bodies[bodyB].currentGroup == old(bodies[bodyB].currentGroup)
    {
      var notStatB := bodies[bodyB].IsDynamic();
      manifolds := manifolds + [Opened(bodyA, bodyB, normal, material, notStatB)];
      index := |manifolds| - 1;
      groups' := groups;
      if notStatB {
        groups' := bodies[bodyA].MergeCollisionGroupAndAwake(bodies[bodyB], groups);
      }
    }

    /**
     * addContact (ContactsContainer.cpp:82-108): the manifold gains the
     * point (WithPoint), and the candidate comes back with its depth
     * adjusted as the source does to the referenced point.
     */
    method AddContact(nCM: int, cp: ContactPoint, xdt: real, bodies: seq<Body>, sqrt: real -> real)
      returns (cp': ContactPoint)
      requires Valid() && 0 <= nCM < |manifolds| && manifolds[nCM].countPoints < MAX_MANIFOLD_POINTS
      requires 0 <= manifolds[nCM].bodyA < |bodies| && 0 <= manifolds[nCM].bodyB < |bodies|
      modifies this`manifolds
      ensures Valid()
      ensures manifolds == old(manifolds[nCM := WithPoint(manifolds[nCM], cp, MotionOf(bodies[manifolds[nCM].bodyA]),
                                                         MotionOf(bodies[manifolds[nCM].bodyB]), erpA, erpB, xdt, sqrt)])
      ensures cp' == AdjustedPoint(cp, xdt)
    {
      var m := manifolds[nCM];
      manifolds := manifolds[nCM := WithPoint(m, cp, MotionOf(bodies[m.bodyA]), MotionOf(bodies[m.bodyB]), erpA, erpB, xdt, sqrt)];
      cp' := AdjustedPoint(cp, xdt);
    }

    /** addContact_static (ContactsContainer.cpp:110-128). */
    method AddContactStatic(nCM: int, p: Vector3, depth: real, xdt: real, bodies: seq<Body>, sqrt: real -> real)
      requires Valid() && 0 <= nCM < |manifolds| && manifolds[nCM].countPoints < MAX_MANIFOLD_POINTS
      requires 0 <= manifolds[nCM].bodyA < |bodies|
      modifies this`manifolds
      ensures Valid()
      ensures manifolds == old(manifolds[nCM := WithStaticPoint(manifolds[nCM], p, depth, MotionOf(bodies[manifolds[nCM].bodyA]),
                                                               erpA, erpB, xdt, sqrt)])
    {
      var m := manifolds[nCM];
      manifolds := manifolds[nCM := WithStaticPoint(m, p, depth, MotionOf(bodies[m.bodyA]), erpA, erpB, xdt, sqrt)];
    }

    /** addTempContactPoint (ContactsContainer.cpp:130-137): the next buffer slot gets both points, their midpoint and the depth. */
    method AddTempContactPoint(pointOnBodyA: Vector3, pointOnBodyB: Vector3, depth: real)
      requires Valid() && countTemp < MAX_TEMP_POINTS
      modifies this`countTemp, temp
      ensures Valid() && countTemp == old(countTemp) + 1
      ensures temp[..] == old(temp[..])[old(countTemp) := ContactPoint(pointOnBodyA, pointOnBodyB, Midpoint(pointOnBodyA, pointOnBodyB), depth)]
    {
      temp[countTemp] := ContactPoint(pointOnBodyA, pointOnBodyB, Midpoint(pointOnBodyA, pointOnBodyB), depth);
      countTemp := countTemp + 1;
    }

    /** addTempContactPoint_static (ContactsContainer.cpp:139-145): the slot's point on body B is left as it was. */
    method AddTempContactPointStatic(pointOnBodyA: Vector3, depth: real)
      requires Valid() && countTemp < MAX_TEMP_POINTS
      modifies this`countTemp, temp
      ensures Valid() && countTemp == old(countTemp) + 1
      ensures temp[..] == old(temp[..])[old(countTemp) := old(temp[countTemp]).(pointOnBodyA := pointOnBodyA, point := pointOnBodyA, depth := depth)]
    {
      temp[countTemp] := temp[countTemp].(pointOnBodyA := pointOnBodyA, point := pointOnBodyA, depth := depth);
      countTemp := countTemp + 1;
    }

    /** The extreme scan of optimizeContactPoints (ContactsContainer.cpp:159-182). */
    method Extremes(basis: Basis) returns (ids: seq<int>)
      requires Valid()
      ensures ids == ExtremeIds(temp[..], basis, countTemp)
    {
      ghost var ps := temp[..];
      var maxX, minX, maxY, minY := MIN_NUMBER, MAX_NUMBER, MIN_NUMBER, MAX_NUMBER;
      var iMaxX, iMinX, iMaxY, iMinY := -1, -1, -1, -1;
      var i := 0;
      while i < countTemp
        invariant 0 <= i <= countTemp
        invariant (iMaxX, maxX) == Extreme(ps, basis, 0, i) && (iMinX, minX) == Extreme(ps, basis, 1, i)
        invariant (iMaxY, maxY) == Extreme(ps, basis, 2, i) && (iMinY, minY) == Extreme(ps, basis, 3, i)
      {
        ExtremeStep(ps, basis, 0, i);
        ExtremeStep(ps, basis, 1, i);
        ExtremeStep(ps, basis, 2, i);
        ExtremeStep(ps, basis, 3, i);
        var s := Dot(temp[i].point, basis.normalX);
        iMaxX, maxX := Improve(0, s, i, iMaxX, maxX);
        iMinX, minX := Improve(1, s, i, iMinX, minX);
        s := Dot(temp[i].point, basis.normalY);
        iMaxY, maxY := Improve(2, s, i, iMaxY, maxY);
        iMinY, minY := Improve(3, s, i, iMinY, minY);
        i := i + 1;
      }
      ids := [iMaxX, iMinX, iMaxY, iMinY];
    }

    /**
     * optimizeContactPoints (ContactsContainer.cpp:147-195): with no
     * candidate the manifold just opened (the last one) is dropped; with up
     * to four every candidate is added in order; with more, the candidates
     * extreme along the two tangent axes are added, each once, in the order
     * max x, min x, max y, min y, a repeated one at its last slot.  Every
     * added candidate's depth is adjusted in the buffer.
     */
    method OptimizeContactPoints(nCM: int, normal: Vector3, xdt: real, bodies: seq<Body>, sqrt: real -> real)
      returns (kept: bool, ghost picked: seq<int>)
      requires Valid() && 0 <= nCM < |manifolds| && manifolds[nCM].countPoints == 0
      requires countTemp == 0 ==> nCM == |manifolds| - 1
      requires 0 <= manifolds[nCM].bodyA < |bodies| && 0 <= manifolds[nCM].bodyB < |bodies|
      modifies this`manifolds, temp
      ensures Valid() && (kept <==> countTemp > 0)
      ensures !kept ==> manifolds == old(manifolds[..|manifolds| - 1]) && temp[..] == old(temp[..])
      ensures countTemp <= 4 ==> picked == Upto(countTemp)
      ensures countTemp > 4 ==> picked == Chosen(ExtremeIds(old(temp[..]), CreateNormal12(normal), countTemp), 4)
      ensures kept ==> (forall k :: 0 <= k < |picked| ==> 0 <= picked[k] < countTemp)
                       && manifolds == old(manifolds)[nCM := WithPoints(old(manifolds[nCM]), Pick(old(temp[..]), picked),
                                                                       MotionOf(bodies[old(manifolds[nCM].bodyA)]),
                                                                       MotionOf(bodies[old(manifolds[nCM].bodyB)]),
                                                                       erpA, erpB, xdt, sqrt)]
                       && temp[..] == AdjustedAt(old(temp[..]), picked, xdt)
    {
      if countTemp == 0 {
        manifolds := manifolds[..|manifolds| - 1];
        return false, [];
      }
      kept := true;
      if countTemp < 5 {
        picked := Upto(countTemp);
        AddAll(nCM, xdt, bodies, sqrt);
      } else {
        var ids := Extremes(CreateNormal12(normal));
        picked := Chosen(ids, 4);
        AddExtremes(nCM, ids, xdt, bodies, sqrt);
      }
    }

    /** The small case of optimizeContactPoints (ContactsContainer.cpp:151-154): all candidates, in order. */
    method AddAll(nCM: int, xdt: real, bodies: seq<Body>, sqrt: real -> real)
      requires Valid() && 0 <= nCM < |manifolds| && manifolds[nCM].countPoints == 0 && countTemp <= MAX_MANIFOLD_POINTS
      requires 0 <= manifolds[nCM].bodyA < |bodies| && 0 <= manifolds[nCM].bodyB < |bodies|
      modifies this`manifolds, temp
      ensures Valid()
      ensures manifolds == old(manifolds)[nCM := WithPoints(old(manifolds[nCM]), Pick(old(temp[..]), Upto(countTemp)),
                                                           MotionOf(bodies[old(manifolds[nCM].bodyA)]),
                                                           MotionOf(bodies[old(manifolds[nCM].bodyB)]),
                                                           erpA, erpB, xdt, sqrt)]
      ensures temp[..] == AdjustedAt(old(temp[..]), Upto(countTemp), xdt)
    {
      ghost var m0 := manifolds[nCM];
      ghost var ps := temp[..];
      ghost var a, b := MotionOf(bodies[m0.bodyA]), MotionOf(bodies[m0.bodyB]);
      assert Pick(ps, Upto(0)) == [] && AdjustedAt(ps, Upto(0), xdt) == ps;
      assert manifolds == manifolds[nCM := WithPoints(m0, Pick(ps, Upto(0)), a, b, erpA, erpB, xdt, sqrt)];
      AddEach(nCM, manifolds, m0, ps, a, b, xdt, bodies, sqrt);
    }

    /** The loop of AddAll: candidate after candidate joins the manifold, from the manifolds `ms`. */
    method AddEach(nCM: int, ghost ms: seq<Manifold>, ghost m0: Manifold, ghost ps: seq<ContactPoint>,
                   ghost a: Motion, ghost b: Motion, xdt: real, bodies: seq<Body>, sqrt: real -> real)
      requires Valid() && 0 <= nCM < |manifolds| == |ms| && countTemp <= MAX_MANIFOLD_POINTS
      requires |ps| == temp.Length && WellFormed(m0) && m0.countPoints == 0
      requires 0 <= m0.bodyA < |bodies| && 0 <= m0.bodyB < |bodies|
      requires a == MotionOf(bodies[m0.bodyA]) && b == MotionOf(bodies[m0.bodyB])
      requires manifolds == ms[nCM := WithPoints(m0, Pick(ps, Upto(0)), a, b, erpA, erpB, xdt, sqrt)]
      requires temp[..] == AdjustedAt(ps, Upto(0), xdt)
      modifies this`manifolds, temp
      ensures Valid()
      ensures manifolds == ms[nCM := WithPoints(m0, Pick(ps, Upto(countTemp)), a, b, erpA, erpB, xdt, sqrt)]
      ensures temp[..] == AdjustedAt(ps, Upto(countTemp), xdt)
    {
      var k := 0;
      while k < countTemp
        invariant 0 <= k <= countTemp && Valid() && |manifolds| == |ms|
        invariant manifolds == ms[nCM := WithPoints(m0, Pick(ps, Upto(k)), a, b, erpA, erpB, xdt, sqrt)]
        invariant temp[..] == AdjustedAt(ps, Upto(k), xdt)
      {
        AddNext(nCM, k, m0, ps, a, b, xdt, bodies, sqrt);
        k := k + 1;
      }
    }

    /** Step `k` of the small case: candidate `k` follows the `k` before it. */
    method AddNext(nCM: int, k: int, ghost m0: Manifold, ghost ps: seq<ContactPoint>,
                   ghost a: Motion, ghost b: Motion, xdt: real, bodies: seq<Body>, sqrt: real -> real)
      requires Valid() && 0 <= nCM < |manifolds| && 0 <= k < countTemp <= MAX_MANIFOLD_POINTS
      requires |ps| == temp.Length && WellFormed(m0) && m0.countPoints == 0
      requires 0 <= m0.bodyA < |bodies| && 0 <= m0.bodyB < |bodies|
      requires a == MotionOf(bodies[m0.bodyA]) && b == MotionOf(bodies[m0.bodyB])
      requires manifolds[nCM] == WithPoints(m0, Pick(ps, Upto(k)), a, b, erpA, erpB, xdt, sqrt)
      requires temp[..] == AdjustedAt(ps, Upto(k), xdt)
      modifies this`manifolds, temp
      ensures Valid()
      ensures manifolds == old(manifolds)[nCM := WithPoints(m0, Pick(ps, Upto(k + 1)), a, b, erpA, erpB, xdt, sqrt)]
      ensures temp[..] == AdjustedAt(ps, Upto(k + 1), xdt)
    {
      assert Upto(k + 1) == Upto(k) + [k];
      AddCandidate(nCM, k, Upto(k), m0, ps, a, b, xdt, bodies, sqrt);
    }

    /** The large case of optimizeContactPoints (ContactsContainer.cpp:183-193): each extreme once, at its last slot. */
    method AddExtremes(nCM: int, ids: seq<int>, xdt: real, bodies: seq<Body>, sqrt: real -> real)
      requires Valid() && 0 <= nCM < |manifolds| && manifolds[nCM].countPoints == 0
      requires |ids| == 4 && forall x :: x in ids ==> x < countTemp
      requires 0 <= manifolds[nCM].bodyA < |bodies| && 0 <= manifolds[nCM].bodyB < |bodies|
      modifies this`manifolds, temp
      ensures Valid()
      ensures manifolds == old(manifolds)[nCM := WithPoints(old(manifolds[nCM]), Pick(old(temp[..]), Chosen(ids, 4)),
                                                           MotionOf(bodies[old(manifolds[nCM].bodyA)]),
                                                           MotionOf(bodies[old(manifolds[nCM].bodyB)]),
                                                           erpA, erpB, xdt, sqrt)]
      ensures temp[..] == AdjustedAt(old(temp[..]), Chosen(ids, 4), xdt)
    {
      ghost var m0 := manifolds[nCM];
      ghost var ps := temp[..];
      ghost var a, b := MotionOf(bodies[m0.bodyA]), MotionOf(bodies[m0.bodyB]);
      assert Chosen(ids, 0) == [];
      assert Pick(ps, []) == [] && AdjustedAt(ps, [], xdt) == ps;
      var i := 0;
      while i < 4
        invariant 0 <= i <= 4 && Valid()
        invariant manifolds == old(manifolds)[nCM := WithPoints(m0, Pick(ps, Chosen(ids, i)), a, b, erpA, erpB, xdt, sqrt)]
        invariant temp[..] == AdjustedAt(ps, Chosen(ids, i), xdt)
      {
        AddSlot(nCM, ids, i, m0, ps, a, b, xdt, bodies, sqrt);
        i := i + 1;
      }
    }

    /** Slot `i` of the large case: its extreme is added when no later slot holds the same one (ContactsContainer.cpp:184-192). */
    method AddSlot(nCM: int, ids: seq<int>, i: int, ghost m0: Manifold, ghost ps: seq<ContactPoint>,
                   ghost a: Motion, ghost b: Motion, xdt: real, bodies: seq<Body>, sqrt: real -> real)
      requires Valid() && 0 <= nCM < |manifolds| && |ids| == 4 && 0 <= i < 4
      requires forall x :: x in ids ==> x < countTemp
      requires |ps| == temp.Length && WellFormed(m0) && m0.countPoints == 0
      requires 0 <= m0.bodyA < |bodies| && 0 <= m0.bodyB < |bodies|
      requires a == MotionOf(bodies[m0.bodyA]) && b == MotionOf(bodies[m0.bodyB])
      requires manifolds[nCM] == WithPoints(m0, Pick(ps, Chosen(ids, i)), a, b, erpA, erpB, xdt, sqrt)
      requires temp[..] == AdjustedAt(ps, Chosen(ids, i), xdt)
      modifies this`manifolds, temp
      ensures Valid()
      ensures manifolds == old(manifolds)[nCM := WithPoints(m0, Pick(ps, Chosen(ids, i + 1)), a, b, erpA, erpB, xdt, sqrt)]
      ensures temp[..] == AdjustedAt(ps, Chosen(ids, i + 1), xdt)
    {
      if Keep(ids, i) {
        assert Chosen(ids, i + 1) == Chosen(ids, i) + [ids[i]];
        AddCandidate(nCM, ids[i], Chosen(ids, i), m0, ps, a, b, xdt, bodies, sqrt);
      } else {
        assert Chosen(ids, i + 1) == Chosen(ids, i);
        assert manifolds == old(manifolds)[nCM := manifolds[nCM]];
      }
    }

    /**
     * One addContact call of optimizeContactPoints: candidate `k`, not
     * added before, joins the manifold holding the candidates `done`, and
     * its depth is adjusted in the buffer.
     */
    method AddCandidate(nCM: int, k: int, ghost done: seq<int>, ghost m0: Manifold, ghost ps: seq<ContactPoint>,
                        ghost a: Motion, ghost b: Motion, xdt: real, bodies: seq<Body>, sqrt: real -> real)
      requires Valid() && 0 <= nCM < |manifolds| && 0 <= k < countTemp && k !in done
      requires |ps| == temp.Length && (forall x :: x in done ==> 0 <= x < |ps|)
      requires WellFormed(m0) && m0.countPoints + |done| < MAX_MANIFOLD_POINTS
      requires 0 <= m0.bodyA < |bodies| && 0 <= m0.bodyB < |bodies|
      requires a == MotionOf(bodies[m0.bodyA]) && b == MotionOf(bodies[m0.bodyB])
      requires manifolds[nCM] == WithPoints(m0, Pick(ps, done), a, b, erpA, erpB, xdt, sqrt)
      requires temp[..] == AdjustedAt(ps, done, xdt)
      modifies this`manifolds, temp
      ensures Valid()
      ensures manifolds == old(manifolds)[nCM := WithPoints(m0, Pick(ps, done + [k]), a, b, erpA, erpB, xdt, sqrt)]
      ensures temp[..] == AdjustedAt(ps, done + [k], xdt)
    {
      assert temp[k] == ps[k];
      PickSnoc(ps, done, k);
      WithPointsSnoc(m0, Pick(ps, done), ps[k], a, b, erpA, erpB, xdt, sqrt);
      AdjustedAtSnoc(ps, done, k, xdt);
      var cp := AddContact(nCM, temp[k], xdt, bodies, sqrt);
      temp[k] := cp;
    }

    /**
     * The exchange of compareContacts when only body A is static
     * (ContactsContainer.cpp:208-221): the bodies trade places, the used
     * slots' point records are swapped with r x n and r x binormal negated,
     * and the normal is reversed.
     */
    method SwapSlots(nCM: int)
      requires Valid() && 0 <= nCM < |manifolds|
      modifies this`manifolds
      ensures Valid()
      ensures manifolds == old(manifolds)[nCM := Swapped(old(manifolds[nCM]))]
    {
      var cm := manifolds[nCM];
      ghost var m := cm;
      cm := cm.(bodyA := cm.bodyB, bodyB := cm.bodyA);
      var i := 0;
      while i < cm.countPoints
        invariant 0 <= i <= m.countPoints && WellFormed(cm)
        invariant cm.(pointA := m.pointA, pointB := m.pointB) == m.(bodyA := m.bodyB, bodyB := m.bodyA)
        invariant forall k :: 0 <= k < MAX_MANIFOLD_POINTS ==>
                    cm.pointA[k] == (if k < i then Flipped(m.pointB[k]) else m.pointA[k])
                    && cm.pointB[k] == (if k < i then Flipped(m.pointA[k]) else m.pointB[k])
      {
        var t := cm.pointA[i];
        cm := cm.(pointA := cm.pointA[i := Flipped(cm.pointB[i])], pointB := cm.pointB[i := Flipped(t)]);
        i := i + 1;
      }
      cm := cm.(normal := Neg(cm.normal));
      assert cm.pointA == Swapped(m).pointA && cm.pointB == Swapped(m).pointB;
      manifolds := manifolds[nCM := cm];
    }

    /**
     * The head of compareContacts as evidently intended: the manifold is
     * ordered (Ordered), the locals name its bodies afterwards, and both
     * bodies record the manifold.
     */
    method OrderBodies(nCM: int, bodies: seq<Body>) returns (a: int, b: int)
      requires Valid() && 0 <= nCM < |manifolds|
      requires 0 <= manifolds[nCM].bodyA < |bodies| && 0 <= manifolds[nCM].bodyB < |bodies|
      requires bodies[manifolds[nCM].bodyA] != bodies[manifolds[nCM].bodyB]
      modifies this`manifolds, {bodies[manifolds[nCM].bodyA], bodies[manifolds[nCM].bodyB]}`contacts
      ensures Valid()
      ensures manifolds == old(manifolds)[nCM := Ordered(old(manifolds[nCM]), old(bodies[manifolds[nCM].bodyA].IsStatic()),
                                                        old(bodies[manifolds[nCM].bodyB].IsStatic()))]
      ensures a == manifolds[nCM].bodyA && b == manifolds[nCM].bodyB
      ensures {a, b} == old({manifolds[nCM].bodyA, manifolds[nCM].bodyB})
      ensures bodies[a].contacts == old(bodies[a].contacts) + [nCM]
      ensures bodies[b].contacts == old(bodies[b].contacts) + [nCM]
    {
      var m := manifolds[nCM];
      a, b := m.bodyA, m.bodyB;
      if bodies[b].IsStatic() {
        manifolds := manifolds[nCM := m.(notStatB := false)];
      } else if bodies[a].IsStatic() {
        SwapSlots(nCM);
        manifolds := manifolds[nCM := manifolds[nCM].(notStatB := false)];
        a, b := b, a;
      } else {
        manifolds := manifolds[nCM := m.(notStatB := true)];
      }
      bodies[a].AddContact(nCM);
      bodies[b].AddContact(nCM);
    }

    /**
     * The head of compareContacts as written (ContactsContainer.cpp:203-227):
     * the manifold is ordered the same way, but when only body A is static
     * both locals end up naming the old body A (LocalsAsWritten), so that
     * static body records the manifold twice and the dynamic one not at all.
     */
    method OrderBodiesAsWritten(nCM: int, bodies: seq<Body>) returns (a: int, b: int)
      requires Valid() && 0 <= nCM < |manifolds|
      requires 0 <= manifolds[nCM].bodyA < |bodies| && 0 <= manifolds[nCM].bodyB < |bodies|
      requires bodies[manifolds[nCM].bodyA] != bodies[manifolds[nCM].bodyB]
      modifies this`manifolds, {bodies[manifolds[nCM].bodyA], bodies[manifolds[nCM].bodyB]}`contacts
      ensures Valid()
      ensures manifolds == old(manifolds)[nCM := Ordered(old(manifolds[nCM]), old(bodies[manifolds[nCM].bodyA].IsStatic()),
                                                        old(bodies[manifolds[nCM].bodyB].IsStatic()))]
      ensures (a, b) == LocalsAsWritten(old(manifolds[nCM]), old(bodies[manifolds[nCM].bodyA].IsStatic()),
                                        old(bodies[manifolds[nCM].bodyB].IsStatic()))
      ensures a == b ==> bodies[a].contacts == old(bodies[a].contacts) + [nCM, nCM]
                         && bodies[old(manifolds[nCM].bodyB)].contacts == old(bodies[manifolds[nCM].bodyB].contacts)
      ensures a != b ==> bodies[a].contacts == old(bodies[a].contacts) + [nCM] && bodies[b].contacts == old(bodies[b].contacts) + [nCM]
    {
      var m := manifolds[nCM];
      a, b := m.bodyA, m.bodyB;
      if bodies[b].IsStatic() {
        manifolds := manifolds[nCM := m.(notStatB := false)];
      } else if bodies[a].IsStatic() {
        SwapSlots(nCM);
        manifolds := manifolds[nCM := manifolds[nCM].(notStatB := false)];
        b := a;
      } else {
        manifolds := manifolds[nCM := m.(notStatB := true)];
      }
      bodies[a].AddContact(nCM);
      bodies[b].AddContact(nCM);
    }

    /** The search for the previous manifold of the same pair in body A's previous list (ContactsContainer.cpp:228-238). */
    method FindPrev(bodyA: Body, b: int) returns (prevCM: int, inv: bool)
      requires PrevBelow(bodyA.prevContacts, |prevManifolds|)
      ensures var r := PrevMatch(bodyA.prevContacts, prevManifolds, b);
              (r.None? ==> prevCM == -1 && !inv) && (r.Some? ==> (prevCM, inv) == r.value)
    {
      var ids := bodyA.prevContacts;
      prevCM, inv := -1, false;
      var i := 0;
      while i < |ids|
        invariant 0 <= i <= |ids|
        invariant PrevMatch(ids, prevManifolds, b) == PrevMatch(ids[i..], prevManifolds, b)
      {
        assert ids[i..][1..] == ids[i + 1..];
        if prevManifolds[ids[i]].bodyB == b {
          prevCM, inv := ids[i], false;
          return;
        } else if prevManifolds[ids[i]].bodyA == b {
          prevCM, inv := ids[i], true;
          return;
        }
        i := i + 1;
      }
    }

    /**
     * Slot `i` of the warm start (ContactsContainer.cpp:242-275, 278-309,
     * 312-317): the slot takes the impulses of the previous point it
     * matches, or zero, and a matched slot's impulses are applied to the
     * bodies at once.
     */
    method WarmSlot(nCM: int, i: int, prev: Manifold, found: bool, inv: bool, bodyA: Body, bodyB: Body, ghost m: Manifold)
      returns (matched: bool)
      requires Valid() && 0 <= nCM < |manifolds| && WellFormed(m) && WellFormed(prev) && 0 <= i < m.countPoints
      requires bodyA != bodyB && manifolds[nCM] == Warmed(m, i, prev, found, inv)
      modifies this`manifolds
      modifies bodyA`velocity, bodyA`angularVelocity, bodyA`pseudoVelocity, bodyA`pseudoAngularVelocity
      modifies bodyB`velocity, bodyB`angularVelocity, bodyB`pseudoVelocity, bodyB`pseudoAngularVelocity
      ensures Valid()
      ensures manifolds == old(manifolds)[nCM := Warmed(m, i + 1, prev, found, inv)]
      ensures matched <==> Matched(m, i, prev, found, inv) >= 0
      ensures var w := Warmed(m, m.countPoints, prev, found, inv);
              Velocities(bodyA) == if matched then SlotPushed(old(Velocities(bodyA)), w, i, bodyA.invMass, bodyA.invInertia, false)
                                   else old(Velocities(bodyA))
      ensures var w := Warmed(m, m.countPoints, prev, found, inv);
              Velocities(bodyB) == if matched && m.notStatB then SlotPushed(old(Velocities(bodyB)), w, i, bodyB.invMass, bodyB.invInertia, true)
                                   else old(Velocities(bodyB))
    {
      var cm := manifolds[nCM];
      var j := -1;
      if found {
        j := MatchIn(cm.pointA[i].r, prev, inv);
      }
      WarmedStep(m, i, prev, found, inv);
      cm := cm.(info := cm.info[i := WarmInfo(cm.info[i], prev, j, inv)]);
      manifolds := manifolds[nCM := cm];
      matched := j >= 0;
      if matched {
        WarmPoint(cm, i, bodyA, bodyB);
      }
    }

    /**
     * The state of the warm start after its first `i` slots, against the
     * manifolds `ms`, the counters `u0`, `n0` and the velocities `vA`, `vB`
     * it started from: slot by slot warmed, counted and pushed.
     */
    ghost predicate WarmedUpTo(i: int, nCM: int, prev: Manifold, found: bool, inv: bool, bodyA: Body, bodyB: Body,
                               m: Manifold, w: Manifold, ms: seq<Manifold>, u0: int, n0: int,
                               vA: (Vector3, Vector3, Vector3, Vector3), vB: (Vector3, Vector3, Vector3, Vector3))
      reads this, bodyA, bodyB
    {
      WellFormed(m) && WellFormed(w) && WellFormed(prev) && 0 <= i <= m.countPoints && 0 <= nCM < |ms|
      && Valid() && manifolds == ms[nCM := Warmed(m, i, prev, found, inv)]
      && usedPrev == u0 + CountMatched(m, i, prev, found, inv)
      && notUsedPrev == n0 + i - CountMatched(m, i, prev, found, inv)
      && Velocities(bodyA) == Pushed(vA, m, w, i, prev, found, inv, bodyA.invMass, bodyA.invInertia, false)
      && (m.notStatB ==> Velocities(bodyB) == Pushed(vB, m, w, i, prev, found, inv, bodyB.invMass, bodyB.invInertia, true))
    }

    /**
     * One pass of the warm-start loop: slot `i` is warmed, and the counters
     * and the velocities move from the sums over the first `i` slots to the
     * sums over the first i + 1.
     */
    method WarmNext(nCM: int, i: int, prev: Manifold, found: bool, inv: bool, bodyA: Body, bodyB: Body, ghost m: Manifold,
                    ghost w: Manifold, ghost ms: seq<Manifold>, ghost u0: int, ghost n0: int,
                    ghost vA: (Vector3, Vector3, Vector3, Vector3), ghost vB: (Vector3, Vector3, Vector3, Vector3))
      requires WarmedUpTo(i, nCM, prev, found, inv, bodyA, bodyB, m, w, ms, u0, n0, vA, vB)
      requires i < m.countPoints && bodyA != bodyB && w == Warmed(m, m.countPoints, prev, found, inv)
      modifies this`manifolds, this`usedPrev, this`notUsedPrev
      modifies bodyA`velocity, bodyA`angularVelocity, bodyA`pseudoVelocity, bodyA`pseudoAngularVelocity
      modifies bodyB`velocity, bodyB`angularVelocity, bodyB`pseudoVelocity, bodyB`pseudoAngularVelocity
      ensures WarmedUpTo(i + 1, nCM, prev, found, inv, bodyA, bodyB, m, w, ms, u0, n0, vA, vB)
      ensures !m.notStatB ==> Velocities(bodyB) == old(Velocities(bodyB))
    {
      var matched := WarmSlot(nCM, i, prev, found, inv, bodyA, bodyB, m);
      if matched {
        usedPrev := usedPrev + 1;
      } else {
        notUsedPrev := notUsedPrev + 1;
      }
    }

    /** The loop of the warm start, from the state after no slot to the state after every used slot. */
    method WarmSlots(nCM: int, prev: Manifold, found: bool, inv: bool, bodyA: Body, bodyB: Body, ghost m: Manifold,
                     ghost w: Manifold, ghost ms: seq<Manifold>, ghost u0: int, ghost n0: int,
                    ghost vA: (Vector3, Vector3, Vector3, Vector3), ghost vB: (Vector3, Vector3, Vector3, Vector3))
      requires WarmedUpTo(0, nCM, prev, found, inv, bodyA, bodyB, m, w, ms, u0, n0, vA, vB)
      requires bodyA != bodyB && w == Warmed(m, m.countPoints, prev, found, inv)
      modifies this`manifolds, this`usedPrev, this`notUsedPrev
      modifies bodyA`velocity, bodyA`angularVelocity, bodyA`pseudoVelocity, bodyA`pseudoAngularVelocity
      modifies bodyB`velocity, bodyB`angularVelocity, bodyB`pseudoVelocity, bodyB`pseudoAngularVelocity
      ensures WarmedUpTo(m.countPoints, nCM, prev, found, inv, bodyA, bodyB, m, w, ms, u0, n0, vA, vB)
      ensures !m.notStatB ==> Velocities(bodyB) == old(Velocities(bodyB))
    {
      var count := manifolds[nCM].countPoints;
      var i := 0;
      while i < count
        invariant i <= count == m.countPoints
        invariant WarmedUpTo(i, nCM, prev, found, inv, bodyA, bodyB, m, w, ms, u0, n0, vA, vB)
        invariant !m.notStatB ==> Velocities(bodyB) == old(Velocities(bodyB))
      {
        WarmNext(nCM, i, prev, found, inv, bodyA, bodyB, m, w, ms, u0, n0, vA, vB);
        i := i + 1;
      }
    }

    /**
     * The warm start of compareContacts (ContactsContainer.cpp:239-318):
     * every used slot takes its impulses from the previous manifold `prev`
     * (when `found`), the counters grow by the matched and the unmatched
     * slots, and body A's velocity is pushed by every matched linear
     * impulse over its mass, body B's by the opposite impulses when it is
     * dynamic (PushedSums: by the summed impulse); a static body B is left
     * untouched.
     */
    method WarmStart(nCM: int, prev: Manifold, found: bool, inv: bool, bodyA: Body, bodyB: Body)
      requires Valid() && 0 <= nCM < |manifolds| && WellFormed(prev) && bodyA != bodyB
      modifies this`manifolds, this`usedPrev, this`notUsedPrev
      modifies bodyA`velocity, bodyA`angularVelocity, bodyA`pseudoVelocity, bodyA`pseudoAngularVelocity
      modifies bodyB`velocity, bodyB`angularVelocity, bodyB`pseudoVelocity, bodyB`pseudoAngularVelocity
      ensures Valid()
      ensures var m := old(manifolds[nCM]);
              var w := Warmed(m, m.countPoints, prev, found, inv);
              manifolds == old(manifolds)[nCM := w]
              && usedPrev == old(usedPrev) + CountMatched(m, m.countPoints, prev, found, inv)
              && notUsedPrev == old(notUsedPrev) + m.countPoints - CountMatched(m, m.countPoints, prev, found, inv)
              && Velocities(bodyA) == Pushed(old(Velocities(bodyA)), m, w, m.countPoints, prev, found, inv, bodyA.invMass, bodyA.invInertia, false)
              && Velocities(bodyB) == if m.notStatB then Pushed(old(Velocities(bodyB)), m, w, m.countPoints, prev, found, inv, bodyB.invMass, bodyB.invInertia, true)
                                      else old(Velocities(bodyB))
    {
      ghost var m := manifolds[nCM];
      ghost var w := Warmed(m, m.countPoints, prev, found, inv);
      ghost var ms, u0, n0, vA, vB := manifolds, usedPrev, notUsedPrev, Velocities(bodyA), Velocities(bodyB);
      assert Warmed(m, 0, prev, found, inv) == m by {
        assert Warmed(m, 0, prev, found, inv).info == m.info;
      }
      WarmSlots(nCM, prev, found, inv, bodyA, bodyB, m, w, ms, u0, n0, vA, vB);
      assert old(manifolds[nCM]) == m && old(usedPrev) == u0 && old(notUsedPrev) == n0
             && old(Velocities(bodyA)) == vA && old(Velocities(bodyB)) == vB;
    }

    /**
     * The second half of compareContacts (ContactsContainer.cpp:215-318):
     * the previous manifold of the pair is looked up in body A's previous
     * list and the warm start runs against it.
     */
    method WarmFromPrevious(nCM: int, bodyA: Body, bodyB: Body)
      requires Valid() && 0 <= nCM < |manifolds| && bodyA != bodyB
      requires PrevBelow(bodyA.prevContacts, |prevManifolds|)
      modifies this`manifolds, this`usedPrev, this`notUsedPrev
      modifies bodyA`velocity, bodyA`angularVelocity, bodyA`pseudoVelocity, bodyA`pseudoAngularVelocity
      modifies bodyB`velocity, bodyB`angularVelocity, bodyB`pseudoVelocity, bodyB`pseudoAngularVelocity
      ensures Valid()
      ensures var m := old(manifolds[nCM]);
              var (prev, found, inv) := PrevFound(bodyA.prevContacts, prevManifolds, m.bodyB);
              var w := Warmed(m, m.countPoints, prev, found, inv);
              manifolds == old(manifolds)[nCM := w]
              && usedPrev == old(usedPrev) + CountMatched(m, m.countPoints, prev, found, inv)
              && notUsedPrev == old(notUsedPrev) + m.countPoints - CountMatched(m, m.countPoints, prev, found, inv)
              && Velocities(bodyA) == Pushed(old(Velocities(bodyA)), m, w, m.countPoints, prev, found, inv, bodyA.invMass, bodyA.invInertia, false)
              && Velocities(bodyB) == if m.notStatB then Pushed(old(Velocities(bodyB)), m, w, m.countPoints, prev, found, inv, bodyB.invMass, bodyB.invInertia, true)
                                      else old(Velocities(bodyB))
    {
      var prevCM, inv := FindPrev(bodyA, manifolds[nCM].bodyB);
      var prev := PrevOr(prevManifolds, prevCM);
      WarmStart(nCM, prev, prevCM >= 0, inv, bodyA, bodyB);
    }

    /**
     * compareContacts (ContactsContainer.cpp:197-319), with the locals as
     * evidently intended: the manifold is ordered, both bodies record it,
     * and the warm start runs against the previous manifold of the pair
     * found in the new body A's previous list.
     */
    method CompareContacts(nCM: int, bodies: seq<Body>)
      requires Valid() && 0 <= nCM < |manifolds|
      requires 0 <= manifolds[nCM].bodyA < |bodies| && 0 <= manifolds[nCM].bodyB < |bodies|
      requires bodies[manifolds[nCM].bodyA] != bodies[manifolds[nCM].bodyB]
      requires PrevBelow(bodies[manifolds[nCM].bodyA].prevContacts, |prevManifolds|)
      requires PrevBelow(bodies[manifolds[nCM].bodyB].prevContacts, |prevManifolds|)
      modifies this`manifolds, this`usedPrev, this`notUsedPrev
      modifies {bodies[manifolds[nCM].bodyA], bodies[manifolds[nCM].bodyB]}`contacts
      modifies {bodies[manifolds[nCM].bodyA], bodies[manifolds[nCM].bodyB]}`velocity
      modifies {bodies[manifolds[nCM].bodyA], bodies[manifolds[nCM].bodyB]}`angularVelocity
      modifies {bodies[manifolds[nCM].bodyA], bodies[manifolds[nCM].bodyB]}`pseudoVelocity
      modifies {bodies[manifolds[nCM].bodyA], bodies[manifolds[nCM].bodyB]}`pseudoAngularVelocity
      ensures Valid()
      ensures var o := Ordered(old(manifolds[nCM]), old(bodies[manifolds[nCM].bodyA].IsStatic()),
                               old(bodies[manifolds[nCM].bodyB].IsStatic()));
              var (prev, found, inv) := PrevFound(bodies[o.bodyA].prevContacts, prevManifolds, o.bodyB);
              manifolds == old(manifolds)[nCM := Warmed(o, o.countPoints, prev, found, inv)]
              && usedPrev == old(usedPrev) + CountMatched(o, o.countPoints, prev, found, inv)
              && notUsedPrev == old(notUsedPrev) + o.countPoints - CountMatched(o, o.countPoints, prev, found, inv)
              && bodies[o.bodyA].contacts == old(bodies[o.bodyA].contacts) + [nCM]
              && bodies[o.bodyB].contacts == old(bodies[o.bodyB].contacts) + [nCM]
      ensures var o := Ordered(old(manifolds[nCM]), old(bodies[manifolds[nCM].bodyA].IsStatic()),
                               old(bodies[manifolds[nCM].bodyB].IsStatic()));
              var (prev, found, inv) := PrevFound(bodies[o.bodyA].prevContacts, prevManifolds, o.bodyB);
              var w := Warmed(o, o.countPoints, prev, found, inv);
              var (bodyA, bodyB) := (bodies[o.bodyA], bodies[o.bodyB]);
              Velocities(bodyA) == Pushed(old(Velocities(bodyA)), o, w, o.countPoints, prev, found, inv, bodyA.invMass, bodyA.invInertia, false)
              && Velocities(bodyB) == if o.notStatB then Pushed(old(Velocities(bodyB)), o, w, o.countPoints, prev, found, inv, bodyB.invMass, bodyB.invInertia, true)
                                      else old(Velocities(bodyB))
    {
      var a, b := OrderBodies(nCM, bodies);
      WarmFromPrevious(nCM, bodies[a], bodies[b]);
    }

    /** deleteAllContacts (ContactsContainer.cpp:321-327): the current manifolds become the previous ones, and the counters restart. */
    method DeleteAllContacts()
      requires Valid()
      modifies this`manifolds, this`prevManifolds, this`usedPrev, this`notUsedPrev
      ensures Valid()
      ensures prevManifolds == old(manifolds) && manifolds == [] && usedPrev == 0 && notUsedPrev == 0
    {
      manifolds, prevManifolds := prevManifolds, manifolds;
      manifolds := [];
      usedPrev, notUsedPrev := 0, 0;
    }

    /**
     * updateCollisionGroups (ContactsContainer.cpp:339-343): the bodies of
     * every manifold, in order, merge their collision groups, so the
     * current groups end as MergeFold says.
     */
    method UpdateCollisionGroups(bodies: seq<Body>)
      requires BodiesBelow(manifolds, |bodies|) && DistinctBodies(bodies)
      modifies Objects(bodies)`currentGroup
      ensures Indices(bodies) == old(Indices(bodies))
      ensures CurrentGroups(bodies) == MergeFold(old(CurrentGroups(bodies)), Indices(bodies), manifolds)
    {
      ghost var cur, idx := CurrentGroups(bodies), Indices(bodies);
      var i := 0;
      while i < |manifolds|
        invariant 0 <= i <= |manifolds| && Indices(bodies) == idx
        invariant CurrentGroups(bodies) == MergeFold(cur, idx, manifolds[..i])
      {
        MergePair(bodies, manifolds[i].bodyA, manifolds[i].bodyB);
        assert manifolds[..i + 1][..i] == manifolds[..i];
        i := i + 1;
      }
      assert manifolds[..i] == manifolds;
    }
  }
}
