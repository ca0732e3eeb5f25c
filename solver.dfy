/**
 * The sequential-impulse solver (Solver.cpp): per contact point, an
 * accumulated normal impulse clamped at zero, a friction impulse clamped to
 * the Coulomb cone, and a split pseudo-impulse clamped at zero; per step,
 * one preparing pass, further velocity passes and the pseudo passes.
 * Solver derives from the contact container in the engine; here it holds
 * one.  Inertia is the scalar build (PE_BodyInertia == 1).
 */
module Solvers {
  import opened Settings
  import opened Vector3Math
  import opened Bodies
  import opened Contacts

  /**
   * The accumulate-and-clamp step of solveImpulse and solvePseudoImpulse
   * (Solver.cpp:111-116, 174-179): the accumulator takes the increment
   * `delta`, and when it would fall below zero it is set to zero and the
   * applied increment shrinks to match.  The result is the new accumulator
   * and the increment actually applied.
   */
  function Accumulated(acc: real, delta: real): (r: (real, real))
    ensures r.0 >= 0.0 && r.1 == r.0 - acc
    ensures r.0 >= acc + delta && (r.0 > 0.0 ==> r.0 == acc + delta)
  {
    var total := acc + delta;
    if total < 0.0 then (0.0, delta - total) else (total, delta)
  }

  /**
   * The friction clamp (Solver.cpp:143-147, 159-163): the accumulated
   * friction moves by `delta` and is cut back into [-limit, limit]; the
   * result is the new accumulator and the increment actually applied.
   */
  function FrictionClamped(acc: real, delta: real, limit: real): (r: (real, real))
    ensures r.1 == r.0 - acc
    ensures limit >= 0.0 ==> -limit <= r.0 <= limit
    ensures limit >= 0.0 ==> (-limit <= acc + delta <= limit ==> r.0 == acc + delta)
                             && (acc + delta > limit ==> r.0 == limit)
                             && (acc + delta < -limit ==> r.0 == -limit)
  {
    var f := Max(-limit, Min(acc + delta, limit));
    (f, f - acc)
  }

  /**
   * A clamped accumulator is a fixed point: feeding it a zero increment
   * changes nothing and applies nothing.
   */
  lemma AccumulatedSettled(acc: real, delta: real)
    ensures var (a, _) := Accumulated(acc, delta);
            Accumulated(a, 0.0) == (a, 0.0)
  {
  }

  /**
   * The speed of body A relative to body B along `axis` at the contact
   * (the nVelProj of Solver.cpp:108-109, 140-141, 171-172): the linear part
   * plus each body's angular velocity against its offset cross product.
   */
  function RelativeSpeed(vA: Vector3, wA: Vector3, vB: Vector3, wB: Vector3, axis: Vector3, rA: Vector3, rB: Vector3): real
  {
    Dot(Sub(vA, vB), axis) + Dot(wA, rA) - Dot(wB, rB)
  }

  /** The same speed against a static body B (Solver.cpp:126, 157, 189). */
  function StaticSpeed(vA: Vector3, wA: Vector3, axis: Vector3, rA: Vector3): real
  {
    Dot(vA, axis) + Dot(wA, rA)
  }

  /** The static speed is the relative speed against a body B at rest. */
  lemma StaticIsRelativeToRest(vA: Vector3, wA: Vector3, axis: Vector3, rA: Vector3, rB: Vector3)
    ensures StaticSpeed(vA, wA, axis, rA) == RelativeSpeed(vA, wA, Zero, Zero, axis, rA, rB)
  {
  }

  /** The normal impulse increment (Solver.cpp:111, 127): the bias less the restituted speed, over kNormal. */
  function NormalDelta(depthA: real, e: real, speed: real, k: real): real
    requires k != 0.0
  {
    (depthA - e * speed) / k
  }

  /** The friction impulse increment (Solver.cpp:144, 160). */
  function FrictionDelta(speed: real, k: real): real
    requires k != 0.0
  {
    -speed / k
  }

  /** The pseudo-impulse increment (Solver.cpp:174, 190). */
  function PseudoDelta(depthB: real, speed: real, k: real): real
    requires k != 0.0
  {
    (depthB - speed) / k
  }

  /** The Coulomb bound of a slot: impulse times mu (Solver.cpp:143, 159). */
  function FrictionLimit(impulse: real, mu: real): (r: real)
    ensures impulse >= 0.0 && mu >= 0.0 ==> r >= 0.0
  {
    impulse * mu
  }

  /** invInertia * dot(r, r), the angular term of an effective mass (Solver.cpp:63-70, 98-100). */
  function Resist(invInertia: real, r: Vector3): (t: real)
    ensures invInertia >= 0.0 ==> t >= 0.0
  {
    invInertia * LengthSquared(r)
  }

  /**
   * The effective-mass terms preSolve gives one slot of a manifold between
   * two bodies (Solver.cpp:60-71).
   */
  function Prepared(c: InfoPoint, pA: RPoint, pB: RPoint, invMassSum: real, invIA: real, invIB: real): (q: InfoPoint)
  {
    c.(kNormal := invMassSum + Resist(invIA, pA.rn) + Resist(invIB, pB.rn),
       kBinormal := invMassSum + Resist(invIA, pA.rb) + Resist(invIB, pB.rb),
       kPseudo := 2.0 + Resist(invIA, pA.rn) + Resist(invIB, pB.rn))
  }

  /** The terms preSolve_static gives one slot against a static body B (Solver.cpp:95-101). */
  function PreparedStatic(c: InfoPoint, pA: RPoint, invMassA: real, invIA: real): (q: InfoPoint)
  {
    c.(kNormal := invMassA + Resist(invIA, pA.rn),
       kBinormal := invMassA + Resist(invIA, pA.rb),
       kPseudo := 1.0 + Resist(invIA, pA.rn))
  }

  /** A slot ready to solve: all three effective masses are positive, so every increment is defined. */
  predicate Ready(c: InfoPoint)
  {
    c.kNormal > 0.0 && c.kBinormal > 0.0 && c.kPseudo > 0.0
  }

  /**
   * With a dynamic body A and non-negative inverse masses and inertias,
   * preSolve and preSolve_static leave every slot ready, and only the
   * three effective masses change.
   */
  lemma PreparedReady(c: InfoPoint, pA: RPoint, pB: RPoint, invMassA: real, invMassB: real, invIA: real, invIB: real)
    requires invMassA > 0.0 && invMassB >= 0.0 && invIA >= 0.0 && invIB >= 0.0
    ensures Ready(Prepared(c, pA, pB, invMassA + invMassB, invIA, invIB))
    ensures Ready(PreparedStatic(c, pA, invMassA, invIA))
    ensures Prepared(c, pA, pB, invMassA + invMassB, invIA, invIB).(kNormal := c.kNormal, kBinormal := c.kBinormal, kPseudo := c.kPseudo) == c
  {
  }

  /** A solved slot: the normal impulse pushes and the friction sits inside the Coulomb cone. */
  predicate Clamped(c: InfoPoint, mu: real)
  {
    c.impulse >= 0.0 && (mu >= 0.0 ==> -FrictionLimit(c.impulse, mu) <= c.impulseFriction <= FrictionLimit(c.impulse, mu))
  }

  /** The momentum change m*dv of a body under the velocity change dv; zero for a static body. */
  function Momentum(dv: Vector3, invMass: real): Vector3
  {
    if invMass > 0.0 then Scale(dv, 1.0 / invMass) else Zero
  }

  /**
   * Equal and opposite (Solver.cpp:117-121, 148-152): when body A's
   * velocity moves by n*invMassA*j and body B's by n*invMassB*(-j), the
   * momentum changes of two dynamic bodies cancel.
   */
  lemma ImpulseBalanced(n: Vector3, j: real, invMassA: real, invMassB: real)
    requires invMassA > 0.0 && invMassB > 0.0
    ensures Add(Momentum(Scale(n, Turn(invMassA, j)), invMassA), Momentum(Scale(n, Turn(invMassB, Opposite(j))), invMassB)) == Zero
  {
    MomentumOfResponse(n, j, invMassA);
    MomentumOfResponse(n, Opposite(j), invMassB);
    assert n.x * Opposite(j) == -(n.x * j);
    assert n.y * Opposite(j) == -(n.y * j);
    assert n.z * Opposite(j) == -(n.z * j);
  }

  /** The momentum change of a dynamic body pushed by impulse `j` along `n` is n*j. */
  lemma MomentumOfResponse(n: Vector3, j: real, invMass: real)
    requires invMass > 0.0
    ensures Momentum(Scale(n, Turn(invMass, j)), invMass) == Scale(n, j)
  {
    var t := Turn(invMass, j);
    assert t * (1.0 / invMass) == j by {
      assert invMass * (1.0 / invMass) == 1.0;
    }
    assert n.x * t * (1.0 / invMass) == n.x * j;
    assert n.y * t * (1.0 / invMass) == n.y * j;
    assert n.z * t * (1.0 / invMass) == n.z * j;
  }

  /**
   * solveImpulse (Solver.cpp:105-122): the slot's accumulated impulse takes
   * the clamped increment, and the applied increment pushes body A along
   * the normal and body B the opposite way, linearly and about each
   * body's offset.
   */
  method SolveImpulse(e: real, bodyA: Body, bodyB: Body, normal: Vector3, cPA: RPoint, cPB: RPoint, c: InfoPoint)
    returns (c': InfoPoint)
    requires bodyA != bodyB && c.kNormal != 0.0
    modifies bodyA`velocity, bodyA`angularVelocity, bodyB`velocity, bodyB`angularVelocity
    ensures var speed := RelativeSpeed(old(bodyA.velocity), old(bodyA.angularVelocity), old(bodyB.velocity),
                                       old(bodyB.angularVelocity), normal, cPA.rn, cPB.rn);
            var (acc, j) := Accumulated(c.impulse, NormalDelta(c.depthA, e, speed, c.kNormal));
            c' == c.(impulse := acc)
            && bodyA.velocity == Add(old(bodyA.velocity), Scale(normal, Turn(bodyA.invMass, j)))
            && bodyA.angularVelocity == Add(old(bodyA.angularVelocity), Scale(cPA.rn, Turn(bodyA.invInertia, j)))
            && bodyB.velocity == Add(old(bodyB.velocity), Scale(normal, Turn(bodyB.invMass, Opposite(j))))
            && bodyB.angularVelocity == Add(old(bodyB.angularVelocity), Scale(cPB.rn, Turn(bodyB.invInertia, Opposite(j))))
    ensures Immovable(bodyA) ==> bodyA.velocity == old(bodyA.velocity) && bodyA.angularVelocity == old(bodyA.angularVelocity)
    ensures Immovable(bodyB) ==> bodyB.velocity == old(bodyB.velocity) && bodyB.angularVelocity == old(bodyB.angularVelocity)
  {
    var speed := RelativeSpeed(bodyA.velocity, bodyA.angularVelocity, bodyB.velocity, bodyB.angularVelocity, normal, cPA.rn, cPB.rn);
    var (acc, j) := Accumulated(c.impulse, NormalDelta(c.depthA, e, speed, c.kNormal));
    c' := c.(impulse := acc);
    bodyA.ApplyLinearImpulse(normal, j);
    bodyA.ApplyAngularImpulse(cPA.rn, j);
    var back := Opposite(j);
    bodyB.ApplyLinearImpulse(normal, back);
    bodyB.ApplyAngularImpulse(cPB.rn, back);
  }

  /** solveImpulse_static (Solver.cpp:124-135): the same against a static body B, which is not touched. */
  method SolveImpulseStatic(e: real, bodyA: Body, normal: Vector3, cPA: RPoint, c: InfoPoint) returns (c': InfoPoint)
    requires c.kNormal != 0.0
    modifies bodyA`velocity, bodyA`angularVelocity
    ensures var speed := StaticSpeed(old(bodyA.velocity), old(bodyA.angularVelocity), normal, cPA.rn);
            var (acc, j) := Accumulated(c.impulse, NormalDelta(c.depthA, e, speed, c.kNormal));
            c' == c.(impulse := acc)
            && bodyA.velocity == Add(old(bodyA.velocity), Scale(normal, Turn(bodyA.invMass, j)))
            && bodyA.angularVelocity == Add(old(bodyA.angularVelocity), Scale(cPA.rn, Turn(bodyA.invInertia, j)))
    ensures Immovable(bodyA) ==> bodyA.velocity == old(bodyA.velocity) && bodyA.angularVelocity == old(bodyA.angularVelocity)
  {
    var speed := StaticSpeed(bodyA.velocity, bodyA.angularVelocity, normal, cPA.rn);
    var (acc, j) := Accumulated(c.impulse, NormalDelta(c.depthA, e, speed, c.kNormal));
    c' := c.(impulse := acc);
    bodyA.ApplyLinearImpulse(normal, j);
    bodyA.ApplyAngularImpulse(cPA.rn, j);
  }

  /**
   * solveImpulseFriction (Solver.cpp:137-153): the accumulated friction
   * takes the increment clamped to the Coulomb bound of the slot's current
   * normal impulse, and the applied change pushes the bodies along the
   * binormal in opposite directions.
   */
  method SolveFriction(mu: real, bodyA: Body, bodyB: Body, cPA: RPoint, cPB: RPoint, c: InfoPoint) returns (c': InfoPoint)
    requires bodyA != bodyB && c.kBinormal != 0.0
    modifies bodyA`velocity, bodyA`angularVelocity, bodyB`velocity, bodyB`angularVelocity
    ensures var speed := RelativeSpeed(old(bodyA.velocity), old(bodyA.angularVelocity), old(bodyB.velocity),
                                       old(bodyB.angularVelocity), c.binormal, cPA.rb, cPB.rb);
            var (acc, j) := FrictionClamped(c.impulseFriction, FrictionDelta(speed, c.kBinormal), FrictionLimit(c.impulse, mu));
            c' == c.(impulseFriction := acc)
            && bodyA.velocity == Add(old(bodyA.velocity), Scale(c.binormal, Turn(bodyA.invMass, j)))
            && bodyA.angularVelocity == Add(old(bodyA.angularVelocity), Scale(cPA.rb, Turn(bodyA.invInertia, j)))
            && bodyB.velocity == Add(old(bodyB.velocity), Scale(c.binormal, Turn(bodyB.invMass, Opposite(j))))
            && bodyB.angularVelocity == Add(old(bodyB.angularVelocity), Scale(cPB.rb, Turn(bodyB.invInertia, Opposite(j))))
    ensures Immovable(bodyA) ==> bodyA.velocity == old(bodyA.velocity) && bodyA.angularVelocity == old(bodyA.angularVelocity)
    ensures Immovable(bodyB) ==> bodyB.velocity == old(bodyB.velocity) && bodyB.angularVelocity == old(bodyB.angularVelocity)
  {
    var speed := RelativeSpeed(bodyA.velocity, bodyA.angularVelocity, bodyB.velocity, bodyB.angularVelocity, c.binormal, cPA.rb, cPB.rb);
    var (acc, j) := FrictionClamped(c.impulseFriction, FrictionDelta(speed, c.kBinormal), FrictionLimit(c.impulse, mu));
    c' := c.(impulseFriction := acc);
    bodyA.ApplyLinearImpulse(c.binormal, j);
    bodyA.ApplyAngularImpulse(cPA.rb, j);
    var back := Opposite(j);
    bodyB.ApplyLinearImpulse(c.binormal, back);
    bodyB.ApplyAngularImpulse(cPB.rb, back);
  }

  /** solveImpulseFriction_static (Solver.cpp:155-166): the same against a static body B, which is not touched. */
  method SolveFrictionStatic(mu: real, bodyA: Body, cPA: RPoint, c: InfoPoint) returns (c': InfoPoint)
    requires c.kBinormal != 0.0
    modifies bodyA`velocity, bodyA`angularVelocity
    ensures var speed := StaticSpeed(old(bodyA.velocity), old(bodyA.angularVelocity), c.binormal, cPA.rb);
            var (acc, j) := FrictionClamped(c.impulseFriction, FrictionDelta(speed, c.kBinormal), FrictionLimit(c.impulse, mu));
            c' == c.(impulseFriction := acc)
            && bodyA.velocity == Add(old(bodyA.velocity), Scale(c.binormal, Turn(bodyA.invMass, j)))
            && bodyA.angularVelocity == Add(old(bodyA.angularVelocity), Scale(cPA.rb, Turn(bodyA.invInertia, j)))
    ensures Immovable(bodyA) ==> bodyA.velocity == old(bodyA.velocity) && bodyA.angularVelocity == old(bodyA.angularVelocity)
  {
    var speed := StaticSpeed(bodyA.velocity, bodyA.angularVelocity, c.binormal, cPA.rb);
    var (acc, j) := FrictionClamped(c.impulseFriction, FrictionDelta(speed, c.kBinormal), FrictionLimit(c.impulse, mu));
    c' := c.(impulseFriction := acc);
    bodyA.ApplyLinearImpulse(c.binormal, j);
    bodyA.ApplyAngularImpulse(cPA.rb, j);
  }

  /**
   * solvePseudoImpulse (Solver.cpp:168-185): the accumulated pseudo-impulse
   * takes the clamped increment, which moves only the pseudo-velocities:
   * body A's along the normal, body B's the opposite way.
   */
  method SolvePseudo(bodyA: Body, bodyB: Body, normal: Vector3, cPA: RPoint, cPB: RPoint, c: InfoPoint) returns (c': InfoPoint)
    requires bodyA != bodyB && c.kPseudo != 0.0
    modifies bodyA`pseudoVelocity, bodyA`pseudoAngularVelocity, bodyB`pseudoVelocity, bodyB`pseudoAngularVelocity
    ensures var speed := RelativeSpeed(old(bodyA.pseudoVelocity), old(bodyA.pseudoAngularVelocity), old(bodyB.pseudoVelocity),
                                       old(bodyB.pseudoAngularVelocity), normal, cPA.rn, cPB.rn);
            var (acc, j) := Accumulated(c.pseudoImpulse, PseudoDelta(c.depthB, speed, c.kPseudo));
            c' == c.(pseudoImpulse := acc)
            && bodyA.pseudoVelocity == Add(old(bodyA.pseudoVelocity), Scale(normal, j))
            && bodyA.pseudoAngularVelocity == Add(old(bodyA.pseudoAngularVelocity), Scale(cPA.rn, Turn(bodyA.invInertia, j)))
            && bodyB.pseudoVelocity == Add(old(bodyB.pseudoVelocity), Scale(normal, Opposite(j)))
            && bodyB.pseudoAngularVelocity == Add(old(bodyB.pseudoAngularVelocity), Scale(cPB.rn, Turn(bodyB.invInertia, Opposite(j))))
  {
    var speed := RelativeSpeed(bodyA.pseudoVelocity, bodyA.pseudoAngularVelocity, bodyB.pseudoVelocity,
                               bodyB.pseudoAngularVelocity, normal, cPA.rn, cPB.rn);
    var (acc, j) := Accumulated(c.pseudoImpulse, PseudoDelta(c.depthB, speed, c.kPseudo));
    c' := c.(pseudoImpulse := acc);
    bodyA.ApplyLinearPseudoImpulse(normal, j);
    bodyA.ApplyAngularPseudoImpulse(cPA.rn, j);
    var back := Opposite(j);
    bodyB.ApplyLinearPseudoImpulse(normal, back);
    bodyB.ApplyAngularPseudoImpulse(cPB.rn, back);
  }

  /** solvePseudoImpulse_static (Solver.cpp:187-198): the same against a static body B, which is not touched. */
  method SolvePseudoStatic(bodyA: Body, normal: Vector3, cPA: RPoint, c: InfoPoint) returns (c': InfoPoint)
    requires c.kPseudo != 0.0
    modifies bodyA`pseudoVelocity, bodyA`pseudoAngularVelocity
    ensures var speed := StaticSpeed(old(bodyA.pseudoVelocity), old(bodyA.pseudoAngularVelocity), normal, cPA.rn);
            var (acc, j) := Accumulated(c.pseudoImpulse, PseudoDelta(c.depthB, speed, c.kPseudo));
            c' == c.(pseudoImpulse := acc)
            && bodyA.pseudoVelocity == Add(old(bodyA.pseudoVelocity), Scale(normal, j))
            && bodyA.pseudoAngularVelocity == Add(old(bodyA.pseudoAngularVelocity), Scale(cPA.rn, Turn(bodyA.invInertia, j)))
  {
    var speed := StaticSpeed(bodyA.pseudoVelocity, bodyA.pseudoAngularVelocity, normal, cPA.rn);
    var (acc, j) := Accumulated(c.pseudoImpulse, PseudoDelta(c.depthB, speed, c.kPseudo));
    c' := c.(pseudoImpulse := acc);
    bodyA.ApplyLinearPseudoImpulse(normal, j);
    bodyA.ApplyAngularPseudoImpulse(cPA.rn, j);
  }

  /** A body with no inverse mass and no inverse inertia: impulses do not move it. */
  predicate Immovable(b: Body)
    reads b
  {
    b.invMass == 0.0 && b.invInertia == 0.0
  }

  /** No manifold pairs a body with itself. */
  predicate PairsApart(ms: seq<Manifold>)
  {
    forall i :: 0 <= i < |ms| ==> ms[i].bodyA != ms[i].bodyB
  }

  /**
   * None of the first `n` manifolds moves body `k`: it is not their body A,
   * nor the body B of one whose B is dynamic.
   */
  predicate UntouchedBy(ms: seq<Manifold>, n: int, k: int)
  {
    forall i :: 0 <= i < n && i < |ms| ==> ms[i].bodyA != k && (ms[i].notStatB ==> ms[i].bodyB != k)
  }

  /** Every slot in use is ready to solve. */
  predicate SlotsReady(m: Manifold)
  {
    forall k :: 0 <= k < |m.info| && k < m.countPoints ==> Ready(m.info[k])
  }

  /** Every slot in use holds a pushing impulse and a friction inside the cone. */
  predicate SlotsClamped(m: Manifold)
  {
    forall k :: 0 <= k < |m.info| && k < m.countPoints ==> Clamped(m.info[k], m.mu)
  }

  /** Every slot in use holds a pushing pseudo-impulse. */
  predicate SlotsPushing(m: Manifold)
  {
    forall k :: 0 <= k < |m.info| && k < m.countPoints ==> m.info[k].pseudoImpulse >= 0.0
  }

  /** The manifold's pairing, normal, points and material stay; only slot records and the solved flag may differ. */
  predicate Kept(m: Manifold, m2: Manifold)
  {
    m2.(info := m.info, solved := m.solved) == m && |m2.info| == |m.info|
  }

  /** A velocity pass over `m`: only the normal and friction impulses of the slots in use change. */
  predicate VelocityStep(m: Manifold, m2: Manifold)
  {
    Kept(m, m2) && m2.solved == m.solved
    && forall k :: 0 <= k < |m.info| ==>
         m2.info[k] == if k < m.countPoints
                       then m.info[k].(impulse := m2.info[k].impulse, impulseFriction := m2.info[k].impulseFriction)
                       else m.info[k]
  }

  /** A pseudo pass over `m`: only the pseudo-impulses of the slots in use change. */
  predicate PseudoStep(m: Manifold, m2: Manifold)
  {
    Kept(m, m2) && m2.solved == m.solved
    && forall k :: 0 <= k < |m.info| ==>
         m2.info[k] == if k < m.countPoints then m.info[k].(pseudoImpulse := m2.info[k].pseudoImpulse) else m.info[k]
  }

  /**
   * A velocity pass keeps every slot ready and every pseudo-impulse; a
   * pseudo pass keeps every slot ready and every clamp.
   */
  lemma StepsKeep(m: Manifold, m2: Manifold)
    ensures VelocityStep(m, m2) && SlotsReady(m) ==> SlotsReady(m2)
    ensures VelocityStep(m, m2) && SlotsPushing(m) ==> SlotsPushing(m2)
    ensures PseudoStep(m, m2) && SlotsReady(m) ==> SlotsReady(m2)
    ensures PseudoStep(m, m2) && SlotsClamped(m) ==> SlotsClamped(m2)
  {
    if VelocityStep(m, m2) {
      forall k | 0 <= k < |m2.info| && k < m2.countPoints
        ensures m2.info[k].kNormal == m.info[k].kNormal && m2.info[k].kBinormal == m.info[k].kBinormal
        ensures m2.info[k].kPseudo == m.info[k].kPseudo && m2.info[k].pseudoImpulse == m.info[k].pseudoImpulse
      {
        assert m2.info[k] == m.info[k].(impulse := m2.info[k].impulse, impulseFriction := m2.info[k].impulseFriction);
      }
    }
    if PseudoStep(m, m2) {
      forall k | 0 <= k < |m2.info| && k < m2.countPoints
        ensures m2.info[k].kNormal == m.info[k].kNormal && m2.info[k].kBinormal == m.info[k].kBinormal
        ensures m2.info[k].kPseudo == m.info[k].kPseudo && m2.info[k].impulse == m.info[k].impulse
        ensures m2.info[k].impulseFriction == m.info[k].impulseFriction && m2.mu == m.mu
      {
        assert m2.info[k] == m.info[k].(pseudoImpulse := m2.info[k].pseudoImpulse);
      }
    }
  }

  /**
   * The point loop of a manifold with two dynamic bodies in solveContacts
   * (Solver.cpp:229-232): each slot in use takes solveImpulse, then
   * solveImpulseFriction; afterwards every slot in use is clamped, and an
   * immovable body has not moved.
   */
  method SolveSlots(m: Manifold, bodyA: Body, bodyB: Body) returns (m': Manifold)
    requires WellFormed(m) && SlotsReady(m) && bodyA != bodyB
    modifies bodyA`velocity, bodyA`angularVelocity, bodyB`velocity, bodyB`angularVelocity
    ensures WellFormed(m') && VelocityStep(m, m') && SlotsClamped(m')
    ensures Immovable(bodyA) ==> bodyA.velocity == old(bodyA.velocity) && bodyA.angularVelocity == old(bodyA.angularVelocity)
    ensures Immovable(bodyB) ==> bodyB.velocity == old(bodyB.velocity) && bodyB.angularVelocity == old(bodyB.angularVelocity)
  {
    m' := m;
    var j := 0;
    while j < m.countPoints
      invariant 0 <= j <= m.countPoints
      invariant WellFormed(m') && VelocityStep(m, m')
      invariant forall k :: 0 <= k < j ==> Clamped(m'.info[k], m.mu)
      invariant forall k :: j <= k < |m.info| ==> m'.info[k] == m.info[k]
      invariant Immovable(bodyA) ==> bodyA.velocity == old(bodyA.velocity) && bodyA.angularVelocity == old(bodyA.angularVelocity)
      invariant Immovable(bodyB) ==> bodyB.velocity == old(bodyB.velocity) && bodyB.angularVelocity == old(bodyB.angularVelocity)
    {
      var c := SolveSlot(m', j, bodyA, bodyB);
      m' := m'.(info := m'.info[j := c]);
      j := j + 1;
    }
  }

  /** One slot of that loop: solveImpulse and solveImpulseFriction (Solver.cpp:230-231). */
  method SolveSlot(m: Manifold, j: int, bodyA: Body, bodyB: Body) returns (c: InfoPoint)
    requires WellFormed(m) && 0 <= j < m.countPoints && Ready(m.info[j]) && bodyA != bodyB
    modifies bodyA`velocity, bodyA`angularVelocity, bodyB`velocity, bodyB`angularVelocity
    ensures c == m.info[j].(impulse := c.impulse, impulseFriction := c.impulseFriction) && Clamped(c, m.mu)
    ensures Immovable(bodyA) ==> bodyA.velocity == old(bodyA.velocity) && bodyA.angularVelocity == old(bodyA.angularVelocity)
    ensures Immovable(bodyB) ==> bodyB.velocity == old(bodyB.velocity) && bodyB.angularVelocity == old(bodyB.angularVelocity)
  {
    var c1 := SolveImpulse(m.e, bodyA, bodyB, m.normal, m.pointA[j], m.pointB[j], m.info[j]);
    c := SolveFriction(m.mu, bodyA, bodyB, m.pointA[j], m.pointB[j], c1);
  }

  /**
   * The point loop of a manifold against a static body B in solveContacts
   * (Solver.cpp:234-237): solveImpulse_static, then
   * solveImpulseFriction_static, on each slot in use.
   */
  method SolveSlotsStatic(m: Manifold, bodyA: Body) returns (m': Manifold)
    requires WellFormed(m) && SlotsReady(m)
    modifies bodyA`velocity, bodyA`angularVelocity
    ensures WellFormed(m') && VelocityStep(m, m') && SlotsClamped(m')
    ensures Immovable(bodyA) ==> bodyA.velocity == old(bodyA.velocity) && bodyA.angularVelocity == old(bodyA.angularVelocity)
  {
    m' := m;
    var j := 0;
    while j < m.countPoints
      invariant 0 <= j <= m.countPoints
      invariant WellFormed(m') && VelocityStep(m, m')
      invariant forall k :: 0 <= k < j ==> Clamped(m'.info[k], m.mu)
      invariant forall k :: j <= k < |m.info| ==> m'.info[k] == m.info[k]
      invariant Immovable(bodyA) ==> bodyA.velocity == old(bodyA.velocity) && bodyA.angularVelocity == old(bodyA.angularVelocity)
    {
      var c := SolveSlotStatic(m', j, bodyA);
      m' := m'.(info := m'.info[j := c]);
      j := j + 1;
    }
  }

  /** One slot of that loop (Solver.cpp:235-236). */
  method SolveSlotStatic(m: Manifold, j: int, bodyA: Body) returns (c: InfoPoint)
    requires WellFormed(m) && 0 <= j < m.countPoints && Ready(m.info[j])
    modifies bodyA`velocity, bodyA`angularVelocity
    ensures c == m.info[j].(impulse := c.impulse, impulseFriction := c.impulseFriction) && Clamped(c, m.mu)
    ensures Immovable(bodyA) ==> bodyA.velocity == old(bodyA.velocity) && bodyA.angularVelocity == old(bodyA.angularVelocity)
  {
    var c1 := SolveImpulseStatic(m.e, bodyA, m.normal, m.pointA[j], m.info[j]);
    c := SolveFrictionStatic(m.mu, bodyA, m.pointA[j], c1);
  }

  /**
   * The point loop of solvePseudoContacts for two dynamic bodies
   * (Solver.cpp:249-251): solvePseudoImpulse on each slot in use, after
   * which every pseudo-impulse in use is pushing.
   */
  method SolvePseudoSlots(m: Manifold, bodyA: Body, bodyB: Body) returns (m': Manifold)
    requires WellFormed(m) && SlotsReady(m) && bodyA != bodyB
    modifies bodyA`pseudoVelocity, bodyA`pseudoAngularVelocity, bodyB`pseudoVelocity, bodyB`pseudoAngularVelocity
    ensures WellFormed(m') && PseudoStep(m, m') && SlotsPushing(m')
  {
    m' := m;
    var j := 0;
    while j < m.countPoints
      invariant 0 <= j <= m.countPoints
      invariant WellFormed(m') && PseudoStep(m, m')
      invariant forall k :: 0 <= k < j ==> m'.info[k].pseudoImpulse >= 0.0
      invariant forall k :: j <= k < |m.info| ==> m'.info[k] == m.info[k]
    {
      var c := SolvePseudo(bodyA, bodyB, m.normal, m.pointA[j], m.pointB[j], m'.info[j]);
      m' := m'.(info := m'.info[j := c]);
      j := j + 1;
    }
  }

  /** The point loop of solvePseudoContacts against a static body B (Solver.cpp:253-255). */
  method SolvePseudoSlotsStatic(m: Manifold, bodyA: Body) returns (m': Manifold)
    requires WellFormed(m) && SlotsReady(m)
    modifies bodyA`pseudoVelocity, bodyA`pseudoAngularVelocity
    ensures WellFormed(m') && PseudoStep(m, m') && SlotsPushing(m')
  {
    m' := m;
    var j := 0;
    while j < m.countPoints
      invariant 0 <= j <= m.countPoints
      invariant WellFormed(m') && PseudoStep(m, m')
      invariant forall k :: 0 <= k < j ==> m'.info[k].pseudoImpulse >= 0.0
      invariant forall k :: j <= k < |m.info| ==> m'.info[k] == m.info[k]
    {
      var c := SolvePseudoStatic(bodyA, m.normal, m.pointA[j], m'.info[j]);
      m' := m'.(info := m'.info[j := c]);
      j := j + 1;
    }
  }

  /** The three kinds of pass solve() runs over the manifolds. */
  datatype Pass = PreSolvePass | ContactPass | PseudoPass

  /** `n` copies of a pass; none when `n` is not positive. */
  function Repeat(p: Pass, n: int): (r: seq<Pass>)
    ensures |r| == (if n <= 0 then 0 else n) && forall k :: 0 <= k < |r| ==> r[k] == p
  {
    if n <= 0 then [] else Repeat(p, n - 1) + [p]
  }

  /**
   * What pass `p` leaves in a manifold that started as `m0`: the preparing
   * pass marks it unsolved and leaves every slot in use ready and clamped;
   * a velocity pass changes only the normal and friction impulses and
   * leaves them clamped; a pseudo pass changes only the pseudo-impulses
   * and leaves them pushing.
   */
  predicate Done(p: Pass, m0: Manifold, m: Manifold)
  {
    match p
    case PreSolvePass => Kept(m0, m) && !m.solved && SlotsReady(m) && SlotsClamped(m)
    case ContactPass => VelocityStep(m0, m) && SlotsClamped(m)
    case PseudoPass => PseudoStep(m0, m) && SlotsPushing(m)
  }

  /**
   * A manifold that started as `m0` after solve()'s preparing pass and any
   * passes since: its pairing and points kept, marked unsolved, every slot
   * in use ready and clamped, and pushing once a pseudo pass has run.
   */
  predicate Settled(m0: Manifold, m: Manifold, pushed: bool)
  {
    Kept(m0, m) && !m.solved && SlotsReady(m) && SlotsClamped(m) && (pushed ==> SlotsPushing(m))
  }

  /** A velocity or pseudo pass keeps a settled manifold settled; a pseudo pass leaves it pushing. */
  lemma SettledAfter(p: Pass, m0: Manifold, m1: Manifold, m2: Manifold, pushed: bool)
    requires Settled(m0, m1, pushed) && p != PreSolvePass && Done(p, m1, m2)
    ensures Settled(m0, m2, pushed || p == PseudoPass)
  {
    StepsKeep(m1, m2);
  }

  /** The velocities pass `p` moves, per body: the pseudo-velocities for a pseudo pass, the velocities otherwise. */
  ghost function Motions(bodies: seq<Body>, p: Pass): (r: seq<(Vector3, Vector3)>)
    reads Objects(bodies)
    ensures |r| == |bodies| && forall k :: 0 <= k < |bodies| ==> r[k] == PassMotion(bodies[k], p)
  {
    seq(|bodies|, k requires 0 <= k < |bodies| reads bodies => PassMotion(bodies[k], p))
  }

  /** The velocities pass `p` moves, of one body. */
  ghost function PassMotion(b: Body, p: Pass): (Vector3, Vector3)
    reads b
  {
    if p == PseudoPass then (b.pseudoVelocity, b.pseudoAngularVelocity) else (b.velocity, b.angularVelocity)
  }

  /** Every manifold's body A is dynamic and no body has a negative inverse mass or inertia. */
  ghost predicate Weighted(ms: seq<Manifold>, bodies: seq<Body>)
    reads Objects(bodies)`invMass, Objects(bodies)`invInertia
  {
    (forall i :: 0 <= i < |ms| && 0 <= ms[i].bodyA < |bodies| ==> bodies[ms[i].bodyA].invMass > 0.0)
    && forall k :: 0 <= k < |bodies| ==> bodies[k].invMass >= 0.0 && bodies[k].invInertia >= 0.0
  }

  /** Every body's collision group is one of `groups`. */
  ghost predicate GroupsWithin(bodies: seq<Body>, groups: set<nat>)
    reads Objects(bodies)`currentGroup
  {
    forall k :: 0 <= k < |bodies| ==> bodies[k].currentGroup in groups
  }

  /**
   * The manifolds `cur` of pass `p` after its first `i` manifolds, against
   * the manifolds `ms` it started from: those are done, the rest untouched
   * (and ready, for a pass that does not prepare them), and every manifold
   * well formed and pairing two different bodies of a list of `n`.
   */
  predicate PassedSeq(p: Pass, i: int, ms: seq<Manifold>, cur: seq<Manifold>, n: int)
  {
    0 <= i <= |cur| == |ms| && AllWellFormed(cur) && BodiesBelow(cur, n) && PairsApart(cur)
    && (forall q :: 0 <= q < i ==> Done(p, ms[q], cur[q]))
    && (forall q :: i <= q < |ms| ==> cur[q] == ms[q] && (p != PreSolvePass ==> SlotsReady(ms[q])))
  }

  /** Doing manifold `i` moves the pass on by one. */
  lemma PassedSeqStep(p: Pass, i: int, ms: seq<Manifold>, cur: seq<Manifold>, n: int, m': Manifold)
    requires PassedSeq(p, i, ms, cur, n) && i < |cur| && WellFormed(m') && Done(p, cur[i], m')
    ensures PassedSeq(p, i + 1, ms, cur[i := m'], n)
  {
    assert Kept(cur[i], m');
  }

  /**
   * The bodies during pass `p`, after its first `i` manifolds: a body none
   * of them moves keeps the velocities `v0` it started with, and so does
   * an immovable body in a velocity pass.
   */
  ghost predicate Held(p: Pass, i: int, bodies: seq<Body>, ms: seq<Manifold>, v0: seq<(Vector3, Vector3)>)
    reads Objects(bodies)
  {
    |v0| == |bodies|
    && forall k :: 0 <= k < |bodies| && (UntouchedBy(ms, i, k) || (p != PseudoPass && Immovable(bodies[k]))) ==>
         PassMotion(bodies[k], p) == v0[k]
  }

  /** The collision group of each body of the list. */
  ghost function GroupList(bodies: seq<Body>): (r: seq<nat>)
    reads Objects(bodies)
    ensures |r| == |bodies| && forall k :: 0 <= k < |bodies| ==> r[k] == bodies[k].currentGroup
  {
    seq(|bodies|, k requires 0 <= k < |bodies| reads bodies => bodies[k].currentGroup)
  }

  /**
   * Manifold `i` of pass `p`, between the velocities `before` and the
   * groups `groupsBefore` and the current ones: it moved at most its two
   * bodies, kept an immovable one in a velocity pass and a static body B
   * in place, and merged collision groups between its two bodies only.
   * Then the bodies are held after `i + 1` manifolds and every group stays
   * among `groups`.
   */
  lemma HeldStep(p: Pass, i: int, bodies: seq<Body>, ms: seq<Manifold>, v0: seq<(Vector3, Vector3)>, groups: set<nat>,
                 before: seq<(Vector3, Vector3)>, groupsBefore: seq<nat>)
    requires |v0| == |bodies| == |before| == |groupsBefore| && BodiesBelow(ms, |bodies|) && 0 <= i < |ms|
    requires forall k :: 0 <= k < |bodies| && (UntouchedBy(ms, i, k) || (p != PseudoPass && Immovable(bodies[k]))) ==> before[k] == v0[k]
    requires forall k :: 0 <= k < |bodies| ==> groupsBefore[k] in groups
    requires forall k :: 0 <= k < |bodies| && k != ms[i].bodyA && k != ms[i].bodyB ==>
               PassMotion(bodies[k], p) == before[k] && bodies[k].currentGroup == groupsBefore[k]
    requires p != PseudoPass && Immovable(bodies[ms[i].bodyA]) ==> PassMotion(bodies[ms[i].bodyA], p) == before[ms[i].bodyA]
    requires (p != PseudoPass && Immovable(bodies[ms[i].bodyB])) || !ms[i].notStatB ==>
               PassMotion(bodies[ms[i].bodyB], p) == before[ms[i].bodyB]
    requires bodies[ms[i].bodyA].currentGroup in {groupsBefore[ms[i].bodyA], groupsBefore[ms[i].bodyB]}
    requires bodies[ms[i].bodyB].currentGroup in {groupsBefore[ms[i].bodyA], groupsBefore[ms[i].bodyB]}
    ensures Held(p, i + 1, bodies, ms, v0) && GroupsWithin(bodies, groups)
  {
  }

  /**
   * Solver (Solver.h:13-43): the contact container together with the
   * number of velocity passes and of split-impulse passes per step.  The
   * ghost `passes` records every pass run so far, in order.
   */
  class Solver {
    var contacts: ContactsContainer
    var countIterations: int
    var splitIterations: int
    ghost var passes: seq<Pass>

    /** Solver() (Solver.cpp:6-11): eight velocity passes and three split-impulse passes. */
    constructor ()
      ensures fresh(contacts) && contacts.Valid() && contacts.manifolds == [] && contacts.prevManifolds == []
      ensures countIterations == 8 && splitIterations == 3 && passes == []
    {
      contacts := new ContactsContainer();
      countIterations := 8;
      splitIterations := 3;
      passes := [];
    }

    /** setCountIterations (Solver.cpp:13-17). */
    method SetCountIterations(solverCountIterations: int, splitImpulsesCountIterations: int)
      modifies this`countIterations, this`splitIterations
      ensures countIterations == solverCountIterations && splitIterations == splitImpulsesCountIterations
    {
      countIterations := solverCountIterations;
      splitIterations := splitImpulsesCountIterations;
    }

    /** What a pass demands: a valid container whose manifolds pair two different bodies of a list without repeats. */
    ghost predicate Indexed(bodies: seq<Body>)
      reads this, contacts
    {
      contacts.Valid() && BodiesBelow(contacts.manifolds, |bodies|) && PairsApart(contacts.manifolds) && DistinctBodies(bodies)
    }


    /**
     * preSolve(cM, bodyA, bodyB) (Solver.cpp:29-33, 60-72), the scalar
     * build: the manifold is marked unsolved and each slot in use gets its
     * three effective masses; with body A dynamic every slot in use is
     * then ready.
     */
    method PreSolveManifold(cM: Manifold, bodyA: Body, bodyB: Body) returns (cM': Manifold)
      requires WellFormed(cM)
      ensures WellFormed(cM') && Kept(cM, cM') && !cM'.solved
      ensures forall k :: 0 <= k < |cM.info| ==>
                cM'.info[k] == if k < cM.countPoints
                               then Prepared(cM.info[k], cM.pointA[k], cM.pointB[k], bodyA.invMass + bodyB.invMass, bodyA.invInertia, bodyB.invInertia)
                               else cM.info[k]
      ensures bodyA.invMass > 0.0 && bodyB.invMass >= 0.0 && bodyA.invInertia >= 0.0 && bodyB.invInertia >= 0.0 ==> SlotsReady(cM')
    {
      var invMassSum := bodyA.invMass + bodyB.invMass;
      cM' := cM.(solved := false);
      var i := 0;
      while i < cM.countPoints
        invariant 0 <= i <= cM.countPoints
        invariant WellFormed(cM') && Kept(cM, cM') && !cM'.solved
        invariant forall k :: 0 <= k < |cM.info| ==>
                    cM'.info[k] == if k < i
                                   then Prepared(cM.info[k], cM.pointA[k], cM.pointB[k], invMassSum, bodyA.invInertia, bodyB.invInertia)
                                   else cM.info[k]
      {
        cM' := cM'.(info := cM'.info[i := Prepared(cM'.info[i], cM.pointA[i], cM.pointB[i], invMassSum, bodyA.invInertia, bodyB.invInertia)]);
        i := i + 1;
      }
      if bodyA.invMass > 0.0 && bodyB.invMass >= 0.0 && bodyA.invInertia >= 0.0 && bodyB.invInertia >= 0.0 {
        forall k | 0 <= k < |cM'.info| && k < cM'.countPoints
          ensures Ready(cM'.info[k])
        {
          PreparedReady(cM.info[k], cM.pointA[k], cM.pointB[k], bodyA.invMass, bodyB.invMass, bodyA.invInertia, bodyB.invInertia);
        }
      }
    }

    /**
     * preSolve_static(cM, bodyA) (Solver.cpp:75-78, 94-102), the scalar
     * build: the same against a static body B, with kPseudo based on one.
     */
    method PreSolveManifoldStatic(cM: Manifold, bodyA: Body) returns (cM': Manifold)
      requires WellFormed(cM)
      ensures WellFormed(cM') && Kept(cM, cM') && !cM'.solved
      ensures forall k :: 0 <= k < |cM.info| ==>
                cM'.info[k] == if k < cM.countPoints
                               then PreparedStatic(cM.info[k], cM.pointA[k], bodyA.invMass, bodyA.invInertia)
                               else cM.info[k]
      ensures bodyA.invMass > 0.0 && bodyA.invInertia >= 0.0 ==> SlotsReady(cM')
    {
      var invMassSum := bodyA.invMass;
      cM' := cM.(solved := false);
      var i := 0;
      while i < cM.countPoints
        invariant 0 <= i <= cM.countPoints
        invariant WellFormed(cM') && Kept(cM, cM') && !cM'.solved
        invariant forall k :: 0 <= k < |cM.info| ==>
                    cM'.info[k] == if k < i then PreparedStatic(cM.info[k], cM.pointA[k], invMassSum, bodyA.invInertia) else cM.info[k]
      {
        cM' := cM'.(info := cM'.info[i := PreparedStatic(cM'.info[i], cM.pointA[i], invMassSum, bodyA.invInertia)]);
        i := i + 1;
      }
      if bodyA.invMass > 0.0 && bodyA.invInertia >= 0.0 {
        forall k | 0 <= k < |cM'.info| && k < cM'.countPoints
          ensures Ready(cM'.info[k])
        {
          PreparedReady(cM.info[k], cM.pointA[k], cM.pointA[k], bodyA.invMass, 0.0, bodyA.invInertia, 0.0);
        }
      }
    }

    /**
     * The state of pass `p` after its first `i` manifolds, against the
     * manifolds `ms` and the velocities `v0` it started from, with every
     * collision group among `groups`.
     */
    ghost predicate PassedUpTo(p: Pass, i: int, bodies: seq<Body>, ms: seq<Manifold>, groups: set<nat>, v0: seq<(Vector3, Vector3)>)
      reads this, contacts, Objects(bodies)
    {
      contacts.Valid() && DistinctBodies(bodies) && PassedSeq(p, i, ms, contacts.manifolds, |bodies|)
      && Held(p, i, bodies, ms, v0) && GroupsWithin(bodies, groups)
    }

    /**
     * preSolve() (Solver.cpp:200-220): the preparing pass.  For each
     * manifold in order, a dynamic pair merges its collision groups; the
     * manifold is prepared, and every slot in use takes the normal and the
     * friction impulse.
     */
    method PreSolve(bodies: seq<Body>, ghost groups: set<nat>)
      requires Indexed(bodies) && Weighted(contacts.manifolds, bodies) && GroupsWithin(bodies, groups)
      modifies this`passes, contacts`manifolds, Objects(bodies)`velocity, Objects(bodies)`angularVelocity, Objects(bodies)`currentGroup
      ensures Indexed(bodies) && Weighted(contacts.manifolds, bodies) && GroupsWithin(bodies, groups)
      ensures |contacts.manifolds| == |old(contacts.manifolds)|
      ensures forall i :: 0 <= i < |contacts.manifolds| ==> Done(PreSolvePass, old(contacts.manifolds[i]), contacts.manifolds[i])
      ensures forall k :: 0 <= k < |bodies| && (UntouchedBy(old(contacts.manifolds), |old(contacts.manifolds)|, k) || Immovable(bodies[k])) ==>
                bodies[k].velocity == old(bodies[k].velocity) && bodies[k].angularVelocity == old(bodies[k].angularVelocity)
      ensures passes == old(passes) + [PreSolvePass]
    {
      ghost var ms := contacts.manifolds;
      ghost var v0 := Motions(bodies, PreSolvePass);
      var i := 0;
      while i < |contacts.manifolds|
        invariant PassedUpTo(PreSolvePass, i, bodies, ms, groups, v0) && Weighted(ms, bodies) && passes == old(passes)
      {
        PreSolveStep(i, bodies, ms, groups, v0);
        i := i + 1;
      }
      passes := passes + [PreSolvePass];
    }

    /** Manifold `i` of preSolve() (Solver.cpp:203-218). */
    method PreSolveStep(i: int, bodies: seq<Body>, ghost ms: seq<Manifold>, ghost groups: set<nat>, ghost v0: seq<(Vector3, Vector3)>)
      requires PassedUpTo(PreSolvePass, i, bodies, ms, groups, v0) && Weighted(ms, bodies) && i < |contacts.manifolds|
      modifies contacts`manifolds, Objects(bodies)`velocity, Objects(bodies)`angularVelocity, Objects(bodies)`currentGroup
      ensures PassedUpTo(PreSolvePass, i + 1, bodies, ms, groups, v0)
    {
      var m := contacts.manifolds[i];
      var bodyA, bodyB := bodies[m.bodyA], bodies[m.bodyB];
      ghost var before, groupsBefore := Motions(bodies, PreSolvePass), GroupList(bodies);
      var m' := PrepareManifold(m, bodyA, bodyB);
      PassedSeqStep(PreSolvePass, i, ms, contacts.manifolds, |bodies|, m');
      contacts.manifolds := contacts.manifolds[i := m'];
      HeldStep(PreSolvePass, i, bodies, ms, v0, groups, before, groupsBefore);
    }

    /**
     * One manifold of preSolve() (Solver.cpp:203-218): a dynamic pair
     * merges its collision groups, is prepared against both bodies and
     * solved against both; otherwise against body A alone.
     */
    method PrepareManifold(m: Manifold, bodyA: Body, bodyB: Body) returns (m': Manifold)
      requires WellFormed(m) && bodyA != bodyB
      requires bodyA.invMass > 0.0 && bodyB.invMass >= 0.0 && bodyA.invInertia >= 0.0 && bodyB.invInertia >= 0.0
      modifies bodyA`velocity, bodyA`angularVelocity, bodyA`currentGroup, bodyB`velocity, bodyB`angularVelocity, bodyB`currentGroup
      ensures WellFormed(m') && Done(PreSolvePass, m, m')
      ensures Immovable(bodyA) ==> bodyA.velocity == old(bodyA.velocity) && bodyA.angularVelocity == old(bodyA.angularVelocity)
      ensures Immovable(bodyB) || !m.notStatB ==> bodyB.velocity == old(bodyB.velocity) && bodyB.angularVelocity == old(bodyB.angularVelocity)
      ensures bodyA.currentGroup in {old(bodyA.currentGroup), old(bodyB.currentGroup)}
      ensures bodyB.currentGroup in {old(bodyA.currentGroup), old(bodyB.currentGroup)}
    {
      var m1;
      if m.notStatB {
        bodyA.MergeCollisionGroup(bodyB);
        m1 := PreSolveManifold(m, bodyA, bodyB);
        m' := SolveSlots(m1, bodyA, bodyB);
      } else {
        m1 := PreSolveManifoldStatic(m, bodyA);
        m' := SolveSlotsStatic(m1, bodyA);
      }
      StepsKeep(m1, m');
    }

    /**
     * solveContacts (Solver.cpp:222-240): one velocity pass.  For each
     * manifold in order, a dynamic pair first merges its collision groups,
     * then every slot in use takes the normal and the friction impulse.
     * Afterwards every slot in use is clamped, only impulses changed, and
     * a body no manifold moves, or an immovable one, keeps its velocity.
     */
    method SolveContacts(bodies: seq<Body>, ghost groups: set<nat>)
      requires Indexed(bodies) && GroupsWithin(bodies, groups)
      requires forall i :: 0 <= i < |contacts.manifolds| ==> SlotsReady(contacts.manifolds[i])
      modifies this`passes, contacts`manifolds, Objects(bodies)`velocity, Objects(bodies)`angularVelocity, Objects(bodies)`currentGroup
      ensures Indexed(bodies) && GroupsWithin(bodies, groups)
      ensures |contacts.manifolds| == |old(contacts.manifolds)|
      ensures forall i :: 0 <= i < |contacts.manifolds| ==> Done(ContactPass, old(contacts.manifolds[i]), contacts.manifolds[i])
      ensures forall k :: 0 <= k < |bodies| && (UntouchedBy(old(contacts.manifolds), |old(contacts.manifolds)|, k) || Immovable(bodies[k])) ==>
                bodies[k].velocity == old(bodies[k].velocity) && bodies[k].angularVelocity == old(bodies[k].angularVelocity)
      ensures passes == old(passes) + [ContactPass]
    {
      ghost var ms := contacts.manifolds;
      ghost var v0 := Motions(bodies, ContactPass);
      var i := 0;
      while i < |contacts.manifolds|
        invariant PassedUpTo(ContactPass, i, bodies, ms, groups, v0) && passes == old(passes)
      {
        ContactStep(i, bodies, ms, groups, v0);
        i := i + 1;
      }
      passes := passes + [ContactPass];
    }

    /** Manifold `i` of solveContacts (Solver.cpp:225-238). */
    method ContactStep(i: int, bodies: seq<Body>, ghost ms: seq<Manifold>, ghost groups: set<nat>, ghost v0: seq<(Vector3, Vector3)>)
      requires PassedUpTo(ContactPass, i, bodies, ms, groups, v0) && i < |contacts.manifolds|
      modifies contacts`manifolds, Objects(bodies)`velocity, Objects(bodies)`angularVelocity, Objects(bodies)`currentGroup
      ensures PassedUpTo(ContactPass, i + 1, bodies, ms, groups, v0)
    {
      var m := contacts.manifolds[i];
      var bodyA, bodyB := bodies[m.bodyA], bodies[m.bodyB];
      ghost var before, groupsBefore := Motions(bodies, ContactPass), GroupList(bodies);
      var m' := SolveManifold(m, bodyA, bodyB);
      PassedSeqStep(ContactPass, i, ms, contacts.manifolds, |bodies|, m');
      contacts.manifolds := contacts.manifolds[i := m'];
      HeldStep(ContactPass, i, bodies, ms, v0, groups, before, groupsBefore);
    }

    /**
     * One manifold of solveContacts (Solver.cpp:225-238): a dynamic pair
     * merges its collision groups and solves its slots against both
     * bodies; otherwise the slots are solved against body A alone.
     */
    method SolveManifold(m: Manifold, bodyA: Body, bodyB: Body) returns (m': Manifold)
      requires WellFormed(m) && SlotsReady(m) && bodyA != bodyB
      modifies bodyA`velocity, bodyA`angularVelocity, bodyA`currentGroup, bodyB`velocity, bodyB`angularVelocity, bodyB`currentGroup
      ensures WellFormed(m') && Done(ContactPass, m, m')
      ensures Immovable(bodyA) ==> bodyA.velocity == old(bodyA.velocity) && bodyA.angularVelocity == old(bodyA.angularVelocity)
      ensures Immovable(bodyB) || !m.notStatB ==> bodyB.velocity == old(bodyB.velocity) && bodyB.angularVelocity == old(bodyB.angularVelocity)
      ensures bodyA.currentGroup in {old(bodyA.currentGroup), old(bodyB.currentGroup)}
      ensures bodyB.currentGroup in {old(bodyA.currentGroup), old(bodyB.currentGroup)}
    {
      if m.notStatB {
        bodyA.MergeCollisionGroup(bodyB);
        m' := SolveSlots(m, bodyA, bodyB);
      } else {
        m' := SolveSlotsStatic(m, bodyA);
      }
    }

    /**
     * solvePseudoContacts (Solver.cpp:242-258): one split-impulse pass.
     * For each manifold in order, a dynamic pair merges its collision
     * groups, then every slot in use takes the pseudo-impulse.  Afterwards
     * every pseudo-impulse in use is pushing, only pseudo-impulses changed,
     * and a body no manifold moves keeps its pseudo-velocities.
     */
    method SolvePseudoContacts(bodies: seq<Body>, ghost groups: set<nat>)
      requires Indexed(bodies) && GroupsWithin(bodies, groups)
      requires forall i :: 0 <= i < |contacts.manifolds| ==> SlotsReady(contacts.manifolds[i])
      modifies this`passes, contacts`manifolds, Objects(bodies)`pseudoVelocity, Objects(bodies)`pseudoAngularVelocity, Objects(bodies)`currentGroup
      ensures Indexed(bodies) && GroupsWithin(bodies, groups)
      ensures |contacts.manifolds| == |old(contacts.manifolds)|
      ensures forall i :: 0 <= i < |contacts.manifolds| ==> Done(PseudoPass, old(contacts.manifolds[i]), contacts.manifolds[i])
      ensures forall k :: 0 <= k < |bodies| && UntouchedBy(old(contacts.manifolds), |old(contacts.manifolds)|, k) ==>
                bodies[k].pseudoVelocity == old(bodies[k].pseudoVelocity) && bodies[k].pseudoAngularVelocity == old(bodies[k].pseudoAngularVelocity)
      ensures passes == old(passes) + [PseudoPass]
    {
      ghost var ms := contacts.manifolds;
      ghost var v0 := Motions(bodies, PseudoPass);
      var i := 0;
      while i < |contacts.manifolds|
        invariant PassedUpTo(PseudoPass, i, bodies, ms, groups, v0) && passes == old(passes)
      {
        PseudoStep(i, bodies, ms, groups, v0);
        i := i + 1;
      }
      passes := passes + [PseudoPass];
    }

    /** Manifold `i` of solvePseudoContacts (Solver.cpp:245-256). */
    method PseudoStep(i: int, bodies: seq<Body>, ghost ms: seq<Manifold>, ghost groups: set<nat>, ghost v0: seq<(Vector3, Vector3)>)
      requires PassedUpTo(PseudoPass, i, bodies, ms, groups, v0) && i < |contacts.manifolds|
      modifies contacts`manifolds, Objects(bodies)`pseudoVelocity, Objects(bodies)`pseudoAngularVelocity, Objects(bodies)`currentGroup
      ensures PassedUpTo(PseudoPass, i + 1, bodies, ms, groups, v0)
    {
      var m := contacts.manifolds[i];
      var bodyA, bodyB := bodies[m.bodyA], bodies[m.bodyB];
      ghost var before, groupsBefore := Motions(bodies, PseudoPass), GroupList(bodies);
      var m' := PseudoManifold(m, bodyA, bodyB);
      PassedSeqStep(PseudoPass, i, ms, contacts.manifolds, |bodies|, m');
      contacts.manifolds := contacts.manifolds[i := m'];
      HeldStep(PseudoPass, i, bodies, ms, v0, groups, before, groupsBefore);
    }

    /**
     * One manifold of solvePseudoContacts (Solver.cpp:245-256): a dynamic
     * pair merges its collision groups and solves its slots against both
     * bodies; otherwise against body A alone.
     */
    method PseudoManifold(m: Manifold, bodyA: Body, bodyB: Body) returns (m': Manifold)
      requires WellFormed(m) && SlotsReady(m) && bodyA != bodyB
      modifies bodyA`pseudoVelocity, bodyA`pseudoAngularVelocity, bodyA`currentGroup
      modifies bodyB`pseudoVelocity, bodyB`pseudoAngularVelocity, bodyB`currentGroup
      ensures WellFormed(m') && Done(PseudoPass, m, m')
      ensures !m.notStatB ==> bodyB.pseudoVelocity == old(bodyB.pseudoVelocity) && bodyB.pseudoAngularVelocity == old(bodyB.pseudoAngularVelocity)
      ensures bodyA.currentGroup in {old(bodyA.currentGroup), old(bodyB.currentGroup)}
      ensures bodyB.currentGroup in {old(bodyA.currentGroup), old(bodyB.currentGroup)}
    {
      if m.notStatB {
        bodyA.MergeCollisionGroup(bodyB);
        m' := SolvePseudoSlots(m, bodyA, bodyB);
      } else {
        m' := SolvePseudoSlotsStatic(m, bodyA);
      }
    }
  
    /**
     * solve() (Solver.cpp:260-268): the preparing pass, then
     * countIterations - 1 more velocity passes, then splitIterations
     * pseudo passes.  Afterwards every manifold is settled, pushing when a
     * pseudo pass ran; a body no manifold moves keeps all its velocities,
     * an immovable body its velocity, and every collision group stays
     * among `groups`.
     */
    method Solve(bodies: seq<Body>, ghost groups: set<nat>)
      requires Indexed(bodies) && Weighted(contacts.manifolds, bodies) && GroupsWithin(bodies, groups)
      modifies this`passes, contacts`manifolds, Objects(bodies)`velocity, Objects(bodies)`angularVelocity,
               Objects(bodies)`pseudoVelocity, Objects(bodies)`pseudoAngularVelocity, Objects(bodies)`currentGroup
      ensures passes == old(passes) + [PreSolvePass] + Repeat(ContactPass, countIterations - 1) + Repeat(PseudoPass, splitIterations)
      ensures Indexed(bodies) && GroupsWithin(bodies, groups) && |contacts.manifolds| == |old(contacts.manifolds)|
      ensures forall q :: 0 <= q < |contacts.manifolds| ==>
                Settled(old(contacts.manifolds[q]), contacts.manifolds[q], splitIterations > 0)
      ensures forall k :: 0 <= k < |bodies| && UntouchedBy(old(contacts.manifolds), |old(contacts.manifolds)|, k) ==>
                Motions(bodies, ContactPass)[k] == old(Motions(bodies, ContactPass))[k]
                && Motions(bodies, PseudoPass)[k] == old(Motions(bodies, PseudoPass))[k]
      ensures forall k :: 0 <= k < |bodies| && Immovable(bodies[k]) ==>
                Motions(bodies, ContactPass)[k] == old(Motions(bodies, ContactPass))[k]
    {
      ghost var ms := contacts.manifolds;
      ghost var v0, w0 := Motions(bodies, ContactPass), Motions(bodies, PseudoPass);
      PreSolve(bodies, groups);
      ContactPasses(bodies, groups, ms, v0, w0);
      PseudoPasses(bodies, groups, ms, v0, w0);
    }

    /** solve()'s first loop (Solver.cpp:264-265): countIterations - 1 velocity passes after the preparing one. */
    method ContactPasses(bodies: seq<Body>, ghost groups: set<nat>, ghost ms: seq<Manifold>,
                         ghost v0: seq<(Vector3, Vector3)>, ghost w0: seq<(Vector3, Vector3)>)
      requires Indexed(bodies) && GroupsWithin(bodies, groups) && |contacts.manifolds| == |ms|
      requires |v0| == |bodies| && w0 == Motions(bodies, PseudoPass)
      requires forall q :: 0 <= q < |ms| ==> Settled(ms[q], contacts.manifolds[q], false)
      requires forall k :: 0 <= k < |bodies| && (UntouchedBy(ms, |ms|, k) || Immovable(bodies[k])) ==>
                 Motions(bodies, ContactPass)[k] == v0[k]
      modifies this`passes, contacts`manifolds, Objects(bodies)`velocity, Objects(bodies)`angularVelocity, Objects(bodies)`currentGroup
      ensures passes == old(passes) + Repeat(ContactPass, countIterations - 1)
      ensures Indexed(bodies) && GroupsWithin(bodies, groups) && |contacts.manifolds| == |ms|
      ensures forall q :: 0 <= q < |ms| ==> Settled(ms[q], contacts.manifolds[q], false)
      ensures forall k :: 0 <= k < |bodies| && (UntouchedBy(ms, |ms|, k) || Immovable(bodies[k])) ==>
                Motions(bodies, ContactPass)[k] == v0[k]
      ensures forall k :: 0 <= k < |bodies| ==> Motions(bodies, PseudoPass)[k] == w0[k]
    {
      var i := 1;
      while i < countIterations
        invariant 1 <= i <= (if countIterations >= 1 then countIterations else 1)
        invariant passes == old(passes) + Repeat(ContactPass, i - 1)
        invariant Indexed(bodies) && GroupsWithin(bodies, groups) && |contacts.manifolds| == |ms|
        invariant forall q :: 0 <= q < |ms| ==> Settled(ms[q], contacts.manifolds[q], false)
        invariant forall k :: 0 <= k < |bodies| && (UntouchedBy(ms, |ms|, k) || Immovable(bodies[k])) ==>
                    Motions(bodies, ContactPass)[k] == v0[k]
        invariant forall k :: 0 <= k < |bodies| ==> Motions(bodies, PseudoPass)[k] == w0[k]
      {
        ContactPassAgain(bodies, groups, ms, v0);
        i := i + 1;
      }
    }

    /** solve()'s second loop (Solver.cpp:266-267): splitIterations pseudo passes. */
    method PseudoPasses(bodies: seq<Body>, ghost groups: set<nat>, ghost ms: seq<Manifold>,
                        ghost v0: seq<(Vector3, Vector3)>, ghost w0: seq<(Vector3, Vector3)>)
      requires Indexed(bodies) && GroupsWithin(bodies, groups) && |contacts.manifolds| == |ms|
      requires |v0| == |bodies| && |w0| == |bodies|
      requires forall q :: 0 <= q < |ms| ==> Settled(ms[q], contacts.manifolds[q], false)
      requires forall k :: 0 <= k < |bodies| && (UntouchedBy(ms, |ms|, k) || Immovable(bodies[k])) ==>
                 Motions(bodies, ContactPass)[k] == v0[k]
      requires forall k :: 0 <= k < |bodies| && UntouchedBy(ms, |ms|, k) ==> Motions(bodies, PseudoPass)[k] == w0[k]
      modifies this`passes, contacts`manifolds, Objects(bodies)`pseudoVelocity, Objects(bodies)`pseudoAngularVelocity, Objects(bodies)`currentGroup
      ensures passes == old(passes) + Repeat(PseudoPass, splitIterations)
      ensures Indexed(bodies) && GroupsWithin(bodies, groups) && |contacts.manifolds| == |ms|
      ensures forall q :: 0 <= q < |ms| ==> Settled(ms[q], contacts.manifolds[q], splitIterations > 0)
      ensures forall k :: 0 <= k < |bodies| && (UntouchedBy(ms, |ms|, k) || Immovable(bodies[k])) ==>
                Motions(bodies, ContactPass)[k] == v0[k]
      ensures forall k :: 0 <= k < |bodies| && UntouchedBy(ms, |ms|, k) ==> Motions(bodies, PseudoPass)[k] == w0[k]
    {
      var j := 0;
      while j < splitIterations
        invariant 0 <= j <= (if splitIterations >= 0 then splitIterations else 0)
        invariant passes == old(passes) + Repeat(PseudoPass, j)
        invariant Indexed(bodies) && GroupsWithin(bodies, groups) && |contacts.manifolds| == |ms|
        invariant forall q :: 0 <= q < |ms| ==> Settled(ms[q], contacts.manifolds[q], j > 0)
        invariant forall k :: 0 <= k < |bodies| && UntouchedBy(ms, |ms|, k) ==> Motions(bodies, PseudoPass)[k] == w0[k]
      {
        PseudoPassAgain(bodies, groups, ms, w0, j > 0);
        j := j + 1;
      }
    }

    /** One velocity pass of solve()'s first loop (Solver.cpp:264-265), on settled manifolds. */
    method ContactPassAgain(bodies: seq<Body>, ghost groups: set<nat>, ghost ms: seq<Manifold>, ghost v0: seq<(Vector3, Vector3)>)
      requires Indexed(bodies) && GroupsWithin(bodies, groups) && |contacts.manifolds| == |ms| && |v0| == |bodies|
      requires forall q :: 0 <= q < |ms| ==> Settled(ms[q], contacts.manifolds[q], false)
      requires forall k :: 0 <= k < |bodies| && (UntouchedBy(ms, |ms|, k) || Immovable(bodies[k])) ==>
                 Motions(bodies, ContactPass)[k] == v0[k]
      modifies this`passes, contacts`manifolds, Objects(bodies)`velocity, Objects(bodies)`angularVelocity, Objects(bodies)`currentGroup
      ensures passes == old(passes) + [ContactPass]
      ensures Indexed(bodies) && GroupsWithin(bodies, groups) && |contacts.manifolds| == |ms|
      ensures forall q :: 0 <= q < |ms| ==> Settled(ms[q], contacts.manifolds[q], false)
      ensures forall k :: 0 <= k < |bodies| && (UntouchedBy(ms, |ms|, k) || Immovable(bodies[k])) ==>
                Motions(bodies, ContactPass)[k] == v0[k]
    {
      ghost var prev := contacts.manifolds;
      SolveContacts(bodies, groups);
      forall q | 0 <= q < |ms|
        ensures Settled(ms[q], contacts.manifolds[q], false)
      {
        SettledAfter(ContactPass, ms[q], prev[q], contacts.manifolds[q], false);
      }
    }

    /** One pseudo pass of solve()'s second loop (Solver.cpp:266-267), on settled manifolds. */
    method PseudoPassAgain(bodies: seq<Body>, ghost groups: set<nat>, ghost ms: seq<Manifold>, ghost w0: seq<(Vector3, Vector3)>, ghost pushed: bool)
      requires Indexed(bodies) && GroupsWithin(bodies, groups) && |contacts.manifolds| == |ms| && |w0| == |bodies|
      requires forall q :: 0 <= q < |ms| ==> Settled(ms[q], contacts.manifolds[q], pushed)
      requires forall k :: 0 <= k < |bodies| && UntouchedBy(ms, |ms|, k) ==> Motions(bodies, PseudoPass)[k] == w0[k]
      modifies this`passes, contacts`manifolds, Objects(bodies)`pseudoVelocity, Objects(bodies)`pseudoAngularVelocity, Objects(bodies)`currentGroup
      ensures passes == old(passes) + [PseudoPass]
      ensures Indexed(bodies) && GroupsWithin(bodies, groups) && |contacts.manifolds| == |ms|
      ensures forall q :: 0 <= q < |ms| ==> Settled(ms[q], contacts.manifolds[q], true)
      ensures forall k :: 0 <= k < |bodies| && UntouchedBy(ms, |ms|, k) ==> Motions(bodies, PseudoPass)[k] == w0[k]
    {
      ghost var prev := contacts.manifolds;
      SolvePseudoContacts(bodies, groups);
      forall q | 0 <= q < |ms|
        ensures Settled(ms[q], contacts.manifolds[q], true)
      {
        SettledAfter(PseudoPass, ms[q], prev[q], contacts.manifolds[q], pushed);
      }
    }
  }
}
