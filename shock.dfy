/**
 * Shock propagation (ShockPropagationSolver.cpp): after the ordinary solve,
 * the manifolds are layered outward from the ones resting on static bodies,
 * and each layer is solved once more with the lower body held fixed, so
 * that weight rests on what lies beneath it.
 */
module ShockPropagation {
  import opened Settings
  import opened Vector3Math
  import opened Bodies
  import opened Contacts
  import opened Solvers

  /**
   * The impulse solveImpulseSP and solvePseudoImpulseSP apply for an
   * increment `j` (ShockPropagationSolver.cpp:25, 46): all of it when it
   * pushes, none otherwise.  That is what the accumulating solver applies
   * from an empty accumulator, but here nothing is accumulated.
   */
  function PushOnly(j: real): (r: real)
    ensures r >= 0.0 && (r == 0.0 || r == j)
    ensures r == Accumulated(0.0, j).1
  {
    if j > 0.0 then j else 0.0
  }

  /**
   * solveImpulseSP (ShockPropagationSolver.cpp:21-29): the normal impulse
   * against body A alone, applied only when it pushes; the slot record is
   * only read.
   */
  method SolveImpulseSP(e: real, bodyA: Body, normal: Vector3, cPA: RPoint, c: InfoPoint)
    requires c.kNormal != 0.0
    modifies bodyA`velocity, bodyA`angularVelocity
    ensures var j := NormalDelta(c.depthA, e, StaticSpeed(old(bodyA.velocity), old(bodyA.angularVelocity), normal, cPA.rn), c.kNormal);
            if j > 0.0
            then bodyA.velocity == Add(old(bodyA.velocity), Scale(normal, Turn(bodyA.invMass, j)))
                 && bodyA.angularVelocity == Add(old(bodyA.angularVelocity), Scale(cPA.rn, Turn(bodyA.invInertia, j)))
            else bodyA.velocity == old(bodyA.velocity) && bodyA.angularVelocity == old(bodyA.angularVelocity)
  {
    var nVelProj := StaticSpeed(bodyA.velocity, bodyA.angularVelocity, normal, cPA.rn);
    var impulse := NormalDelta(c.depthA, e, nVelProj, c.kNormal);
    if impulse > 0.0 {
      bodyA.ApplyLinearImpulse(normal, impulse);
      bodyA.ApplyAngularImpulse(cPA.rn, impulse);
    }
  }

  /**
   * solveImpulseFrictionSP (ShockPropagationSolver.cpp:31-40): the friction
   * increment clamped to [-mu*impulse, mu*impulse] of the slot's normal
   * impulse, applied to body A alone; nothing is accumulated.
   */
  method SolveFrictionSP(mu: real, bodyA: Body, cPA: RPoint, c: InfoPoint)
    requires c.kBinormal != 0.0
    modifies bodyA`velocity, bodyA`angularVelocity
    ensures var f := FrictionDelta(StaticSpeed(old(bodyA.velocity), old(bodyA.angularVelocity), c.binormal, cPA.rb), c.kBinormal);
            var (_, j) := FrictionClamped(0.0, f, FrictionLimit(c.impulse, mu));
            bodyA.velocity == Add(old(bodyA.velocity), Scale(c.binormal, Turn(bodyA.invMass, j)))
            && bodyA.angularVelocity == Add(old(bodyA.angularVelocity), Scale(cPA.rb, Turn(bodyA.invInertia, j)))
  {
    var nVelProj := StaticSpeed(bodyA.velocity, bodyA.angularVelocity, c.binormal, cPA.rb);
    var impulseMax := FrictionLimit(c.impulse, mu);
    var impulseFriction := FrictionDelta(nVelProj, c.kBinormal);
    impulseFriction := Max(-impulseMax, Min(impulseFriction, impulseMax));
    bodyA.ApplyLinearImpulse(c.binormal, impulseFriction);
    bodyA.ApplyAngularImpulse(cPA.rb, impulseFriction);
  }

  /**
   * The friction solveImpulseFrictionSP applies stays inside the Coulomb
   * bound of the slot's normal impulse.
   */
  lemma FrictionSPBounded(f: real, impulse: real, mu: real)
    requires impulse >= 0.0 && mu >= 0.0
    ensures var (_, j) := FrictionClamped(0.0, f, FrictionLimit(impulse, mu));
            -FrictionLimit(impulse, mu) <= j <= FrictionLimit(impulse, mu)
  {
  }

  /**
   * solvePseudoImpulseSP (ShockPropagationSolver.cpp:42-50): the
   * pseudo-impulse against body A alone, applied to its pseudo-velocities
   * only when it pushes.
   */
  method SolvePseudoSP(bodyA: Body, normal: Vector3, cPA: RPoint, c: InfoPoint)
    requires c.kPseudo != 0.0
    modifies bodyA`pseudoVelocity, bodyA`pseudoAngularVelocity
    ensures var j := PseudoDelta(c.depthB, StaticSpeed(old(bodyA.pseudoVelocity), old(bodyA.pseudoAngularVelocity), normal, cPA.rn), c.kPseudo);
            if j > 0.0
            then bodyA.pseudoVelocity == Add(old(bodyA.pseudoVelocity), Scale(normal, j))
                 && bodyA.pseudoAngularVelocity == Add(old(bodyA.pseudoAngularVelocity), Scale(cPA.rn, Turn(bodyA.invInertia, j)))
            else bodyA.pseudoVelocity == old(bodyA.pseudoVelocity) && bodyA.pseudoAngularVelocity == old(bodyA.pseudoAngularVelocity)
  {
    var nVelProj := StaticSpeed(bodyA.pseudoVelocity, bodyA.pseudoAngularVelocity, normal, cPA.rn);
    var pseudoImpulse := PseudoDelta(c.depthB, nVelProj, c.kPseudo);
    if pseudoImpulse > 0.0 {
      bodyA.ApplyLinearPseudoImpulse(normal, pseudoImpulse);
      bodyA.ApplyAngularPseudoImpulse(cPA.rn, pseudoImpulse);
    }
  }

  /**
   * _swapBodyOnContactManifold (ShockPropagationSolver.cpp:52-66): the
   * bodies trade places, so do the point records of the slots in use with
   * r x n and r x binormal negated, and the normal is reversed.
   */
  method SwapBodyOnContactManifold(cM: Manifold) returns (cM': Manifold)
    requires WellFormed(cM)
    ensures cM' == Swapped(cM)
  {
    cM' := cM.(bodyA := cM.bodyB, bodyB := cM.bodyA);
    var i := 0;
    while i < cM.countPoints
      invariant 0 <= i <= cM.countPoints && WellFormed(cM')
      invariant cM'.(pointA := cM.pointA, pointB := cM.pointB) == cM.(bodyA := cM.bodyB, bodyB := cM.bodyA)
      invariant forall k :: 0 <= k < MAX_MANIFOLD_POINTS ==>
                  cM'.pointA[k] == (if k < i then Flipped(cM.pointB[k]) else cM.pointA[k])
                  && cM'.pointB[k] == (if k < i then Flipped(cM.pointA[k]) else cM.pointB[k])
    {
      var t := cM'.pointA[i];
      cM' := cM'.(pointA := cM'.pointA[i := Flipped(cM'.pointB[i])], pointB := cM'.pointB[i := Flipped(t)]);
      i := i + 1;
    }
    cM' := cM'.(normal := Neg(cM'.normal));
    assert cM'.pointA == Swapped(cM).pointA && cM'.pointB == Swapped(cM).pointB;
  }

  /** A swap, repeated, restores the manifold: _swapBodyOnContactManifold is an involution. */
  lemma SwapInvolution(cM: Manifold)
    requires WellFormed(cM)
    ensures WellFormed(Swapped(cM)) && Swapped(Swapped(cM)) == cM
  {
    SwappedTwice(cM);
  }

  /**
   * The indices below `n` of the manifolds whose body B is static, in
   * increasing order: the first loop of _computeGraph
   * (ShockPropagationSolver.cpp:72-77).
   */
  function StaticIndices(ms: seq<Manifold>, n: int): (r: seq<int>)
    requires 0 <= n <= |ms|
    ensures |r| <= n
    decreases n
  {
    if n == 0 then [] else StaticIndices(ms, n - 1) + (if ms[n - 1].notStatB then [] else [n - 1])
  }

  /** Each entry of StaticIndices is a static manifold below `n`, in increasing order. */
  lemma {:induction false} StaticIndicesSound(ms: seq<Manifold>, n: int)
    requires 0 <= n <= |ms|
    ensures forall p :: 0 <= p < |StaticIndices(ms, n)| ==> 0 <= StaticIndices(ms, n)[p] < n && !ms[StaticIndices(ms, n)[p]].notStatB
    ensures forall p, q :: 0 <= p < q < |StaticIndices(ms, n)| ==> StaticIndices(ms, n)[p] < StaticIndices(ms, n)[q]
    decreases n
  {
    if n > 0 {
      StaticIndicesSound(ms, n - 1);
    }
  }

  /** Every static manifold below `n` is an entry of StaticIndices. */
  lemma {:induction false} StaticIndicesComplete(ms: seq<Manifold>, n: int)
    requires 0 <= n <= |ms|
    ensures forall i :: 0 <= i < n && !ms[i].notStatB ==> i in StaticIndices(ms, n)
    decreases n
  {
    if n > 0 {
      StaticIndicesComplete(ms, n - 1);
    }
  }

  /** How many manifolds are not yet marked solved. */
  function CountUnsolved(ms: seq<Manifold>): (r: nat)
    ensures r <= |ms|
  {
    if ms == [] then 0 else CountUnsolved(ms[..|ms| - 1]) + (if ms[|ms| - 1].solved then 0 else 1)
  }

  /** Replacing one manifold changes the count by the change in its own flag. */
  lemma {:induction false} CountUnsolvedUpdate(ms: seq<Manifold>, i: int, m: Manifold)
    requires 0 <= i < |ms|
    ensures CountUnsolved(ms[i := m]) == CountUnsolved(ms) - (if ms[i].solved then 0 else 1) + (if m.solved then 0 else 1)
    decreases |ms|
  {
    var ms' := ms[i := m];
    if i < |ms| - 1 {
      assert ms'[..|ms'| - 1] == ms[..|ms| - 1][i := m];
      CountUnsolvedUpdate(ms[..|ms| - 1], i, m);
    } else {
      assert ms'[..|ms'| - 1] == ms[..|ms| - 1];
    }
  }

  /** Every entry of the graph names a manifold of the list. */
  predicate GraphBelow(graph: seq<int>, n: int)
  {
    forall p :: 0 <= p < |graph| ==> 0 <= graph[p] < n
  }

  /** No manifold appears twice in the graph. */
  predicate GraphDistinct(graph: seq<int>)
  {
    forall p, q :: 0 <= p < q < |graph| ==> graph[p] != graph[q]
  }

  /** Body `b` is the body A of a manifold among graph entries lo..hi-1. */
  predicate InLayer(ms: seq<Manifold>, graph: seq<int>, lo: int, hi: int, b: int)
  {
    exists j :: lo <= j < hi && 0 <= j < |graph| && 0 <= graph[j] < |ms| && ms[graph[j]].bodyA == b
  }

  /**
   * The inner search of _computeGraph (ShockPropagationSolver.cpp:92-98,
   * 108-114): whether body `b` is the body A of a manifold of the layer.
   */
  method FindInLayer(ms: seq<Manifold>, graph: seq<int>, lo: int, hi: int, b: int) returns (found: bool)
    requires 0 <= lo <= hi <= |graph| && GraphBelow(graph, |ms|)
    ensures found == InLayer(ms, graph, lo, hi, b)
  {
    found := false;
    var k := lo;
    while k < hi
      invariant lo <= k <= hi
      invariant !InLayer(ms, graph, lo, k, b)
    {
      if ms[graph[k]].bodyA == b {
        found := true;
        break;
      }
      k := k + 1;
    }
  }

  /**
   * What one unsolved manifold `m0` becomes in a layer, given whether its
   * body A (`inA`) and its body B (`inB`) are the body A of a manifold of
   * the previous layer: touching it with body A alone, it is turned round
   * so that the new body sits as A, marked solved and attached; touching
   * it with body B alone, it is marked solved and attached as it is;
   * touching it with both, it is marked solved and dropped; otherwise it
   * is left for a later layer.
   */
  predicate Attached(m0: Manifold, m: Manifold, pushed: bool, inA: bool, inB: bool)
    requires WellFormed(m0)
  {
    if inA && !inB then pushed && m == Swapped(m0).(solved := true)
    else if inB && !inA then pushed && m == m0.(solved := true)
    else if inA then !pushed && m == m0.(solved := true)
    else !pushed && m == m0
  }

  /**
   * The search of one unsolved manifold `i` against the layer lo..hi-1 in
   * _computeGraph (ShockPropagationSolver.cpp:88-122): the attached
   * manifold's new body A gets the layer's start as its level.
   */
  method Attach(ms: seq<Manifold>, graph: seq<int>, lo: int, hi: int, i: int, bodies: seq<Body>)
    returns (m: Manifold, pushed: bool)
    requires 0 <= lo <= hi <= |graph| && GraphBelow(graph, |ms|) && 0 <= i < |ms| && WellFormed(ms[i])
    requires 0 <= ms[i].bodyA < |bodies| && 0 <= ms[i].bodyB < |bodies| && bodies[ms[i].bodyA] != bodies[ms[i].bodyB]
    modifies {bodies[ms[i].bodyA], bodies[ms[i].bodyB]}`level
    ensures Attached(ms[i], m, pushed, InLayer(ms, graph, lo, hi, ms[i].bodyA), InLayer(ms, graph, lo, hi, ms[i].bodyB))
    ensures pushed ==> bodies[m.bodyA].level == hi && bodies[m.bodyB].level == old(bodies[m.bodyB].level)
    ensures !pushed ==> bodies[ms[i].bodyA].level == old(bodies[ms[i].bodyA].level)
                        && bodies[ms[i].bodyB].level == old(bodies[ms[i].bodyB].level)
  {
    ghost var m0, a, b := ms[i], ms[i].bodyA, ms[i].bodyB;
    m := ms[i];
    pushed := false;
    var j := lo;
    while j < hi
      invariant lo <= j <= hi && !pushed
      invariant m == if InLayer(ms, graph, lo, j, a) || InLayer(ms, graph, lo, j, b) then m0.(solved := true) else m0
      invariant InLayer(ms, graph, lo, j, a) || InLayer(ms, graph, lo, j, b) ==>
                  InLayer(ms, graph, lo, hi, a) && InLayer(ms, graph, lo, hi, b)
      invariant bodies[a].level == old(bodies[a].level) && bodies[b].level == old(bodies[b].level)
    {
      if ms[graph[j]].bodyA == m.bodyA {
        m := m.(solved := true);
        var flag := FindInLayer(ms, graph, lo, hi, m.bodyB);
        if !flag {
          bodies[m.bodyB].level := hi;
          m := SwapBodyOnContactManifold(m);
          pushed := true;
          break;
        }
      } else if ms[graph[j]].bodyA == m.bodyB {
        m := m.(solved := true);
        var flag := FindInLayer(ms, graph, lo, hi, m.bodyA);
        if !flag {
          bodies[m.bodyA].level := hi;
          pushed := true;
          break;
        }
      }
      j := j + 1;
    }
  }

  /** Graph entry `p` rests on an earlier one: its body B is the body A of a manifold entered before it. */
  predicate Supported(cur: seq<Manifold>, graph: seq<int>, p: int)
  {
    0 <= p < |graph| && 0 <= graph[p] < |cur|
    && exists q :: 0 <= q < p && 0 <= graph[q] < |cur| && cur[graph[q]].bodyA == cur[graph[p]].bodyB
  }

  /** A manifold `m` that began as `m0`: the same or turned round, with any solved flag. */
  predicate Variant(m0: Manifold, m: Manifold)
  {
    m.(solved := m0.solved) == m0 || (WellFormed(m0) && m.(solved := m0.solved) == Swapped(m0))
  }

  /**
   * The manifolds `cur`, begun as `ms`: each well formed, pairing two
   * different bodies of a list of `n`, the one it began as or turned
   * round, and solved when its body B is static.
   */
  predicate Shaped(ms: seq<Manifold>, cur: seq<Manifold>, n: int)
  {
    |cur| == |ms| && AllWellFormed(cur) && BodiesBelow(cur, n) && PairsApart(cur)
    && (forall i :: 0 <= i < |cur| ==> Variant(ms[i], cur[i]))
    && (forall i :: 0 <= i < |cur| && !cur[i].notStatB ==> cur[i].solved)
  }

  /**
   * The graph names each manifold at most once, all of them solved, and
   * its first `countStatic` entries are the manifolds of `ms` whose body
   * B is static, in order.
   */
  predicate Entered(ms: seq<Manifold>, cur: seq<Manifold>, graph: seq<int>, countStatic: int)
  {
    GraphBelow(graph, |cur|) && GraphDistinct(graph)
    && 0 <= countStatic <= |graph| && |ms| == |cur| && graph[..countStatic] == StaticIndices(ms, |ms|)
    && (forall p :: 0 <= p < |graph| ==> cur[graph[p]].solved)
  }

  /** Every entry after the first `countStatic` pairs two dynamic bodies and rests on an earlier entry. */
  predicate Rests(cur: seq<Manifold>, graph: seq<int>, countStatic: int)
  {
    forall p :: 0 <= p < |graph| && countStatic <= p ==> 0 <= graph[p] < |cur| && cur[graph[p]].notStatB && Supported(cur, graph, p)
  }

  /** The manifolds and the graph _computeGraph keeps between its steps. */
  predicate Layered(ms: seq<Manifold>, cur: seq<Manifold>, graph: seq<int>, countStatic: int, n: int)
  {
    Shaped(ms, cur, n) && Entered(ms, cur, graph, countStatic) && Rests(cur, graph, countStatic)
  }

  /**
   * The state after the first loop of _computeGraph: the static manifolds,
   * marked solved, in order, make a layered graph of their own.
   */
  lemma StaticLayered(ms: seq<Manifold>, cur: seq<Manifold>, n: int)
    requires AllWellFormed(ms) && BodiesBelow(ms, n) && PairsApart(ms) && |cur| == |ms|
    requires forall q :: 0 <= q < |ms| ==> cur[q] == if !ms[q].notStatB then ms[q].(solved := true) else ms[q]
    ensures var graph := StaticIndices(ms, |ms|); Layered(ms, cur, graph, |graph|, n)
  {
    var graph := StaticIndices(ms, |ms|);
    StaticIndicesSound(ms, |ms|);
    StaticIndicesComplete(ms, |ms|);
    assert graph[..|graph|] == graph;
    forall i | 0 <= i < |cur|
      ensures Variant(ms[i], cur[i])
    {
      assert cur[i].(solved := ms[i].solved) == ms[i];
    }
  }

  /**
   * What Attach's outcome gives the graph: the manifold is the same or
   * turned round, keeps its shape and body pairing, is solved unless left
   * as it was, and, when attached, its body B is the body A of a manifold
   * of the layer.
   */
  lemma AttachedFacts(cur: seq<Manifold>, graph: seq<int>, lo: int, hi: int, i: int, m: Manifold, pushed: bool)
    requires 0 <= i < |cur| && WellFormed(cur[i])
    requires Attached(cur[i], m, pushed, InLayer(cur, graph, lo, hi, cur[i].bodyA), InLayer(cur, graph, lo, hi, cur[i].bodyB))
    ensures m.(solved := cur[i].solved) == cur[i] || m.(solved := cur[i].solved) == Swapped(cur[i])
    ensures WellFormed(m) && m.notStatB == cur[i].notStatB && (m == cur[i] || m.solved)
    ensures {m.bodyA, m.bodyB} == {cur[i].bodyA, cur[i].bodyB}
    ensures pushed ==> m.solved && InLayer(cur, graph, lo, hi, m.bodyB)
  {
    SwapKeeps(cur[i]);
  }

  /** Replacing an unsolved manifold by a variant of it keeps the manifolds shaped. */
  lemma ShapedStep(ms: seq<Manifold>, cur: seq<Manifold>, n: int, i: int, m: Manifold)
    requires Shaped(ms, cur, n) && 0 <= i < |cur| && !cur[i].solved
    requires m.(solved := cur[i].solved) == cur[i] || m.(solved := cur[i].solved) == Swapped(cur[i])
    ensures Shaped(ms, cur[i := m], n)
  {
    SwapKeeps(cur[i]);
    VariantStep(ms[i], cur[i], m);
  }

  /** Marking an unsolved manifold solved, and entering it when attached, keeps the graph entered. */
  lemma EnteredStep(ms: seq<Manifold>, cur: seq<Manifold>, graph: seq<int>, countStatic: int, i: int, m: Manifold, pushed: bool)
    requires Entered(ms, cur, graph, countStatic) && 0 <= i < |cur| && !cur[i].solved && (pushed ==> m.solved)
    ensures Entered(ms, cur[i := m], if pushed then graph + [i] else graph, countStatic)
  {
    var graph' := if pushed then graph + [i] else graph;
    assert graph'[..countStatic] == graph[..countStatic];
  }

  /** Entering a manifold whose body B is the body A of an earlier entry keeps every entry resting. */
  lemma RestsStep(cur: seq<Manifold>, graph: seq<int>, countStatic: int, lo: int, hi: int, i: int, m: Manifold, pushed: bool)
    requires Rests(cur, graph, countStatic) && GraphBelow(graph, |cur|) && 0 <= countStatic
    requires forall p :: 0 <= p < |graph| ==> cur[graph[p]].solved
    requires 0 <= i < |cur| && !cur[i].solved && m.notStatB == cur[i].notStatB && m.bodyB in {cur[i].bodyA, cur[i].bodyB}
    requires 0 <= lo <= hi <= |graph| && (pushed ==> cur[i].notStatB && InLayer(cur, graph, lo, hi, m.bodyB))
    ensures Rests(cur[i := m], if pushed then graph + [i] else graph, countStatic)
  {
    var cur', graph' := cur[i := m], if pushed then graph + [i] else graph;
    forall p | countStatic <= p < |graph|
      ensures Supported(cur', graph', p)
    {
      var q :| 0 <= q < p && 0 <= graph[q] < |cur| && cur[graph[q]].bodyA == cur[graph[p]].bodyB;
      assert cur'[graph'[q]].bodyA == cur'[graph'[p]].bodyB;
    }
    if pushed {
      var j :| lo <= j < hi && 0 <= j < |graph| && 0 <= graph[j] < |cur| && cur[graph[j]].bodyA == m.bodyB;
      assert cur'[graph'[j]].bodyA == cur'[graph'[|graph|]].bodyB;
    }
  }

  /**
   * Attaching manifold `i` as Attach decides keeps the graph layered, and
   * each attachment marks one more manifold solved.
   */
  lemma LayeredStep(ms: seq<Manifold>, cur: seq<Manifold>, graph: seq<int>, countStatic: int, n: int,
                    i: int, lo: int, hi: int, m: Manifold, pushed: bool)
    requires Layered(ms, cur, graph, countStatic, n) && 0 <= lo <= hi <= |graph| && 0 <= i < |cur| && !cur[i].solved
    requires Attached(cur[i], m, pushed, InLayer(cur, graph, lo, hi, cur[i].bodyA), InLayer(cur, graph, lo, hi, cur[i].bodyB))
    ensures Layered(ms, cur[i := m], if pushed then graph + [i] else graph, countStatic, n)
    ensures CountUnsolved(cur[i := m]) + (if pushed then 1 else 0) <= CountUnsolved(cur)
  {
    AttachedFacts(cur, graph, lo, hi, i, m, pushed);
    CountUnsolvedUpdate(cur, i, m);
    ShapedStep(ms, cur, n, i, m);
    EnteredStep(ms, cur, graph, countStatic, i, m, pushed);
    RestsStep(cur, graph, countStatic, lo, hi, i, m, pushed);
  }

  /** Turning a manifold round keeps its shape, flags and material and swaps its bodies. */
  lemma SwapKeeps(m: Manifold)
    requires WellFormed(m)
    ensures WellFormed(Swapped(m)) && Swapped(m).notStatB == m.notStatB && Swapped(m).solved == m.solved
    ensures Swapped(m).bodyA == m.bodyB && Swapped(m).bodyB == m.bodyA
  {
  }

  /** A variant of a variant, turned round or not, is a variant. */
  lemma VariantStep(m0: Manifold, m1: Manifold, m2: Manifold)
    requires Variant(m0, m1) && WellFormed(m1)
    requires m2.(solved := m1.solved) == m1 || m2.(solved := m1.solved) == Swapped(m1)
    ensures Variant(m0, m2)
  {
    if m1.(solved := m0.solved) == m0 {
      if m2.(solved := m1.solved) == Swapped(m1) {
        assert Swapped(m1).(solved := m0.solved) == Swapped(m0);
      }
    } else {
      assert m1 == Swapped(m0).(solved := m1.solved);
      if m2.(solved := m1.solved) == Swapped(m1) {
        SwappedTwice(m0);
        assert Swapped(m1) == Swapped(Swapped(m0)).(solved := m1.solved);
      }
    }
  }

  /** Line 87 of _computeGraph: body A and body B of a manifold join one collision group, which keeps every group among `groups`. */
  method MergeGroups(bodies: seq<Body>, ghost groups: set<nat>, a: int, b: int)
    requires 0 <= a < |bodies| && 0 <= b < |bodies| && GroupsWithin(bodies, groups)
    modifies {bodies[a], bodies[b]}`currentGroup
    ensures GroupsWithin(bodies, groups)
    ensures bodies[a].currentGroup == bodies[b].currentGroup
    ensures bodies[a].currentGroup in {old(bodies[a].currentGroup), old(bodies[b].currentGroup)}
  {
    bodies[a].MergeCollisionGroup(bodies[b]);
  }

  /**
   * The first loop of _computeGraph (ShockPropagationSolver.cpp:72-77) on
   * a manifold list: the indices of the manifolds whose body B is static,
   * in order, and the list with those marked solved.
   */
  method MarkStatic(ms: seq<Manifold>) returns (cms: seq<Manifold>, g: seq<int>)
    ensures g == StaticIndices(ms, |ms|) && |cms| == |ms|
    ensures forall q :: 0 <= q < |ms| ==> cms[q] == MarkedStatic(ms[q])
  {
    cms, g := ms, [];
    var i := 0;
    while i < |ms|
      invariant 0 <= i <= |ms| == |cms| && g == StaticIndices(ms, i)
      invariant forall q :: 0 <= q < |ms| ==> cms[q] == if q < i then MarkedStatic(ms[q]) else ms[q]
    {
      if !cms[i].notStatB {
        cms := cms[i := MarkedStatic(cms[i])];
        g := g + [i];
      }
      i := i + 1;
    }
  }

  /** A manifold whose body B is static, marked solved; any other as it is. */
  function MarkedStatic(m: Manifold): (r: Manifold)
    ensures r.(solved := m.solved) == m && (r.solved <==> m.solved || !m.notStatB)
  {
    if !m.notStatB then m.(solved := true) else m
  }

  /**
   * One slot of a graph entry resting on a static body in
   * solveShockPropagation (ShockPropagationSolver.cpp:136-138):
   * solveImpulse_static, solveImpulseFriction_static and
   * solvePseudoImpulse_static against body A, each accumulating into the
   * slot; afterwards the slot is clamped and pushing.
   */
  method SolveRestingSlot(m: Manifold, j: int, bodyA: Body) returns (c: InfoPoint)
    requires WellFormed(m) && 0 <= j < m.countPoints && Ready(m.info[j])
    modifies bodyA`velocity, bodyA`angularVelocity, bodyA`pseudoVelocity, bodyA`pseudoAngularVelocity
    ensures c == m.info[j].(impulse := c.impulse, impulseFriction := c.impulseFriction, pseudoImpulse := c.pseudoImpulse)
    ensures Ready(c) && Clamped(c, m.mu) && c.pseudoImpulse >= 0.0
  {
    var c1 := SolveSlotStatic(m, j, bodyA);
    c := SolvePseudoStatic(bodyA, m.normal, m.pointA[j], c1);
  }

  /** A graph entry resting on a static body, solved once more: only its slot impulses changed, now clamped and pushing. */
  predicate Rested(m0: Manifold, m: Manifold)
  {
    Kept(m0, m) && m.solved == m0.solved && SlotsReady(m) && SlotsClamped(m) && SlotsPushing(m)
  }

  /**
   * The point loop of a graph entry resting on a static body in
   * solveShockPropagation (ShockPropagationSolver.cpp:135-139).
   */
  method SolveRestingEntry(m: Manifold, bodyA: Body) returns (m': Manifold)
    requires WellFormed(m) && SlotsReady(m)
    modifies bodyA`velocity, bodyA`angularVelocity, bodyA`pseudoVelocity, bodyA`pseudoAngularVelocity
    ensures WellFormed(m') && Rested(m, m')
  {
    m' := m;
    var j := 0;
    while j < m.countPoints
      invariant 0 <= j <= m.countPoints && WellFormed(m') && Kept(m, m') && m'.solved == m.solved
      invariant forall k :: 0 <= k < j ==> Ready(m'.info[k]) && Clamped(m'.info[k], m.mu) && m'.info[k].pseudoImpulse >= 0.0
      invariant forall k :: j <= k < |m.info| ==> m'.info[k] == m.info[k]
    {
      var c := SolveRestingSlot(m', j, bodyA);
      m' := m'.(info := m'.info[j := c]);
      j := j + 1;
    }
  }

  /**
   * What preSolve_static leaves in a manifold against body A of inverse
   * mass `invMassA` and inverse inertia `invIA` (Solver.cpp:75-78, 94-102).
   */
  function PreparedAllStatic(m: Manifold, invMassA: real, invIA: real): (r: Manifold)
    requires WellFormed(m)
  {
    m.(solved := false,
       info := seq(|m.info|, k requires 0 <= k < |m.info| =>
                 if k < m.countPoints then PreparedStatic(m.info[k], m.pointA[k], invMassA, invIA) else m.info[k]))
  }

  /**
   * preSolve_static repeated on its own result changes nothing: the
   * effective masses depend only on the points and body A, which is why
   * solveShockPropagation may call it once per point
   * (ShockPropagationSolver.cpp:145).
   */
  lemma PreparedAllStaticAgain(m: Manifold, invMassA: real, invIA: real)
    requires WellFormed(m)
    ensures WellFormed(PreparedAllStatic(m, invMassA, invIA))
    ensures PreparedAllStatic(PreparedAllStatic(m, invMassA, invIA), invMassA, invIA) == PreparedAllStatic(m, invMassA, invIA)
  {
    var r := PreparedAllStatic(m, invMassA, invIA);
    assert PreparedAllStatic(r, invMassA, invIA).info == r.info;
  }

  /**
   * A graph entry after its shock-propagation solve (ShockPropagationSolver.cpp:143-149):
   * an entry with points is prepared afresh against its body A, marked
   * unsolved and ready; its accumulated impulses are only read, so they
   * stay; an entry without points is untouched.
   */
  predicate Lifted(m0: Manifold, m: Manifold)
  {
    Kept(m0, m) && |m.info| == |m0.info|
    && (m0.countPoints == 0 ==> m == m0)
    && (m0.countPoints > 0 ==> !m.solved && SlotsReady(m))
    && forall k :: 0 <= k < |m.info| ==>
         m.info[k].impulse == m0.info[k].impulse && m.info[k].impulseFriction == m0.info[k].impulseFriction
         && m.info[k].pseudoImpulse == m0.info[k].pseudoImpulse
  }

  /** With body A dynamic, preparing a manifold against it gives a lifted entry. */
  lemma PreparedAllStaticLifted(m: Manifold, invMassA: real, invIA: real)
    requires WellFormed(m) && m.countPoints > 0 && invMassA > 0.0 && invIA >= 0.0
    ensures Lifted(m, PreparedAllStatic(m, invMassA, invIA))
  {
    var r := PreparedAllStatic(m, invMassA, invIA);
    forall k | 0 <= k < |r.info| && k < r.countPoints
      ensures Ready(r.info[k])
    {
      PreparedReady(m.info[k], m.pointA[k], m.pointA[k], invMassA, 0.0, invIA, 0.0);
    }
  }

  /**
   * The manifolds `cur` after solveShockPropagation has solved graph
   * entries 0..i-1 of the manifolds `mid` it built the graph on: the
   * first `cs` entries rested, the later ones lifted, every manifold not
   * yet reached as it was.
   */
  predicate SolvedUpTo(mid: seq<Manifold>, cur: seq<Manifold>, graph: seq<int>, cs: int, i: int)
    requires 0 <= i <= |graph| && 0 <= cs <= |graph|
  {
    |cur| == |mid|
    && (forall q :: 0 <= q < |mid| && q in graph[..if i < cs then i else cs] ==> Rested(mid[q], cur[q]))
    && (forall q :: 0 <= q < |mid| && cs <= i && q in graph[cs..i] ==> Lifted(mid[q], cur[q]))
    && (forall q :: 0 <= q < |mid| && q !in graph[..i] ==> cur[q] == mid[q])
  }

  /** Solving graph entry `i`, which no earlier entry repeats, moves the solve on by one. */
  lemma SolvedStep(mid: seq<Manifold>, cur: seq<Manifold>, graph: seq<int>, cs: int, i: int, m: Manifold)
    requires 0 <= i < |graph| && 0 <= cs <= |graph| && GraphDistinct(graph) && 0 <= graph[i] < |mid|
    requires SolvedUpTo(mid, cur, graph, cs, i)
    requires if i < cs then Rested(mid[graph[i]], m) else Lifted(mid[graph[i]], m)
    ensures SolvedUpTo(mid, cur[graph[i] := m], graph, cs, i + 1)
  {
    assert graph[..i + 1] == graph[..i] + [graph[i]];
    if i >= cs {
      assert graph[cs..i + 1] == graph[cs..i] + [graph[i]];
    }
  }

  /** Graph entry `i` is not yet reached: no earlier entry names the same manifold. */
  lemma Unreached(mid: seq<Manifold>, cur: seq<Manifold>, graph: seq<int>, cs: int, i: int)
    requires 0 <= i < |graph| && 0 <= cs <= |graph| && GraphDistinct(graph) && 0 <= graph[i] < |mid|
    requires SolvedUpTo(mid, cur, graph, cs, i)
    ensures cur[graph[i]] == mid[graph[i]]
  {
    assert graph[i] !in graph[..i];
  }

  /**
   * Motions `v1` against the motions `v0` before: every body that is not
   * the body A of a graph entry lo..hi-1 kept its motion.
   */
  predicate Still(ms: seq<Manifold>, graph: seq<int>, lo: int, hi: int, v0: seq<(Vector3, Vector3)>, v1: seq<(Vector3, Vector3)>)
  {
    |v1| == |v0| && forall k :: 0 <= k < |v0| && !InLayer(ms, graph, lo, hi, k) ==> v1[k] == v0[k]
  }

  /** Solving graph entry `i`, which moves only its body A, keeps the other bodies still. */
  lemma StillStep(ms: seq<Manifold>, g: seq<int>, lo: int, i: int, a: int,
                  v0: seq<(Vector3, Vector3)>, v1: seq<(Vector3, Vector3)>, v2: seq<(Vector3, Vector3)>)
    requires 0 <= lo <= i < |g| && 0 <= g[i] < |ms| && ms[g[i]].bodyA == a
    requires Still(ms, g, lo, i, v0, v1) && |v2| == |v1|
    requires forall k :: 0 <= k < |v1| && k != a ==> v2[k] == v1[k]
    ensures Still(ms, g, lo, i + 1, v0, v2)
  {
    forall k | 0 <= k < |v0| && !InLayer(ms, g, lo, i + 1, k)
      ensures v2[k] == v0[k]
    {
      assert !InLayer(ms, g, lo, i, k);
    }
  }

  /**
   * Manifolds the solver's passes settled keep their bodies, so what held
   * of the bodies they pair still holds, and every slot in use is ready.
   */
  lemma SettledCarried(ms: seq<Manifold>, ms1: seq<Manifold>, bodies: seq<Body>, pushed: bool)
    requires |ms1| == |ms| && forall q :: 0 <= q < |ms| ==> Settled(ms[q], ms1[q], pushed)
    requires Weighted(ms, bodies) && DynamicPairs(ms, bodies)
    ensures Weighted(ms1, bodies) && DynamicPairs(ms1, bodies)
    ensures forall q :: 0 <= q < |ms1| ==> SlotsReady(ms1[q]) && SlotsClamped(ms1[q])
  {
    forall q | 0 <= q < |ms|
      ensures ms1[q].bodyA == ms[q].bodyA && ms1[q].bodyB == ms[q].bodyB && ms1[q].notStatB == ms[q].notStatB
    {
      assert Kept(ms[q], ms1[q]);
    }
  }

  /**
   * Shock propagation keeps every slot in use clamped: the entries on
   * static bodies are clamped again, the later ones keep their impulses
   * and friction coefficient, and the rest their slot records.
   */
  lemma PropagatedClamped(ms: seq<Manifold>, cur: seq<Manifold>, graph: seq<int>, cs: int, n: int)
    requires Propagated(ms, cur, graph, cs, n) && forall q :: 0 <= q < |ms| ==> SlotsClamped(ms[q])
    ensures forall q :: 0 <= q < |cur| ==> SlotsClamped(cur[q])
  {
    assert graph == graph[..cs] + graph[cs..];
    forall q | 0 <= q < |cur|
      ensures SlotsClamped(cur[q])
    {
      assert Paired(ms[q], cur[q]);
      SwapKeeps(ms[q]);
      assert cur[q].mu == ms[q].mu && cur[q].countPoints == ms[q].countPoints;
      if q in graph[cs..] {
        assert SameImpulses(ms[q], cur[q]);
      }
    }
  }

  /**
   * Motions kept by the bodies outside layer 0..cs and then by those
   * outside layer cs..|g| are kept by those outside the whole graph,
   * read on manifolds `cur` that keep the body A of `mid`.
   */
  lemma StillJoin(mid: seq<Manifold>, cur: seq<Manifold>, g: seq<int>, cs: int,
                  v0: seq<(Vector3, Vector3)>, v1: seq<(Vector3, Vector3)>, v2: seq<(Vector3, Vector3)>)
    requires 0 <= cs <= |g| && |cur| == |mid|
    requires forall q :: 0 <= q < |mid| ==> cur[q].bodyA == mid[q].bodyA
    requires Still(mid, g, 0, cs, v0, v1) && Still(mid, g, cs, |g|, v1, v2)
    ensures Still(cur, g, 0, |g|, v0, v2)
  {
  }

  /**
   * The manifolds a contact pass leaves for shock propagation: a body B
   * that is not static has an inverse mass, as notStatB records when a
   * manifold is made (ContactsContainer.cpp:36, 205-225).
   */
  ghost predicate DynamicPairs(ms: seq<Manifold>, bodies: seq<Body>)
    reads Objects(bodies)`invMass
  {
    forall q :: 0 <= q < |ms| && ms[q].notStatB && 0 <= ms[q].bodyB < |bodies| ==> bodies[ms[q].bodyB].invMass > 0.0
  }

  /** Each manifold of `ms` pairs the two bodies it paired in `ms0`, turned round or not. */
  predicate PairsKept(ms0: seq<Manifold>, ms: seq<Manifold>)
  {
    |ms| == |ms0| && forall q :: 0 <= q < |ms| ==>
      (ms[q].bodyA == ms0[q].bodyA && ms[q].bodyB == ms0[q].bodyB) || (ms[q].bodyA == ms0[q].bodyB && ms[q].bodyB == ms0[q].bodyA)
  }

  /** The solver's passes never change which bodies a manifold pairs. */
  lemma SettledPairsKept(ms: seq<Manifold>, ms1: seq<Manifold>, pushed: bool)
    requires |ms1| == |ms| && forall q :: 0 <= q < |ms| ==> Settled(ms[q], ms1[q], pushed)
    ensures PairsKept(ms, ms1)
  {
    forall q | 0 <= q < |ms|
      ensures ms1[q].bodyA == ms[q].bodyA && ms1[q].bodyB == ms[q].bodyB
    {
      assert Kept(ms[q], ms1[q]);
    }
  }

  /** Shock propagation at most turns a manifold round, and pairs kept twice are kept. */
  lemma PropagatedPairsKept(ms: seq<Manifold>, ms1: seq<Manifold>, cur: seq<Manifold>, n: int)
    requires PairsKept(ms, ms1) && PairedAll(ms1, cur, n)
    ensures PairsKept(ms, cur)
  {
    forall q | 0 <= q < |cur|
      ensures (cur[q].bodyA == ms1[q].bodyA && cur[q].bodyB == ms1[q].bodyB) || (cur[q].bodyA == ms1[q].bodyB && cur[q].bodyB == ms1[q].bodyA)
    {
      assert Paired(ms1[q], cur[q]);
    }
  }

  /** A manifold `m` that began as `m0`: the same bodies, points and normal, or all of them turned round; any slot records and flag. */
  predicate Paired(m0: Manifold, m: Manifold)
  {
    WellFormed(m0)
    && (m.(info := m0.info, solved := m0.solved) == m0 || m.(info := m0.info, solved := m0.solved) == Swapped(m0))
  }

  /** The three accumulated impulses of every slot of `m` are those of `m0`. */
  predicate SameImpulses(m0: Manifold, m: Manifold)
  {
    |m.info| == |m0.info|
    && forall k :: 0 <= k < |m.info| ==>
         m.info[k].impulse == m0.info[k].impulse && m.info[k].impulseFriction == m0.info[k].impulseFriction
         && m.info[k].pseudoImpulse == m0.info[k].pseudoImpulse
  }

  /**
   * The manifolds `cur` after solveShockPropagation, against the manifolds
   * `ms` it began with, and the graph it built with `cs` entries on
   * static bodies.
   */
  predicate Propagated(ms: seq<Manifold>, cur: seq<Manifold>, graph: seq<int>, cs: int, n: int)
  {
    PairedAll(ms, cur, n) && GraphKept(ms, cur, graph, cs) && SlotsAfter(ms, cur, graph, cs)
  }

  /** Every manifold keeps its pairing, turned round or not, between two different bodies of a list of `n`. */
  predicate PairedAll(ms: seq<Manifold>, cur: seq<Manifold>, n: int)
  {
    |cur| == |ms| && AllWellFormed(cur) && BodiesBelow(cur, n) && PairsApart(cur)
    && forall q :: 0 <= q < |cur| ==> Paired(ms[q], cur[q])
  }

  /**
   * The graph names each manifold at most once; its first `cs` entries
   * are the manifolds of `ms` on static bodies, in order; each later
   * entry pairs two dynamic bodies and rests on an earlier one.
   */
  predicate GraphKept(ms: seq<Manifold>, cur: seq<Manifold>, graph: seq<int>, cs: int)
  {
    GraphBelow(graph, |cur|) && GraphDistinct(graph) && 0 <= cs <= |graph| && |ms| == |cur|
    && graph[..cs] == StaticIndices(ms, |ms|) && Rests(cur, graph, cs)
  }

  /**
   * An entry on a static body is solved, clamped and pushing; a later
   * entry keeps its accumulated impulses and, with points, is unsolved
   * and ready; a manifold out of the graph keeps its slot records.
   */
  predicate SlotsAfter(ms: seq<Manifold>, cur: seq<Manifold>, graph: seq<int>, cs: int)
    requires 0 <= cs <= |graph| && |cur| == |ms|
  {
    (forall q :: 0 <= q < |cur| && q in graph[..cs] ==> cur[q].solved && SlotsClamped(cur[q]) && SlotsPushing(cur[q]))
    && (forall q :: 0 <= q < |cur| && q in graph[cs..] ==>
          SameImpulses(ms[q], cur[q]) && (cur[q].countPoints > 0 ==> !cur[q].solved && SlotsReady(cur[q])))
    && (forall q :: 0 <= q < |cur| && q !in graph ==> cur[q].info == ms[q].info)
  }

  /** Once every graph entry is solved, each manifold has kept everything but its slot records and flag. */
  lemma SolvedKept(mid: seq<Manifold>, cur: seq<Manifold>, graph: seq<int>, cs: int)
    requires 0 <= cs <= |graph| && SolvedUpTo(mid, cur, graph, cs, |graph|)
    ensures forall q :: 0 <= q < |mid| ==> Kept(mid[q], cur[q])
    ensures forall q :: 0 <= q < |mid| && q !in graph ==> cur[q] == mid[q]
  {
    assert graph[..|graph|] == graph;
    forall q | 0 <= q < |mid|
      ensures Kept(mid[q], cur[q])
    {
      if q in graph && q !in graph[..cs] {
        var p :| 0 <= p < |graph| && graph[p] == q;
        assert graph[cs..][p - cs] == q;
      }
    }
  }

  /** A graph layered over `ms` stays paired once only slot records and flags change. */
  lemma PairedFrom(ms: seq<Manifold>, mid: seq<Manifold>, cur: seq<Manifold>, n: int)
    requires Shaped(ms, mid, n) && |cur| == |mid| && forall q :: 0 <= q < |mid| ==> Kept(mid[q], cur[q])
    ensures PairedAll(ms, cur, n)
  {
    forall q | 0 <= q < |cur|
      ensures WellFormed(cur[q]) && Paired(ms[q], cur[q])
    {
      SwapKeeps(ms[q]);
    }
  }

  /** A graph that rests keeps resting once only slot records and flags change. */
  lemma RestsFrom(mid: seq<Manifold>, cur: seq<Manifold>, graph: seq<int>, cs: int)
    requires Rests(mid, graph, cs) && |cur| == |mid| && forall q :: 0 <= q < |mid| ==> Kept(mid[q], cur[q])
    ensures Rests(cur, graph, cs)
  {
    forall p | 0 <= p < |graph| && cs <= p
      ensures Supported(cur, graph, p)
    {
      var r :| 0 <= r < p && 0 <= graph[r] < |mid| && mid[graph[r]].bodyA == mid[graph[p]].bodyB;
      assert Kept(mid[graph[r]], cur[graph[r]]) && Kept(mid[graph[p]], cur[graph[p]]);
    }
  }

  /** Solving every graph entry leaves the slot records SlotsAfter describes. */
  lemma SlotsFrom(ms: seq<Manifold>, mid: seq<Manifold>, cur: seq<Manifold>, graph: seq<int>, cs: int, n: int)
    requires Layered(ms, mid, graph, cs, n) && SolvedUpTo(mid, cur, graph, cs, |graph|)
    ensures SlotsAfter(ms, cur, graph, cs)
  {
    assert graph[..|graph|] == graph;
    InfoCarried(ms, mid, n);
    StaticSettled(ms, mid, cur, graph, cs);
    LiftedCarried(ms, mid, cur, graph, cs);
  }

  /** Laying out the graph turns manifolds round but leaves their slot records alone. */
  lemma InfoCarried(ms: seq<Manifold>, mid: seq<Manifold>, n: int)
    requires Shaped(ms, mid, n)
    ensures forall q :: 0 <= q < |mid| ==> mid[q].info == ms[q].info
  {
    forall q | 0 <= q < |mid|
      ensures mid[q].info == ms[q].info
    {
      if mid[q].(solved := ms[q].solved) != ms[q] {
        assert Swapped(ms[q]).info == ms[q].info;
      }
    }
  }

  /** The entries on static bodies end solved, clamped and pushing. */
  lemma StaticSettled(ms: seq<Manifold>, mid: seq<Manifold>, cur: seq<Manifold>, graph: seq<int>, cs: int)
    requires Entered(ms, mid, graph, cs) && SolvedUpTo(mid, cur, graph, cs, |graph|)
    ensures forall q :: 0 <= q < |cur| && q in graph[..cs] ==> cur[q].solved && SlotsClamped(cur[q]) && SlotsPushing(cur[q])
  {
    forall q | 0 <= q < |cur| && q in graph[..cs]
      ensures cur[q].solved && SlotsClamped(cur[q]) && SlotsPushing(cur[q])
    {
      var p :| 0 <= p < cs && graph[..cs][p] == q;
      assert graph[p] == q;
      assert Rested(mid[q], cur[q]);
    }
  }

  /** The later entries keep the impulses they began with, and stay unsolved and ready. */
  lemma LiftedCarried(ms: seq<Manifold>, mid: seq<Manifold>, cur: seq<Manifold>, graph: seq<int>, cs: int)
    requires 0 <= cs <= |graph| && |ms| == |mid| && SolvedUpTo(mid, cur, graph, cs, |graph|)
    requires forall q :: 0 <= q < |mid| ==> mid[q].info == ms[q].info
    ensures forall q :: 0 <= q < |cur| && q in graph[cs..] ==>
              SameImpulses(ms[q], cur[q]) && (cur[q].countPoints > 0 ==> !cur[q].solved && SlotsReady(cur[q]))
  {
    forall q | 0 <= q < |cur| && q in graph[cs..]
      ensures SameImpulses(ms[q], cur[q]) && (cur[q].countPoints > 0 ==> !cur[q].solved && SlotsReady(cur[q]))
    {
      assert Lifted(mid[q], cur[q]);
    }
  }

  /** Solving every graph entry of a layered graph leaves the manifolds propagated, each keeping its body A. */
  lemma PropagatedFrom(ms: seq<Manifold>, mid: seq<Manifold>, cur: seq<Manifold>, graph: seq<int>, cs: int, n: int)
    requires Layered(ms, mid, graph, cs, n) && SolvedUpTo(mid, cur, graph, cs, |graph|)
    ensures Propagated(ms, cur, graph, cs, n)
    ensures forall q :: 0 <= q < |cur| ==> cur[q].bodyA == mid[q].bodyA
  {
    SolvedKept(mid, cur, graph, cs);
    PairedFrom(ms, mid, cur, n);
    RestsFrom(mid, cur, graph, cs);
    SlotsFrom(ms, mid, cur, graph, cs, n);
  }

  /**
   * The second loop of solveShockPropagation has solved graph entries cs..i-1:
   * `cur` against `mid`, and motions `v`, `w` against `v0`, `w0`.
   */
  predicate LiftedUpTo(mid: seq<Manifold>, cur: seq<Manifold>, g: seq<int>, cs: int, i: int,
                       v0: seq<(Vector3, Vector3)>, w0: seq<(Vector3, Vector3)>, v: seq<(Vector3, Vector3)>, w: seq<(Vector3, Vector3)>)
  {
    0 <= cs <= i <= |g| && SolvedUpTo(mid, cur, g, cs, i) && Still(mid, g, cs, i, v0, v) && Still(mid, g, cs, i, w0, w)
  }

  /**
   * After _computeGraph, the entries resting on static bodies are still
   * ready when the manifolds were, and the body A of every later entry
   * is dynamic.
   */
  lemma GraphEntriesReady(ms: seq<Manifold>, mid: seq<Manifold>, graph: seq<int>, cs: int, bodies: seq<Body>)
    requires Layered(ms, mid, graph, cs, |bodies|) && Weighted(ms, bodies) && DynamicPairs(ms, bodies)
    requires forall q :: 0 <= q < |ms| && !ms[q].notStatB ==> SlotsReady(ms[q])
    ensures forall p :: 0 <= p < cs ==> SlotsReady(mid[graph[p]])
    ensures forall p :: cs <= p < |graph| ==> bodies[mid[graph[p]].bodyA].invMass > 0.0 && bodies[mid[graph[p]].bodyA].invInertia >= 0.0
  {
    StaticIndicesSound(ms, |ms|);
    forall p | 0 <= p < |graph|
      ensures mid[graph[p]].info == ms[graph[p]].info && mid[graph[p]].notStatB == ms[graph[p]].notStatB
      ensures mid[graph[p]].bodyA in {ms[graph[p]].bodyA, ms[graph[p]].bodyB}
    {
      SwapKeeps(ms[graph[p]]);
    }
    forall p | 0 <= p < cs
      ensures SlotsReady(mid[graph[p]])
    {
      assert graph[p] == graph[..cs][p];
    }
  }

  /**
   * ShockPropagationSolver (ShockPropagationSolver.h:13-36): the solver it
   * derives from, the graph of manifold indices, how many of its entries
   * rest on static bodies, and whether shock propagation runs.
   */
  class ShockPropagationSolver {
    var solver: Solver
    var graph: seq<int>
    var countStaticContacts: int
    var enableShockPropagation: bool

    /** ShockPropagationSolver() (ShockPropagationSolver.cpp:5-9): a fresh solver, propagation enabled. */
    constructor ()
      ensures fresh(solver) && fresh(solver.contacts) && solver.contacts.Valid()
      ensures solver.contacts.manifolds == [] && solver.countIterations == 8 && solver.splitIterations == 3
      ensures enableShockPropagation && graph == [] && countStaticContacts == 0
    {
      solver := new Solver();
      graph := [];
      countStaticContacts := 0;
      enableShockPropagation := true;
    }

    /** setEnableShockPropagation (ShockPropagationSolver.cpp:16-19). */
    method SetEnableShockPropagation(enable: bool)
      modifies this`enableShockPropagation
      ensures enableShockPropagation == enable
    {
      enableShockPropagation := enable;
    }

    /**
     * solve() (ShockPropagationSolver.cpp:154-159): the solver's passes,
     * then, when enabled, shock propagation.  Either way every slot in use
     * ends with a pushing impulse and a friction inside the cone; without
     * propagation each manifold is left as the passes settled it.
     */
    method Solve(bodies: seq<Body>, ghost groups: set<nat>)
      requires solver.Indexed(bodies) && Weighted(solver.contacts.manifolds, bodies) && GroupsWithin(bodies, groups)
      requires DynamicPairs(solver.contacts.manifolds, bodies)
      modifies solver`passes, this`graph, this`countStaticContacts, solver.contacts`manifolds,
               Objects(bodies)`currentGroup, Objects(bodies)`level, Objects(bodies)`velocity, Objects(bodies)`angularVelocity,
               Objects(bodies)`pseudoVelocity, Objects(bodies)`pseudoAngularVelocity
      ensures solver.contacts.Valid() && GroupsWithin(bodies, groups) && |solver.contacts.manifolds| == |old(solver.contacts.manifolds)|
      ensures forall q :: 0 <= q < |solver.contacts.manifolds| ==> SlotsClamped(solver.contacts.manifolds[q])
      ensures !enableShockPropagation ==> forall q :: 0 <= q < |solver.contacts.manifolds| ==>
                Settled(old(solver.contacts.manifolds[q]), solver.contacts.manifolds[q], solver.splitIterations > 0)
      ensures PairsKept(old(solver.contacts.manifolds), solver.contacts.manifolds)
    {
      ghost var ms := solver.contacts.manifolds;
      solver.Solve(bodies, groups);
      if enableShockPropagation {
        Propagate(bodies, groups, ms);
      } else {
        SettledPairsKept(ms, solver.contacts.manifolds, solver.splitIterations > 0);
      }
    }

    /** The shock-propagation branch of solve() (ShockPropagationSolver.cpp:157-158), after the base solve settled `ms`. */
    method Propagate(bodies: seq<Body>, ghost groups: set<nat>, ghost ms: seq<Manifold>)
      requires solver.Indexed(bodies) && GroupsWithin(bodies, groups) && Weighted(ms, bodies) && DynamicPairs(ms, bodies)
      requires |solver.contacts.manifolds| == |ms| && forall q :: 0 <= q < |ms| ==> Settled(ms[q], solver.contacts.manifolds[q], solver.splitIterations > 0)
      modifies this`graph, this`countStaticContacts, solver.contacts`manifolds,
               Objects(bodies)`currentGroup, Objects(bodies)`level, Objects(bodies)`velocity, Objects(bodies)`angularVelocity,
               Objects(bodies)`pseudoVelocity, Objects(bodies)`pseudoAngularVelocity
      ensures solver.contacts.Valid() && GroupsWithin(bodies, groups) && |solver.contacts.manifolds| == |ms|
      ensures forall q :: 0 <= q < |solver.contacts.manifolds| ==> SlotsClamped(solver.contacts.manifolds[q])
      ensures PairsKept(ms, solver.contacts.manifolds)
    {
      ghost var ms1 := solver.contacts.manifolds;
      SettledCarried(ms, ms1, bodies, solver.splitIterations > 0);
      SettledPairsKept(ms, ms1, solver.splitIterations > 0);
      SolveShockPropagation(bodies, groups);
      PropagatedClamped(ms1, solver.contacts.manifolds, graph, countStaticContacts, |bodies|);
      PropagatedPairsKept(ms, ms1, solver.contacts.manifolds, |bodies|);
    }

    /** The state _computeGraph keeps between its steps, over the manifolds `ms` it began with. */
    ghost predicate Graphed(bodies: seq<Body>, ms: seq<Manifold>, groups: set<nat>)
      reads this, solver, solver.contacts, Objects(bodies)`currentGroup
    {
      solver.contacts.Valid() && DistinctBodies(bodies)
      && Layered(ms, solver.contacts.manifolds, graph, countStaticContacts, |bodies|)
      && GroupsWithin(bodies, groups)
    }

    /**
     * _computeGraph (ShockPropagationSolver.cpp:68-128): the manifolds on
     * static bodies are marked solved and entered first; then, layer by
     * layer, each unsolved manifold merges its bodies' collision groups
     * and is attached when it touches the previous layer.  It ends when a
     * layer attaches nothing.
     */
    method ComputeGraph(bodies: seq<Body>, ghost groups: set<nat>)
      requires solver.contacts.Valid() && BodiesBelow(solver.contacts.manifolds, |bodies|)
      requires PairsApart(solver.contacts.manifolds) && DistinctBodies(bodies) && GroupsWithin(bodies, groups)
      modifies this`graph, this`countStaticContacts, solver.contacts`manifolds, Objects(bodies)`currentGroup, Objects(bodies)`level
      ensures Graphed(bodies, old(solver.contacts.manifolds), groups)
    {
      ghost var ms := solver.contacts.manifolds;
      CollectStatic();
      StaticLayered(ms, solver.contacts.manifolds, |bodies|);
      countStaticContacts := |graph|;
      var levelB := 0;
      var levelA := |graph|;
      while levelB != |graph|
        invariant Graphed(bodies, ms, groups) && 0 <= levelB <= levelA == |graph|
        decreases CountUnsolved(solver.contacts.manifolds), |graph| - levelB
      {
        Layer(levelB, levelA, bodies, ms, groups);
        levelB := levelA;
        levelA := |graph|;
      }
    }

    /**
     * The first loop of _computeGraph (ShockPropagationSolver.cpp:70-77):
     * the graph restarts with the manifolds whose body B is static, each
     * marked solved.
     */
    method CollectStatic()
      requires solver.contacts.Valid()
      modifies this`graph, solver.contacts`manifolds
      ensures solver.contacts.Valid() && graph == StaticIndices(old(solver.contacts.manifolds), |old(solver.contacts.manifolds)|)
      ensures |solver.contacts.manifolds| == |old(solver.contacts.manifolds)|
      ensures forall q :: 0 <= q < |solver.contacts.manifolds| ==>
                solver.contacts.manifolds[q] == if !old(solver.contacts.manifolds[q]).notStatB
                                                then old(solver.contacts.manifolds[q]).(solved := true)
                                                else old(solver.contacts.manifolds[q])
    {
      var cms, g := MarkStatic(solver.contacts.manifolds);
      graph := g;
      solver.contacts.manifolds := cms;
    }

    /**
     * The point loop of a graph entry above the first layer in
     * solveShockPropagation (ShockPropagationSolver.cpp:143-149): for each
     * point, preSolve_static prepares the whole manifold against body A,
     * then the one-sided impulse, friction and pseudo-impulse move body A
     * alone.
     */
    method SolveLiftedEntry(m: Manifold, bodyA: Body) returns (m': Manifold)
      requires WellFormed(m) && bodyA.invMass > 0.0 && bodyA.invInertia >= 0.0
      modifies bodyA`velocity, bodyA`angularVelocity, bodyA`pseudoVelocity, bodyA`pseudoAngularVelocity
      ensures m' == if m.countPoints == 0 then m else PreparedAllStatic(m, bodyA.invMass, bodyA.invInertia)
      ensures Lifted(m, m')
    {
      m' := m;
      var j := 0;
      while j < m.countPoints
        invariant 0 <= j <= m.countPoints
        invariant m' == if j == 0 then m else PreparedAllStatic(m, bodyA.invMass, bodyA.invInertia)
      {
        ghost var before := m';
        m' := solver.PreSolveManifoldStatic(m', bodyA);
        assert m'.info == PreparedAllStatic(before, bodyA.invMass, bodyA.invInertia).info;
        PreparedAllStaticAgain(m, bodyA.invMass, bodyA.invInertia);
        PreparedAllStaticLifted(m, bodyA.invMass, bodyA.invInertia);
        SolveImpulseSP(m'.e, bodyA, m'.normal, m'.pointA[j], m'.info[j]);
        SolveFrictionSP(m'.mu, bodyA, m'.pointA[j], m'.info[j]);
        SolvePseudoSP(bodyA, m'.normal, m'.pointA[j], m'.info[j]);
        j := j + 1;
      }
      if m.countPoints > 0 {
        PreparedAllStaticLifted(m, bodyA.invMass, bodyA.invInertia);
      }
    }

    /**
     * The first loop of solveShockPropagation (ShockPropagationSolver.cpp:133-140),
     * on a copy of the manifold list: each graph entry resting on a static
     * body is solved once more.
     */
    method SolveResting(cms: seq<Manifold>, g: seq<int>, cs: int, bodies: seq<Body>) returns (cms': seq<Manifold>)
      requires AllWellFormed(cms) && BodiesBelow(cms, |bodies|) && DistinctBodies(bodies)
      requires GraphBelow(g, |cms|) && GraphDistinct(g) && 0 <= cs <= |g|
      requires forall p :: 0 <= p < cs ==> SlotsReady(cms[g[p]])
      modifies Objects(bodies)`velocity, Objects(bodies)`angularVelocity, Objects(bodies)`pseudoVelocity, Objects(bodies)`pseudoAngularVelocity
      ensures SolvedUpTo(cms, cms', g, cs, cs)
      ensures Still(cms, g, 0, cs, old(Motions(bodies, ContactPass)), Motions(bodies, ContactPass)) && Still(cms, g, 0, cs, old(Motions(bodies, PseudoPass)), Motions(bodies, PseudoPass))
    {
      ghost var v0, w0 := Motions(bodies, ContactPass), Motions(bodies, PseudoPass);
      cms' := cms;
      var i := 0;
      while i < cs
        invariant 0 <= i <= cs && SolvedUpTo(cms, cms', g, cs, i) && Still(cms, g, 0, i, v0, Motions(bodies, ContactPass)) && Still(cms, g, 0, i, w0, Motions(bodies, PseudoPass))
      {
        var q := g[i];
        var a := cms[q].bodyA;
        Unreached(cms, cms', g, cs, i);
        ghost var v1, w1 := Motions(bodies, ContactPass), Motions(bodies, PseudoPass);
        var m := SolveRestingEntry(cms'[q], bodies[a]);
        StillStep(cms, g, 0, i, a, v0, v1, Motions(bodies, ContactPass));
        StillStep(cms, g, 0, i, a, w0, w1, Motions(bodies, PseudoPass));
        SolvedStep(cms, cms', g, cs, i, m);
        cms' := cms'[q := m];
        i := i + 1;
      }
    }

    /**
     * The second loop of solveShockPropagation (ShockPropagationSolver.cpp:141-150),
     * on a copy of the manifold list: each later graph entry is solved
     * against its body A alone, its body B held still.
     */
    method SolveLifted(cms: seq<Manifold>, g: seq<int>, cs: int, bodies: seq<Body>, ghost mid: seq<Manifold>)
      returns (cms': seq<Manifold>)
      requires AllWellFormed(mid) && BodiesBelow(mid, |bodies|) && DistinctBodies(bodies)
      requires GraphBelow(g, |mid|) && GraphDistinct(g) && 0 <= cs <= |g| && SolvedUpTo(mid, cms, g, cs, cs)
      requires forall p :: cs <= p < |g| ==> bodies[mid[g[p]].bodyA].invMass > 0.0 && bodies[mid[g[p]].bodyA].invInertia >= 0.0
      modifies Objects(bodies)`velocity, Objects(bodies)`angularVelocity, Objects(bodies)`pseudoVelocity, Objects(bodies)`pseudoAngularVelocity
      ensures SolvedUpTo(mid, cms', g, cs, |g|)
      ensures Still(mid, g, cs, |g|, old(Motions(bodies, ContactPass)), Motions(bodies, ContactPass)) && Still(mid, g, cs, |g|, old(Motions(bodies, PseudoPass)), Motions(bodies, PseudoPass))
    {
      ghost var v0, w0 := Motions(bodies, ContactPass), Motions(bodies, PseudoPass);
      cms' := cms;
      var i := cs;
      assert LiftedUpTo(mid, cms', g, cs, i, v0, w0, Motions(bodies, ContactPass), Motions(bodies, PseudoPass));
      while i < |g|
        invariant LiftedUpTo(mid, cms', g, cs, i, v0, w0, Motions(bodies, ContactPass), Motions(bodies, PseudoPass))
      {
        cms' := LiftedStep(cms', g, cs, i, bodies, mid, v0, w0);
        i := i + 1;
      }
      assert LiftedUpTo(mid, cms', g, cs, |g|, v0, w0, Motions(bodies, ContactPass), Motions(bodies, PseudoPass));
    }

    /** One iteration of the second loop: graph entry `i` is solved against its body A alone. */
    method LiftedStep(cur: seq<Manifold>, g: seq<int>, cs: int, i: int, bodies: seq<Body>, ghost mid: seq<Manifold>,
                      ghost v0: seq<(Vector3, Vector3)>, ghost w0: seq<(Vector3, Vector3)>) returns (cur': seq<Manifold>)
      requires AllWellFormed(mid) && BodiesBelow(mid, |bodies|) && DistinctBodies(bodies)
      requires GraphBelow(g, |mid|) && GraphDistinct(g) && 0 <= i < |g|
      requires bodies[mid[g[i]].bodyA].invMass > 0.0 && bodies[mid[g[i]].bodyA].invInertia >= 0.0
      requires LiftedUpTo(mid, cur, g, cs, i, v0, w0, Motions(bodies, ContactPass), Motions(bodies, PseudoPass))
      modifies Objects(bodies)`velocity, Objects(bodies)`angularVelocity, Objects(bodies)`pseudoVelocity, Objects(bodies)`pseudoAngularVelocity
      ensures LiftedUpTo(mid, cur', g, cs, i + 1, v0, w0, Motions(bodies, ContactPass), Motions(bodies, PseudoPass))
    {
      var q := g[i];
      Unreached(mid, cur, g, cs, i);
      var a := cur[q].bodyA;
      ghost var v1, w1 := Motions(bodies, ContactPass), Motions(bodies, PseudoPass);
      var m := SolveLiftedEntry(cur[q], bodies[a]);
      StillStep(mid, g, cs, i, a, v0, v1, Motions(bodies, ContactPass));
      StillStep(mid, g, cs, i, a, w0, w1, Motions(bodies, PseudoPass));
      SolvedStep(mid, cur, g, cs, i, m);
      cur' := cur[q := m];
    }

    /**
     * solveShockPropagation (ShockPropagationSolver.cpp:130-152): the graph
     * is built, each entry resting on a static body is solved once more,
     * and each later entry is solved against its body A alone.  Only the
     * body A of a graph entry moves.
     */
    method SolveShockPropagation(bodies: seq<Body>, ghost groups: set<nat>)
      requires solver.contacts.Valid() && BodiesBelow(solver.contacts.manifolds, |bodies|) && PairsApart(solver.contacts.manifolds)
      requires DistinctBodies(bodies) && GroupsWithin(bodies, groups)
      requires Weighted(solver.contacts.manifolds, bodies) && DynamicPairs(solver.contacts.manifolds, bodies)
      requires forall q :: 0 <= q < |solver.contacts.manifolds| && !solver.contacts.manifolds[q].notStatB ==> SlotsReady(solver.contacts.manifolds[q])
      modifies this`graph, this`countStaticContacts, solver.contacts`manifolds, Objects(bodies)`currentGroup, Objects(bodies)`level,
               Objects(bodies)`velocity, Objects(bodies)`angularVelocity, Objects(bodies)`pseudoVelocity, Objects(bodies)`pseudoAngularVelocity
      ensures solver.contacts.Valid() && GroupsWithin(bodies, groups)
      ensures Propagated(old(solver.contacts.manifolds), solver.contacts.manifolds, graph, countStaticContacts, |bodies|)
      ensures Still(solver.contacts.manifolds, graph, 0, |graph|, old(Motions(bodies, ContactPass)), Motions(bodies, ContactPass)) && Still(solver.contacts.manifolds, graph, 0, |graph|, old(Motions(bodies, PseudoPass)), Motions(bodies, PseudoPass))
    {
      ghost var ms := solver.contacts.manifolds;
      ComputeGraph(bodies, groups);
      forall k | 0 <= k < |bodies|
        ensures PassMotion(bodies[k], ContactPass) == old(PassMotion(bodies[k], ContactPass))
        ensures PassMotion(bodies[k], PseudoPass) == old(PassMotion(bodies[k], PseudoPass))
      {
      }
      assert Motions(bodies, ContactPass) == old(Motions(bodies, ContactPass)) && Motions(bodies, PseudoPass) == old(Motions(bodies, PseudoPass));
      SolveEntries(bodies, ms, groups);
    }

    /** The two loops of solveShockPropagation (ShockPropagationSolver.cpp:133-150) over the graph just built. */
    method SolveEntries(bodies: seq<Body>, ghost ms: seq<Manifold>, ghost groups: set<nat>)
      requires Graphed(bodies, ms, groups) && Weighted(ms, bodies) && DynamicPairs(ms, bodies)
      requires forall q :: 0 <= q < |ms| && !ms[q].notStatB ==> SlotsReady(ms[q])
      modifies solver.contacts`manifolds,
               Objects(bodies)`velocity, Objects(bodies)`angularVelocity, Objects(bodies)`pseudoVelocity, Objects(bodies)`pseudoAngularVelocity
      ensures solver.contacts.Valid() && GroupsWithin(bodies, groups)
      ensures Propagated(ms, solver.contacts.manifolds, graph, countStaticContacts, |bodies|)
      ensures Still(solver.contacts.manifolds, graph, 0, |graph|, old(Motions(bodies, ContactPass)), Motions(bodies, ContactPass)) && Still(solver.contacts.manifolds, graph, 0, |graph|, old(Motions(bodies, PseudoPass)), Motions(bodies, PseudoPass))
    {
      var cms := SolveGraph(solver.contacts.manifolds, graph, countStaticContacts, bodies, ms);
      solver.contacts.manifolds := cms;
    }

    /**
     * solveShockPropagation (ShockPropagationSolver.cpp:133-150) once the
     * graph is built, on a copy of the manifold list: each entry resting
     * on a static body is solved once more, then each later entry against
     * its body A alone.
     */
    method SolveGraph(cms: seq<Manifold>, g: seq<int>, cs: int, bodies: seq<Body>, ghost ms: seq<Manifold>)
      returns (cms': seq<Manifold>)
      requires Layered(ms, cms, g, cs, |bodies|) && DistinctBodies(bodies)
      requires Weighted(ms, bodies) && DynamicPairs(ms, bodies)
      requires forall q :: 0 <= q < |ms| && !ms[q].notStatB ==> SlotsReady(ms[q])
      modifies Objects(bodies)`velocity, Objects(bodies)`angularVelocity, Objects(bodies)`pseudoVelocity, Objects(bodies)`pseudoAngularVelocity
      ensures AllWellFormed(cms') && Propagated(ms, cms', g, cs, |bodies|)
      ensures Still(cms', g, 0, |g|, old(Motions(bodies, ContactPass)), Motions(bodies, ContactPass)) && Still(cms', g, 0, |g|, old(Motions(bodies, PseudoPass)), Motions(bodies, PseudoPass))
    {
      ghost var v0, w0 := Motions(bodies, ContactPass), Motions(bodies, PseudoPass);
      GraphEntriesReady(ms, cms, g, cs, bodies);
      cms' := SolveResting(cms, g, cs, bodies);
      ghost var v1, w1 := Motions(bodies, ContactPass), Motions(bodies, PseudoPass);
      cms' := SolveLifted(cms', g, cs, bodies, cms);
      PropagatedFrom(ms, cms, cms', g, cs, |bodies|);
      StillJoin(cms, cms', g, cs, v0, v1, Motions(bodies, ContactPass));
      StillJoin(cms, cms', g, cs, w0, w1, Motions(bodies, PseudoPass));
    }

    /**
     * One pass of _computeGraph over all manifolds against the layer
     * lo..hi-1 (ShockPropagationSolver.cpp:84-124), on a copy of the
     * manifold list and the graph written back at its end.
     */
    method Layer(lo: int, hi: int, bodies: seq<Body>, ghost ms: seq<Manifold>, ghost groups: set<nat>)
      requires Graphed(bodies, ms, groups) && 0 <= lo <= hi == |graph|
      modifies this`graph, solver.contacts`manifolds, Objects(bodies)`currentGroup, Objects(bodies)`level
      ensures Graphed(bodies, ms, groups) && hi <= |graph| && graph[..hi] == old(graph)
      ensures CountUnsolved(solver.contacts.manifolds) + (|graph| - hi) <= CountUnsolved(old(solver.contacts.manifolds))
    {
      var cms, g := solver.contacts.manifolds, graph;
      ghost var c0 := CountUnsolved(cms);
      var i := 0;
      assert LayerKept(ms, cms, g, countStaticContacts, |bodies|, hi, graph, c0);
      while i < |cms|
        invariant 0 <= i <= |cms| && LayerKept(ms, cms, g, countStaticContacts, |bodies|, hi, old(graph), c0) && GroupsWithin(bodies, groups)
        invariant graph == old(graph) && solver.contacts.manifolds == old(solver.contacts.manifolds)
      {
        cms, g := LayerStep(cms, g, countStaticContacts, i, lo, hi, bodies, ms, groups);
        i := i + 1;
      }
      assert LayerKept(ms, cms, g, countStaticContacts, |bodies|, hi, old(graph), c0);
      StoreLayer(cms, g, bodies, ms, groups);
    }

    /** The end of one pass of _computeGraph: the manifold list and the graph take the pass's copies. */
    method StoreLayer(cms: seq<Manifold>, g: seq<int>, bodies: seq<Body>, ghost ms: seq<Manifold>, ghost groups: set<nat>)
      requires solver.contacts.Valid() && DistinctBodies(bodies) && GroupsWithin(bodies, groups)
      requires Layered(ms, cms, g, countStaticContacts, |bodies|)
      modifies this`graph, solver.contacts`manifolds
      ensures Graphed(bodies, ms, groups) && graph == g && solver.contacts.manifolds == cms
    {
      solver.contacts.manifolds := cms;
      graph := g;
    }
  }

  /** The state one pass of _computeGraph keeps: the graph grows past `hi` and the unsolved count falls as it grows. */
  predicate LayerKept(ms: seq<Manifold>, cms: seq<Manifold>, g: seq<int>, cs: int, n: int, hi: int, g0: seq<int>, c0: int)
  {
    Layered(ms, cms, g, cs, n) && 0 <= hi <= |g| && g[..hi] == g0 && CountUnsolved(cms) + (|g| - hi) <= c0
  }

  /**
   * Manifold `i` of one pass of _computeGraph (ShockPropagationSolver.cpp:85-123):
   * an unsolved manifold merges its bodies' collision groups and is
   * attached, turned round or dropped as Attach decides.
   */
  method LayerStep(cms: seq<Manifold>, g: seq<int>, ghost countStatic: int, i: int, lo: int, hi: int,
                   bodies: seq<Body>, ghost ms: seq<Manifold>, ghost groups: set<nat>)
    returns (cms': seq<Manifold>, g': seq<int>)
    requires Layered(ms, cms, g, countStatic, |bodies|) && DistinctBodies(bodies) && GroupsWithin(bodies, groups)
    requires 0 <= lo <= hi <= |g| && 0 <= i < |cms|
    modifies Objects(bodies)`currentGroup, Objects(bodies)`level
    ensures Layered(ms, cms', g', countStatic, |bodies|) && GroupsWithin(bodies, groups)
    ensures g' == g || g' == g + [i]
    ensures CountUnsolved(cms') + (|g'| - |g|) <= CountUnsolved(cms)
  {
    cms', g' := cms, g;
    var cm := cms[i];
    if !cm.solved {
      MergeGroups(bodies, groups, cm.bodyA, cm.bodyB);
      var m, pushed := Attach(cms, g, lo, hi, i, bodies);
      LayeredStep(ms, cms, g, countStatic, |bodies|, i, lo, hi, m, pushed);
      cms' := cms[i := m];
      if pushed {
        g' := g + [i];
      }
    }
  }
}
