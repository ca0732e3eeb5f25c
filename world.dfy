/**
 * The world step (PhysicsWorld.cpp): the list of bodies, the sleep
 * counters of their collision groups, the enumeration of the pairs of
 * bodies whose trees are walked, and update() that runs them in turn.
 *
 * Collision groups are shared records in the source; here the world owns
 * the list of groups and a body holds the indices of its default and its
 * current group, so a body whose current group is its own default group
 * names one index twice.
 */
module Worlds {
  import opened Settings
  import opened Vector3Math
  import opened BoundsTrees
  import opened Rotation
  import opened Bodies
  import opened Contacts
  import opened Solvers
  import opened ShockPropagation
  import opened BroadPhase

  /** What the two passes of _updateBodies read of a body before touching it. */
  datatype Key = Key(enabled: bool, dynamic: bool, def: nat, cur: nat, slow: bool)

  /** Every key names groups of a list of `n`. */
  predicate KeysIn(keys: seq<Key>, n: int)
  {
    forall k :: 0 <= k < |keys| ==> keys[k].def < n && keys[k].cur < n
  }

  /** The counter of group `g`. */
  function Time(groups: seq<CollisionGroup>, g: nat): int
    requires g < |groups|
  {
    groups[g].timeWithoutMovement
  }

  /** Group `g` with its counter set to `t`. */
  function Timed(groups: seq<CollisionGroup>, g: nat, t: int): (r: seq<CollisionGroup>)
    requires g < |groups|
    ensures |r| == |groups| && r[g].timeWithoutMovement == t && r[g].nonSleep == groups[g].nonSleep
    ensures forall h :: 0 <= h < |groups| && h != g ==> r[h] == groups[h]
  {
    groups[g := groups[g].(timeWithoutMovement := t)]
  }

  /**
   * A slow body's counters, stated without the source's steps: two
   * different groups both take the smaller of the current counter and the
   * default counter plus one; one group shared by both roles counts one up.
   */
  function Ticked(groups: seq<CollisionGroup>, d: nat, c: nat): (r: seq<CollisionGroup>)
    requires d < |groups| && c < |groups|
    ensures |r| == |groups|
  {
    if d == c then Timed(groups, d, Time(groups, d) + 1)
    else
      var m := if Time(groups, c) < Time(groups, d) + 1 then Time(groups, c) else Time(groups, d) + 1;
      Timed(Timed(groups, d, m), c, m)
  }

  /**
   * The counters of a slow body (PhysicsWorld.cpp:128-136) step by step:
   * the default counter is counted up, then the larger of the two counters
   * is lowered to the smaller.  Both aliasing cases meet Ticked.
   */
  method SleepTick(groups: seq<CollisionGroup>, d: nat, c: nat) returns (groups': seq<CollisionGroup>)
    requires d < |groups| && c < |groups|
    ensures groups' == Ticked(groups, d, c)
    ensures Time(groups', d) == Time(groups', c)
    ensures forall g :: 0 <= g < |groups| ==> groups'[g].nonSleep == groups[g].nonSleep
    ensures forall g :: 0 <= g < |groups| && g != d && g != c ==> groups'[g] == groups[g]
  {
    groups' := Timed(groups, d, Time(groups, d) + 1);
    if Time(groups', c) > Time(groups', d) {
      groups' := Timed(groups', c, Time(groups', d));
    } else {
      groups' := Timed(groups', d, Time(groups', c));
    }
  }

  /** A moving body (PhysicsWorld.cpp:137-140): both counters start again from zero. */
  function Reset(groups: seq<CollisionGroup>, d: nat, c: nat): (r: seq<CollisionGroup>)
    requires d < |groups| && c < |groups|
    ensures |r| == |groups|
  {
    Timed(Timed(groups, d, 0), c, 0)
  }

  /**
   * The first pass of _updateBodies on one body (PhysicsWorld.cpp:123-141):
   * an enabled dynamic body whose default group is awake counts on when it
   * is slow and starts again otherwise; nothing else touches a counter.
   */
  function SleepStep(groups: seq<CollisionGroup>, key: Key): (r: seq<CollisionGroup>)
    requires key.def < |groups| && key.cur < |groups|
    ensures |r| == |groups|
  {
    if key.enabled && key.dynamic && groups[key.def].nonSleep then
      if key.slow then Ticked(groups, key.def, key.cur) else Reset(groups, key.def, key.cur)
    else groups
  }

  /** The first pass over the first `k` bodies. */
  function SleepPass(groups: seq<CollisionGroup>, keys: seq<Key>, k: nat): (r: seq<CollisionGroup>)
    requires KeysIn(keys, |groups|) && k <= |keys|
    ensures |r| == |groups|
  {
    if k == 0 then groups else SleepStep(SleepPass(groups, keys, k - 1), keys[k - 1])
  }

  /**
   * Whether the second pass integrates a body (PhysicsWorld.cpp:149-152):
   * it is enabled and dynamic and its current group has been still for
   * fewer than `sleepTime` steps.
   */
  predicate Awake(groups: seq<CollisionGroup>, key: Key, sleepTime: int)
    requires key.cur < |groups|
  {
    key.enabled && key.dynamic && Time(groups, key.cur) < sleepTime
  }

  /**
   * The second pass of _updateBodies on one body's groups
   * (PhysicsWorld.cpp:149-160): an enabled dynamic body's default group
   * takes the current group's counter and is awake exactly when that
   * counter is below `sleepTime`.
   */
  function SettleStep(groups: seq<CollisionGroup>, key: Key, sleepTime: int): (r: seq<CollisionGroup>)
    requires key.def < |groups| && key.cur < |groups|
    ensures |r| == |groups|
    ensures key.enabled && key.dynamic ==>
              Time(r, key.def) == Time(groups, key.cur) && r[key.def].nonSleep == Awake(groups, key, sleepTime)
    ensures forall g :: 0 <= g < |groups| && (g != key.def || !key.enabled || !key.dynamic) ==> r[g] == groups[g]
  {
    if key.enabled && key.dynamic then
      groups[key.def := CollisionGroup(Time(groups, key.cur), Time(groups, key.cur) < sleepTime)]
    else groups
  }

  /** The second pass over the first `k` bodies. */
  function SettlePass(groups: seq<CollisionGroup>, keys: seq<Key>, sleepTime: int, k: nat): (r: seq<CollisionGroup>)
    requires KeysIn(keys, |groups|) && k <= |keys|
    ensures |r| == |groups|
  {
    if k == 0 then groups else SettleStep(SettlePass(groups, keys, sleepTime, k - 1), keys[k - 1], sleepTime)
  }

  /** `after` is what the two passes over the first `n` bodies, whose keys are `keys`, leave of the counters `before`. */
  predicate Stepped(before: seq<CollisionGroup>, keys: seq<Key>, sleepTime: int, n: nat, after: seq<CollisionGroup>)
  {
    KeysIn(keys, |before|) && n <= |keys| && after == SettlePass(SleepPass(before, keys, n), keys, sleepTime, n)
  }

  /** No counter is negative. */
  predicate Counted(groups: seq<CollisionGroup>)
  {
    forall g :: 0 <= g < |groups| ==> groups[g].timeWithoutMovement >= 0
  }

  /** The first pass keeps every counter non-negative. */
  lemma {:induction false} SleepPassCounted(groups: seq<CollisionGroup>, keys: seq<Key>, k: nat)
    requires KeysIn(keys, |groups|) && k <= |keys| && Counted(groups)
    ensures Counted(SleepPass(groups, keys, k))
  {
    if k > 0 {
      SleepPassCounted(groups, keys, k - 1);
    }
  }

  /** The second pass keeps every counter non-negative. */
  lemma {:induction false} SettlePassCounted(groups: seq<CollisionGroup>, keys: seq<Key>, sleepTime: int, k: nat)
    requires KeysIn(keys, |groups|) && k <= |keys| && Counted(groups)
    ensures Counted(SettlePass(groups, keys, sleepTime, k))
  {
    if k > 0 {
      SettlePassCounted(groups, keys, sleepTime, k - 1);
    }
  }

  /** One body of the first pass raises no non-negative counter by more than one. */
  lemma SleepStepBounded(groups: seq<CollisionGroup>, key: Key)
    requires key.def < |groups| && key.cur < |groups| && Counted(groups)
    ensures forall g :: 0 <= g < |groups| ==> Time(SleepStep(groups, key), g) <= Time(groups, g) + 1
  {
  }

  /** The first pass raises no non-negative counter by more than the number of bodies it has seen. */
  lemma {:induction false} SleepPassBounded(groups: seq<CollisionGroup>, keys: seq<Key>, k: nat)
    requires KeysIn(keys, |groups|) && k <= |keys| && Counted(groups)
    ensures forall g :: 0 <= g < |groups| ==> Time(SleepPass(groups, keys, k), g) <= Time(groups, g) + k
  {
    if k > 0 {
      SleepPassBounded(groups, keys, k - 1);
      SleepPassCounted(groups, keys, k - 1);
      SleepStepBounded(SleepPass(groups, keys, k - 1), keys[k - 1]);
    }
  }

  /**
   * The second pass changes only default groups of enabled dynamic bodies:
   * the groups of static and disabled bodies keep their counters and flags.
   */
  lemma {:induction false} SettlePassKeeps(groups: seq<CollisionGroup>, keys: seq<Key>, sleepTime: int, k: nat, g: nat)
    requires KeysIn(keys, |groups|) && k <= |keys| && g < |groups|
    requires forall j :: 0 <= j < k && keys[j].enabled && keys[j].dynamic ==> keys[j].def != g
    ensures SettlePass(groups, keys, sleepTime, k)[g] == groups[g]
  {
    if k > 0 {
      SettlePassKeeps(groups, keys, sleepTime, k - 1, g);
    }
  }

  /** Body `i` and body `j` are both enabled and one of them is dynamic (PhysicsWorld.cpp:170-176). */
  predicate Collides(keys: seq<Key>, i: int, j: int)
    requires 0 <= i < |keys| && 0 <= j < |keys|
  {
    keys[i].enabled && keys[j].enabled && (keys[i].dynamic || keys[j].dynamic)
  }

  /** The pairs (i, j') with i < j' < j the inner loop of _updateCollisions walks, in order. */
  function Row(keys: seq<Key>, i: int, j: int): seq<(int, int)>
    requires 0 <= i < |keys| && j <= |keys|
    decreases j
  {
    if j <= i + 1 then [] else Row(keys, i, j - 1) + (if Collides(keys, i, j - 1) then [(i, j - 1)] else [])
  }

  /** The pairs whose first body is below `i`, in the order _updateCollisions walks them. */
  function Pairs(keys: seq<Key>, i: nat): seq<(int, int)>
    requires i <= |keys|
  {
    if i == 0 then []
    else Pairs(keys, i - 1) + (if keys[i - 1].enabled then Row(keys, i - 1, |keys|) else [])
  }

  /** A row holds exactly the later partners of `i` it may collide with. */
  lemma {:induction false} RowExact(keys: seq<Key>, i: int, j: int, p: (int, int))
    requires 0 <= i < |keys| && j <= |keys|
    ensures p in Row(keys, i, j) <==> p.0 == i && i < p.1 < j && Collides(keys, i, p.1)
    decreases j
  {
    if j > i + 1 {
      RowExact(keys, i, j - 1, p);
    }
  }

  /**
   * _updateCollisions (PhysicsWorld.cpp:168-180) walks a pair of bodies
   * exactly when the first comes before the second and they may collide.
   */
  lemma {:induction false} PairsExact(keys: seq<Key>, i: nat, p: (int, int))
    requires i <= |keys|
    ensures p in Pairs(keys, i) <==> 0 <= p.0 < i && p.0 < p.1 < |keys| && Collides(keys, p.0, p.1)
  {
    if i > 0 {
      PairsExact(keys, i - 1, p);
      RowExact(keys, i - 1, |keys|, p);
    }
  }

  /** A row lists its partners in increasing order. */
  lemma {:induction false} RowIncreasing(keys: seq<Key>, i: int, j: int)
    requires 0 <= i < |keys| && j <= |keys|
    ensures forall a, b :: 0 <= a < b < |Row(keys, i, j)| ==> Row(keys, i, j)[a].1 < Row(keys, i, j)[b].1
    ensures forall a :: 0 <= a < |Row(keys, i, j)| ==> Row(keys, i, j)[a] == (i, Row(keys, i, j)[a].1) && Row(keys, i, j)[a].1 < j
    decreases j
  {
    if j > i + 1 {
      RowIncreasing(keys, i, j - 1);
    }
  }

  /** The pairs come in increasing order of their first body, then of their second. */
  ghost predicate Ascending(ps: seq<(int, int)>)
  {
    forall a, b :: 0 <= a < b < |ps| ==> ps[a].0 < ps[b].0 || (ps[a].0 == ps[b].0 && ps[a].1 < ps[b].1)
  }

  /** No pair is walked twice: the pairs ascend, so none repeats. */
  lemma {:induction false} PairsAscending(keys: seq<Key>, i: nat)
    requires i <= |keys|
    ensures Ascending(Pairs(keys, i))
    ensures forall a :: 0 <= a < |Pairs(keys, i)| ==> Pairs(keys, i)[a].0 < i
  {
    if i > 0 {
      PairsAscending(keys, i - 1);
      RowIncreasing(keys, i - 1, |keys|);
    }
  }

  /** Each unordered pair is walked once: no pair appears twice, in either order. */
  lemma PairsOnce(keys: seq<Key>)
    ensures forall a, b :: 0 <= a < b < |Pairs(keys, |keys|)| ==>
              Pairs(keys, |keys|)[a] != Pairs(keys, |keys|)[b]
              && Pairs(keys, |keys|)[a] != (Pairs(keys, |keys|)[b].1, Pairs(keys, |keys|)[b].0)
  {
    PairsAscending(keys, |keys|);
    var ps := Pairs(keys, |keys|);
    forall a | 0 <= a < |ps|
      ensures ps[a].0 < ps[a].1
    {
      PairsExact(keys, |keys|, ps[a]);
    }
  }

  /** Every side is empty or rooted at node 0. */
  ghost predicate AllRooted(sides: seq<Side>)
  {
    forall k :: 0 <= k < |sides| ==> |sides[k].nodes| > 0 ==> Rooted(sides[k], 0)
  }

  /** Every pair names two sides of the list. */
  predicate PairsIn(ps: seq<(int, int)>, n: int)
  {
    forall a :: 0 <= a < |ps| ==> 0 <= ps[a].0 < n && 0 <= ps[a].1 < n
  }

  /** The walks of the pairs' trees, one after the other. */
  function Walks(sides: seq<Side>, ps: seq<(int, int)>): seq<Visit>
    requires AllRooted(sides) && PairsIn(ps, |sides|)
  {
    if |ps| == 0 then []
    else Walks(sides, ps[..|ps| - 1]) + TreeWalk(sides[ps[|ps| - 1].0], sides[ps[|ps| - 1].1])
  }

  /** Every visit of the walks comes from the walk of one of the pairs. */
  lemma {:induction false} WalksFromPairs(sides: seq<Side>, ps: seq<(int, int)>, v: Visit)
    requires AllRooted(sides) && PairsIn(ps, |sides|) && v in Walks(sides, ps)
    ensures exists a :: 0 <= a < |ps| && v in TreeWalk(sides[ps[a].0], sides[ps[a].1])
  {
    var n := |ps| - 1;
    if v !in TreeWalk(sides[ps[n].0], sides[ps[n].1]) {
      WalksFromPairs(sides, ps[..n], v);
      var a :| 0 <= a < n && v in TreeWalk(sides[ps[..n][a].0], sides[ps[..n][a].1]);
      assert ps[..n][a] == ps[a];
    }
  }

  /** The rows the inner loop has finished extend the pairs by one first body. */
  lemma PairsNext(keys: seq<Key>, i: nat)
    requires i < |keys|
    ensures Pairs(keys, i + 1) == Pairs(keys, i) + (if keys[i].enabled then Row(keys, i, |keys|) else [])
  {
  }

  /** Pairs and rows name bodies of the list. */
  lemma {:induction false} PairsWithin(keys: seq<Key>, i: nat, j: int)
    requires i < |keys| && j <= |keys|
    ensures PairsIn(Pairs(keys, i) + Row(keys, i, j), |keys|)
  {
    var ps, rs := Pairs(keys, i), Row(keys, i, j);
    forall a | 0 <= a < |ps|
      ensures 0 <= ps[a].0 < |keys| && 0 <= ps[a].1 < |keys|
    {
      PairsExact(keys, i, ps[a]);
    }
    forall a | 0 <= a < |rs|
      ensures 0 <= rs[a].0 < |keys| && 0 <= rs[a].1 < |keys|
    {
      RowExact(keys, i, j, rs[a]);
    }
    assert forall a :: 0 <= a < |ps + rs| ==> (ps + rs)[a] == if a < |ps| then ps[a] else rs[a - |ps|];
  }

  /** Appending a pair appends its walk. */
  lemma WalksAppend(sides: seq<Side>, ps: seq<(int, int)>, p: (int, int))
    requires AllRooted(sides) && PairsIn(ps, |sides|) && 0 <= p.0 < |sides| && 0 <= p.1 < |sides|
    ensures PairsIn(ps + [p], |sides|)
    ensures Walks(sides, ps + [p]) == Walks(sides, ps) + TreeWalk(sides[p.0], sides[p.1])
  {
    assert (ps + [p])[..|ps|] == ps;
  }

  /** The side a body's tree gives the walk: its nodes and the current bounds of its shapes. */
  function SideOf(b: Body): (r: Side)
    reads b`tree, b.tree`nodes, b`shapes, (set s | s in b.shapes)`bounds
    ensures |r.boxes| == |b.shapes|
  {
    Side(b.tree.nodes, b.ShapeBounds())
  }

  /** The side of every body, in order. */
  function Sides(bodies: seq<Body>): (r: seq<Side>)
    reads Objects(bodies)`tree, Trees(bodies)`nodes, Objects(bodies)`shapes, ShapeSet(bodies)`bounds
    ensures |r| == |bodies|
  {
    if |bodies| == 0 then []
    else Sides(bodies[..|bodies| - 1]) + [SideOf(bodies[|bodies| - 1])]
  }

  /** The side of body `k` is the one its tree and shapes give. */
  lemma {:induction false} SideAt(bodies: seq<Body>, k: int)
    requires 0 <= k < |bodies|
    ensures Sides(bodies)[k] == SideOf(bodies[k])
  {
    if k < |bodies| - 1 {
      SideAt(bodies[..|bodies| - 1], k);
    }
  }

  /** A sound world gives the walk only trees rooted at node 0 whose leaves name shapes of their body. */
  lemma SoundRooted(bodies: seq<Body>)
    requires Sound(bodies)
    ensures AllRooted(Sides(bodies))
  {
    forall k | 0 <= k < |bodies| && |Sides(bodies)[k].nodes| > 0
      ensures Rooted(Sides(bodies)[k], 0)
    {
      SideAt(bodies, k);
      assert bodies[k] in bodies;
    }
  }

  /** A sound world gives the walk rooted sides for every body. */
  lemma SoundSides(bodies: seq<Body>, sleepVelocity: real, sleepAngularVelocity: real)
    requires Sound(bodies)
    ensures AllRooted(Sides(bodies)) && |Sides(bodies)| == |Keys(bodies, sleepVelocity, sleepAngularVelocity)|
  {
    SoundRooted(bodies);
  }

  /** What pair (i, j) contributes: its trees' walk when the two may collide, nothing otherwise. */
  function PairWalk(keys: seq<Key>, sides: seq<Side>, i: int, j: int): seq<Visit>
    requires |sides| == |keys| && AllRooted(sides) && 0 <= i < |keys| && 0 <= j < |keys|
  {
    if Collides(keys, i, j) then TreeWalk(sides[i], sides[j]) else []
  }

  /** Walking one more partner of `i` appends its walk when the two may collide. */
  lemma RowWalked(keys: seq<Key>, sides: seq<Side>, done: seq<(int, int)>, i: int, j: int)
    requires |sides| == |keys| && AllRooted(sides) && 0 <= i < j < |keys|
    requires PairsIn(done + Row(keys, i, j), |sides|)
    ensures PairsIn(done + Row(keys, i, j + 1), |sides|)
    ensures Walks(sides, done + Row(keys, i, j + 1)) == Walks(sides, done + Row(keys, i, j)) + PairWalk(keys, sides, i, j)
  {
    var ps := done + Row(keys, i, j);
    if Collides(keys, i, j) {
      WalksAppend(sides, ps, (i, j));
      assert done + Row(keys, i, j + 1) == ps + [(i, j)];
    } else {
      assert done + Row(keys, i, j + 1) == ps;
    }
  }

  /**
   * The pair loops of _updateCollisions (PhysicsWorld.cpp:168-180) on a
   * sound list of bodies: what they read of each body, then the walks.
   */
  method Collisions(bodies: seq<Body>, sleepVelocity: real, sleepAngularVelocity: real) returns (visits: seq<Visit>)
    requires Sound(bodies)
    ensures AllRooted(Sides(bodies)) && PairsIn(Pairs(Keys(bodies, sleepVelocity, sleepAngularVelocity), |bodies|), |bodies|)
    ensures visits == Walks(Sides(bodies), Pairs(Keys(bodies, sleepVelocity, sleepAngularVelocity), |bodies|))
  {
    SoundSides(bodies, sleepVelocity, sleepAngularVelocity);
    visits := CollideAll(Keys(bodies, sleepVelocity, sleepAngularVelocity), Sides(bodies));
    assert unchanged(Objects(bodies)) && unchanged(Trees(bodies)) && unchanged(ShapeSet(bodies));
  }

  /**
   * The inner loop of _updateCollisions (PhysicsWorld.cpp:172-179) for an
   * enabled body `i`, over what it reads of the bodies: every later enabled
   * body, when one of the two is dynamic, has its tree walked against that
   * of `i`, in order.
   */
  method CollideRow(keys: seq<Key>, sides: seq<Side>, i: int, done: seq<(int, int)>, visits: seq<Visit>)
    returns (visits': seq<Visit>)
    requires |sides| == |keys| && AllRooted(sides) && 0 <= i < |keys| && keys[i].enabled
    requires PairsIn(done, |sides|) && visits == Walks(sides, done)
    ensures PairsIn(done + Row(keys, i, |keys|), |sides|)
    ensures visits' == Walks(sides, done + Row(keys, i, |keys|))
  {
    visits' := visits;
    var j := i + 1;
    assert done + Row(keys, i, j) == done;
    while j < |keys|
      invariant i + 1 <= j <= |keys|
      invariant PairsIn(done + Row(keys, i, j), |sides|) && visits' == Walks(sides, done + Row(keys, i, j))
    {
      RowWalked(keys, sides, done, i, j);
      visits' := CollidePair(keys, sides, i, j, visits');
      j := j + 1;
    }
  }

  /**
   * The body of the inner loop of _updateCollisions (PhysicsWorld.cpp:
   * 173-178): the trees of bodies i and j are walked when both are
   * enabled and one of them is dynamic.
   */
  method CollidePair(keys: seq<Key>, sides: seq<Side>, i: int, j: int, visits: seq<Visit>) returns (visits': seq<Visit>)
    requires |sides| == |keys| && AllRooted(sides) && 0 <= i < |keys| && 0 <= j < |keys|
    ensures visits' == visits + PairWalk(keys, sides, i, j)
  {
    visits' := visits;
    if Collides(keys, i, j) {
      visits' := visits' + TreeWalk(sides[i], sides[j]);
    }
  }

  /**
   * The loops of _updateCollisions (PhysicsWorld.cpp:168-180), over what
   * they read of the bodies: the trees of exactly the pairs Pairs lists,
   * each once and in that order, are walked as TreeWalk says.
   */
  method CollideAll(keys: seq<Key>, sides: seq<Side>) returns (visits: seq<Visit>)
    requires |sides| == |keys| && AllRooted(sides)
    ensures PairsIn(Pairs(keys, |keys|), |sides|)
    ensures visits == Walks(sides, Pairs(keys, |keys|))
  {
    visits := [];
    var i := 0;
    while i < |keys|
      invariant 0 <= i <= |keys|
      invariant PairsIn(Pairs(keys, i), |sides|) && visits == Walks(sides, Pairs(keys, i))
    {
      PairsNext(keys, i);
      if keys[i].enabled {
        visits := CollideRow(keys, sides, i, Pairs(keys, i), visits);
      } else {
        assert Pairs(keys, i + 1) == Pairs(keys, i);
      }
      i := i + 1;
    }
  }

  /** The rotation of every body. */
  function Rotations(bodies: seq<Body>): set<RotationMatrix>
    reads Objects(bodies)`rotation
  {
    set k | 0 <= k < |bodies| :: bodies[k].rotation
  }

  /** The bounds tree of every body. */
  function Trees(bodies: seq<Body>): set<BoundsTree>
    reads Objects(bodies)`tree
  {
    set k | 0 <= k < |bodies| :: bodies[k].tree
  }

  /** The shapes of every body. */
  function ShapeSet(bodies: seq<Body>): set<Shape>
    reads Objects(bodies)`shapes
  {
    set k, s | 0 <= k < |bodies| && s in bodies[k].shapes :: s
  }

  /** No two bodies share themselves, a rotation, a tree or a shape. */
  ghost predicate Owned(bodies: seq<Body>)
    reads Objects(bodies)`rotation, Objects(bodies)`tree, Objects(bodies)`shapes
  {
    DistinctBodies(bodies)
    && forall b, c | b in bodies && c in bodies && b != c ::
         b.rotation != c.rotation && b.tree != c.tree && forall s | s in b.shapes :: s !in c.shapes
  }

  /** Every body is valid and its tree, when it has nodes, names only its shapes. */
  ghost predicate Sound(bodies: seq<Body>)
    reads Objects(bodies)`rotation, Objects(bodies)`tree, Objects(bodies)`shapes, Rotations(bodies)`m, Trees(bodies)`nodes,
          ShapeSet(bodies)`globalVertices, ShapeSet(bodies)`localVertices, ShapeSet(bodies)`kind
  {
    forall b | b in bodies :: b.Valid() && (|b.tree.nodes| > 0 ==> LeavesIn(b.tree.nodes, 0, |b.shapes|))
  }

  /** Every body's groups are in a list of `n` groups. */
  ghost predicate Grouped(bodies: seq<Body>, n: int)
    reads Objects(bodies)`defaultGroup, Objects(bodies)`currentGroup
  {
    forall b | b in bodies :: b.defaultGroup < n && b.currentGroup < n
  }

  /**
   * Bodies whose default groups are below `n` and whose current groups
   * were all taken from a list of groups below `n` are grouped below `n`.
   */
  lemma CurrentBelow(bodies: seq<Body>, cur: seq<nat>, n: int)
    requires |cur| == |bodies| && forall k :: 0 <= k < |cur| ==> cur[k] < n
    requires forall k :: 0 <= k < |bodies| ==> CurrentGroups(bodies)[k] in cur
    requires forall b | b in bodies :: b.defaultGroup < n
    ensures Grouped(bodies, n)
  {
    forall b | b in bodies
      ensures b.currentGroup < n
    {
      var k :| 0 <= k < |bodies| && bodies[k] == b;
      assert CurrentGroups(bodies)[k] in cur;
    }
  }

  /** Every body's inverse mass and inverse inertia are non-negative. */
  ghost predicate Massed(bodies: seq<Body>)
    reads Objects(bodies)`invMass, Objects(bodies)`invInertia
  {
    forall b | b in bodies :: b.invMass >= 0.0 && b.invInertia >= 0.0
  }

  /** What the passes read of one body. */
  function KeyOf(b: Body, sleepVelocity: real, sleepAngularVelocity: real): Key
    reads b`enabled, b`invMass, b`defaultGroup, b`currentGroup, b`velocity, b`angularVelocity
  {
    Key(b.enabled, b.invMass > 0.0, b.defaultGroup, b.currentGroup,
        InBound(b.velocity, sleepVelocity) && InBound(b.angularVelocity, sleepAngularVelocity))
  }

  /** What the passes read of every body. */
  function Keys(bodies: seq<Body>, sleepVelocity: real, sleepAngularVelocity: real): (r: seq<Key>)
    reads Objects(bodies)`enabled, Objects(bodies)`invMass, Objects(bodies)`defaultGroup,
          Objects(bodies)`currentGroup, Objects(bodies)`velocity, Objects(bodies)`angularVelocity
    ensures |r| == |bodies|
  {
    if |bodies| == 0 then []
    else Keys(bodies[..|bodies| - 1], sleepVelocity, sleepAngularVelocity)
         + [KeyOf(bodies[|bodies| - 1], sleepVelocity, sleepAngularVelocity)]
  }

  /** The key of body `k` is what the passes read of that body. */
  lemma {:induction false} KeyAt(bodies: seq<Body>, sleepVelocity: real, sleepAngularVelocity: real, k: int)
    requires 0 <= k < |bodies|
    ensures Keys(bodies, sleepVelocity, sleepAngularVelocity)[k] == KeyOf(bodies[k], sleepVelocity, sleepAngularVelocity)
  {
    if k < |bodies| - 1 {
      KeyAt(bodies[..|bodies| - 1], sleepVelocity, sleepAngularVelocity, k);
    }
  }

  /** The list with element `i` erased and the later ones shifted down, as vector::erase leaves it. */
  function Erase<T>(s: seq<T>, i: int): (r: seq<T>)
    requires 0 <= i < |s|
    ensures |r| == |s| - 1
    ensures forall k :: 0 <= k < |r| ==> r[k] == if k < i then s[k] else s[k + 1]
  {
    s[..i] + s[i + 1..]
  }

  /**
   * A body removed by its stored index after an earlier body was removed
   * (Body.cpp:26-32 with PhysicsWorld.cpp:113-116), on the world's body
   * list: three distinct bodies registered with stored indices 0, 1 and 2;
   * DestroyBodyAsWritten on the first erases position 0, then
   * DestroyBodyAsWritten on the second erases position 1, which now holds
   * the third, and the second stays registered.
   */
  lemma StaleIndexErasesWrongBody(bodies: seq<Body>)
    requires |bodies| == 3 && bodies[0] != bodies[1] && bodies[1] != bodies[2] && bodies[0] != bodies[2]
    requires forall k :: 0 <= k < 3 ==> bodies[k].index == k
    ensures var afterFirst := Erase(bodies, bodies[0].index);
            var afterSecond := Erase(afterFirst, bodies[1].index);
            bodies[1] in afterSecond && bodies[2] !in afterSecond
  {
    assert Erase(bodies, 0) == [bodies[1], bodies[2]];
    assert Erase([bodies[1], bodies[2]], 1) == [bodies[1]];
  }

  /**
   * The same on a world: three bodies created by NewBody, then the first
   * and the second destroyed as written. The second stays registered and
   * the third is gone.
   */
  method StaleIndexScenario() returns (w: PhysicsWorld, second: Body, third: Body)
    ensures fresh(w) && w.Valid() && |w.bodies| == 1
    ensures second in w.bodies && third !in w.bodies
  {
    var first;
    w, first, second, third := ThreeBodies();
    w.DestroyBodyAsWritten(first);
    assert w.bodies == [second, third];
    w.DestroyBodyAsWritten(second);
    assert w.bodies == [second];
  }

  /** A new world with three bodies created by NewBody, indexed 0, 1 and 2. */
  method ThreeBodies() returns (w: PhysicsWorld, first: Body, second: Body, third: Body)
    ensures fresh(w) && w.Valid() && w.bodies == [first, second, third]
    ensures first.index == 0 && second.index == 1 && third.index == 2
  {
    w := new PhysicsWorld(DefaultGravity);
    first := w.NewBody();
    second := w.NewBody();
    third := w.NewBody();
  }

  /** Erasing a body keeps the bodies apart. */
  lemma OwnedErase(bodies: seq<Body>, i: int)
    requires 0 <= i < |bodies| && Owned(bodies)
    ensures Owned(Erase(bodies, i))
  {
    DistinctErase(bodies, i);
    assert forall b | b in Erase(bodies, i) :: b in bodies;
  }

  /** Erasing a body keeps the others apart. */
  lemma DistinctErase(bodies: seq<Body>, i: int)
    requires 0 <= i < |bodies| && DistinctBodies(bodies)
    ensures DistinctBodies(Erase(bodies, i))
  {
    var r := Erase(bodies, i);
    forall a, b | 0 <= a < b < |r|
      ensures r[a] != r[b]
    {
      var a', b' := if a < i then a else a + 1, if b < i then b else b + 1;
      assert r[a] == bodies[a'] && r[b] == bodies[b'] && a' < b';
    }
  }

  /** Erasing a body keeps the others sound. */
  lemma SoundErase(bodies: seq<Body>, i: int)
    requires 0 <= i < |bodies| && Sound(bodies)
    ensures Sound(Erase(bodies, i))
  {
    var r := Erase(bodies, i);
    forall b | b in r
      ensures b.Valid() && (|b.tree.nodes| > 0 ==> LeavesIn(b.tree.nodes, 0, |b.shapes|))
    {
      var a :| 0 <= a < |r| && r[a] == b;
      assert b == bodies[if a < i then a else a + 1];
    }
  }

  /** Erasing a body keeps the others' groups and masses. */
  lemma GroupedErase(bodies: seq<Body>, i: int, n: int)
    requires 0 <= i < |bodies| && Grouped(bodies, n) && Massed(bodies)
    ensures Grouped(Erase(bodies, i), n) && Massed(Erase(bodies, i))
  {
    assert forall b | b in Erase(bodies, i) :: b in bodies;
  }

  /** A new body with its own parts and no shapes keeps the bodies apart. */
  lemma OwnedAppend(bodies: seq<Body>, b: Body)
    requires Owned(bodies) && b !in bodies && b.shapes == []
    requires b.rotation !in Rotations(bodies) && b.tree !in Trees(bodies)
    ensures Owned(bodies + [b])
  {
    var r := bodies + [b];
    forall x, y | 0 <= x < y < |r|
      ensures r[x] != r[y]
    {
      if y == |bodies| {
        assert r[x] == bodies[x];
      }
    }
    forall c | c in bodies
      ensures c.rotation != b.rotation && c.tree != b.tree
    {
      var k :| 0 <= k < |bodies| && bodies[k] == c;
      assert c.rotation in Rotations(bodies) && c.tree in Trees(bodies);
    }
  }

  /** A new body in a new group with non-negative inverse masses keeps the list grouped and massed. */
  lemma GroupedAppend(bodies: seq<Body>, b: Body, n: int)
    requires Grouped(bodies, n) && Massed(bodies)
    requires b.defaultGroup == n && b.currentGroup == n
    requires b.invMass >= 0.0 && b.invInertia >= 0.0
    ensures Grouped(bodies + [b], n + 1) && Massed(bodies + [b])
  {
    assert forall c | c in bodies + [b] :: c in bodies || c == b;
  }

  /** Non-negative inverse masses are what the solver asks of a list with no manifolds. */
  lemma MassedWeighted(bodies: seq<Body>)
    requires Massed(bodies)
    ensures Weighted([], bodies)
  {
    forall k | 0 <= k < |bodies|
      ensures bodies[k].invMass >= 0.0 && bodies[k].invInertia >= 0.0
    {
      assert bodies[k] in bodies;
    }
  }

  /** A valid new body keeps the list sound. */
  lemma SoundAppend(bodies: seq<Body>, b: Body)
    requires Sound(bodies) && b.Valid() && b.tree.nodes == []
    ensures Sound(bodies + [b])
  {

  }

  /**
   * The world's invariant over its bodies, its groups and its contact
   * container: the bodies own their parts, each is sound, names groups of
   * the list and has non-negative inverse masses; no counter is negative
   * and the container is valid.
   */
  ghost predicate WorldValid(bodies: seq<Body>, groups: seq<CollisionGroup>, c: ContactsContainer)
    reads Objects(bodies)`rotation, Objects(bodies)`tree, Objects(bodies)`shapes,
          Objects(bodies)`defaultGroup, Objects(bodies)`currentGroup, Objects(bodies)`invMass, Objects(bodies)`invInertia,
          Rotations(bodies)`m, Trees(bodies)`nodes,
          ShapeSet(bodies)`globalVertices, ShapeSet(bodies)`localVertices, ShapeSet(bodies)`kind, c
  {
    Owned(bodies) && Sound(bodies) && Grouped(bodies, |groups|) && Massed(bodies) && Counted(groups) && c.Valid()
  }

  /** A new valid body with its own parts, no shapes and a fresh group keeps the world valid. */
  lemma WorldAppend(bodies: seq<Body>, groups: seq<CollisionGroup>, c: ContactsContainer, b: Body)
    requires WorldValid(bodies, groups, c) && b.Valid() && b.shapes == [] && b.tree.nodes == []
    requires b !in bodies && b.rotation !in Rotations(bodies) && b.tree !in Trees(bodies)
    requires b.defaultGroup == |groups| && b.currentGroup == |groups|
    requires b.invMass >= 0.0 && b.invInertia >= 0.0
    ensures WorldValid(bodies + [b], groups + [FreshGroup], c)
  {
    OwnedAppend(bodies, b);
    SoundAppend(bodies, b);
    GroupedAppend(bodies, b, |groups|);
  }

  /** Erasing a body keeps the world valid. */
  lemma WorldErase(bodies: seq<Body>, groups: seq<CollisionGroup>, c: ContactsContainer, i: int)
    requires 0 <= i < |bodies| && WorldValid(bodies, groups, c)
    ensures WorldValid(Erase(bodies, i), groups, c)
  {
    OwnedErase(bodies, i);
    SoundErase(bodies, i);
    GroupedErase(bodies, i, |groups|);
  }

  /**
   * What the first pass of _updateBodies leaves in a body's contact lists:
   * an enabled static body moves its contacts to its previous contacts and
   * starts with none; every other body keeps both lists.
   */
  ghost predicate Contacted(b: Body, contacts: seq<int>, prevContacts: seq<int>)
    reads b`enabled, b`invMass, b`contacts, b`prevContacts
  {
    if b.enabled && !b.IsDynamic() then b.prevContacts == contacts && b.contacts == []
    else b.prevContacts == prevContacts && b.contacts == contacts
  }

  /** The keys of grouped bodies name groups of the list. */
  lemma KeysGrouped(bodies: seq<Body>, n: int, sleepVelocity: real, sleepAngularVelocity: real)
    requires Grouped(bodies, n)
    ensures KeysIn(Keys(bodies, sleepVelocity, sleepAngularVelocity), n)
  {
    forall j | 0 <= j < |bodies|
      ensures Keys(bodies, sleepVelocity, sleepAngularVelocity)[j].def < n
      ensures Keys(bodies, sleepVelocity, sleepAngularVelocity)[j].cur < n
    {
      KeyAt(bodies, sleepVelocity, sleepAngularVelocity, j);
      assert bodies[j] in bodies;
    }
  }

  /** One body of the first pass of _updateBodies (PhysicsWorld.cpp:123-144). */
  method SleepBody(groups: seq<CollisionGroup>, body: Body, sleepVelocity: real, sleepAngularVelocity: real)
    returns (r: seq<CollisionGroup>)
    requires body.defaultGroup < |groups| && body.currentGroup < |groups|
    modifies body`contacts, body`prevContacts
    ensures r == SleepStep(groups, old(KeyOf(body, sleepVelocity, sleepAngularVelocity)))
    ensures Contacted(body, old(body.contacts), old(body.prevContacts))
  {
    r := groups;
    if body.enabled {
      if body.IsDynamic() {
        if groups[body.defaultGroup].nonSleep {
          if InBound(body.velocity, sleepVelocity) && InBound(body.angularVelocity, sleepAngularVelocity) {
            r := SleepTick(groups, body.defaultGroup, body.currentGroup);
          } else {
            r := Timed(Timed(groups, body.defaultGroup, 0), body.currentGroup, 0);
          }
        }
      } else {
        body.UpdateContactsOnBody();
      }
    }
  }

  /** The loop of the first pass of _updateBodies (PhysicsWorld.cpp:121-146) over every body. */
  method SleepAll(bodies: seq<Body>, groups: seq<CollisionGroup>, sleepVelocity: real, sleepAngularVelocity: real,
                  ghost keys: seq<Key>)
    returns (r: seq<CollisionGroup>)
    requires DistinctBodies(bodies) && keys == Keys(bodies, sleepVelocity, sleepAngularVelocity) && KeysIn(keys, |groups|)
    modifies Objects(bodies)`contacts, Objects(bodies)`prevContacts
    ensures r == SleepPass(groups, keys, |bodies|)
    ensures forall j :: 0 <= j < |bodies| ==> Contacted(bodies[j], old(bodies[j].contacts), old(bodies[j].prevContacts))
  {
    r := groups;
    var k := 0;
    while k < |bodies|
      invariant 0 <= k <= |bodies|
      invariant r == SleepPass(groups, keys, k)
      invariant forall j :: 0 <= j < k ==> Contacted(bodies[j], old(bodies[j].contacts), old(bodies[j].prevContacts))
      invariant forall j :: k <= j < |bodies| ==>
                  bodies[j].contacts == old(bodies[j].contacts) && bodies[j].prevContacts == old(bodies[j].prevContacts)
    {
      KeyAt(bodies, sleepVelocity, sleepAngularVelocity, k);
      assert KeyOf(bodies[k], sleepVelocity, sleepAngularVelocity) == keys[k];
      r := SleepBody(r, bodies[k], sleepVelocity, sleepAngularVelocity);
      k := k + 1;
    }
  }

  /** A key that is what the passes read of `body` besides its speeds. */
  ghost predicate KeyFits(key: Key, body: Body)
    reads body`enabled, body`invMass, body`defaultGroup, body`currentGroup
  {
    key.enabled == body.enabled && key.dynamic == body.IsDynamic()
    && key.def == body.defaultGroup && key.cur == body.currentGroup
  }

  /**
   * What the second pass of _updateBodies reads or changes of a body: its
   * enabled flag, its inverse mass and default group, its motion, its
   * current group and its axes.
   */
  datatype Pose = Pose(enabled: bool, invMass: real, defaultGroup: nat,
                       position: Vector3, velocity: Vector3, angularVelocity: Vector3,
                       pseudoVelocity: Vector3, pseudoAngularVelocity: Vector3, currentGroup: nat, axes: seq<Vector3>)

  /** The pose of a body. */
  function PoseOf(b: Body): Pose
    reads b`enabled, b`invMass, b`defaultGroup, b`position, b`velocity, b`angularVelocity,
          b`pseudoVelocity, b`pseudoAngularVelocity, b`currentGroup, b`rotation, b.rotation`m
  {
    Pose(b.enabled, b.invMass, b.defaultGroup, b.position, b.velocity, b.angularVelocity,
         b.pseudoVelocity, b.pseudoAngularVelocity, b.currentGroup, b.rotation.m)
  }

  /** A key that is what the second pass reads of a pose. */
  predicate Matches(key: Key, p: Pose)
  {
    key.enabled == p.enabled && key.dynamic == (p.invMass > 0.0) && key.def == p.defaultGroup && key.cur == p.currentGroup
  }

  /** The pose of every body. */
  function Poses(bodies: seq<Body>): (r: seq<Pose>)
    reads Objects(bodies)`enabled, Objects(bodies)`invMass, Objects(bodies)`defaultGroup, Objects(bodies)`position, Objects(bodies)`velocity, Objects(bodies)`angularVelocity,
          Objects(bodies)`pseudoVelocity, Objects(bodies)`pseudoAngularVelocity, Objects(bodies)`currentGroup,
          Objects(bodies)`rotation, Rotations(bodies)`m
    ensures |r| == |bodies|
  {
    if |bodies| == 0 then []
    else
      assert bodies[|bodies| - 1].rotation in Rotations(bodies);
      Poses(bodies[..|bodies| - 1]) + [PoseOf(bodies[|bodies| - 1])]
  }

  /** The pose of body `k` is the pose of that body. */
  lemma {:induction false} PoseAt(bodies: seq<Body>, k: int)
    requires 0 <= k < |bodies|
    ensures Poses(bodies)[k] == PoseOf(bodies[k])
  {
    if k < |bodies| - 1 {
      PoseAt(bodies[..|bodies| - 1], k);
    }
  }

  /** Every pose of the list is the pose of its body. */
  lemma PosesAll(bodies: seq<Body>)
    ensures forall j :: 0 <= j < |bodies| ==> Poses(bodies)[j] == PoseOf(bodies[j])
  {
    forall j | 0 <= j < |bodies|
      ensures Poses(bodies)[j] == PoseOf(bodies[j])
    {
      PoseAt(bodies, j);
    }
  }

  /** The pose update(dt) (Body.cpp:269-276) leaves a body in. */
  function Moved(p: Pose, dt: real, gravity: Vector3, damping: real, sqrt: real -> real,
                 around: (Vector3, Vector3, real) -> Vector3): Pose
  {
    var spin := Add(p.pseudoAngularVelocity, p.angularVelocity);
    p.(position := Add(p.position, Scale(Add(p.velocity, p.pseudoVelocity), dt)),
       velocity := Scale(Add(p.velocity, Scale(gravity, dt)), damping),
       angularVelocity := Scale(if Turns(spin, sqrt) then p.angularVelocity else Zero, damping),
       pseudoVelocity := Zero, pseudoAngularVelocity := Zero,
       axes := if |p.axes| == 3 then RotatedDt(p.axes, spin, dt, sqrt, around) else p.axes)
  }

  /**
   * What the second pass of _updateBodies does to the pose of one body
   * with key `key`: an awake body is integrated over `dt`; any other body
   * keeps its motion, and an enabled dynamic one falls back to its default
   * group.
   */
  function SettledPose(p: Pose, key: Key, awake: bool, dt: real, gravity: Vector3, damping: real, sqrt: real -> real,
                   around: (Vector3, Vector3, real) -> Vector3): Pose
  {
    if awake then Moved(p, dt, gravity, damping, sqrt, around)
    else p.(currentGroup := if key.enabled && key.dynamic then key.def else p.currentGroup)
  }

  /**
   * What the second pass does to an awake body (PhysicsWorld.cpp:152-154):
   * update(dt), then its shapes placed and its tree refreshed.
   */
  method Wake(body: Body, dt: real, gravity: Vector3, damping: real, sqrt: real -> real,
              around: (Vector3, Vector3, real) -> Vector3)
    requires body.Valid() && (|body.tree.nodes| > 0 ==> LeavesIn(body.tree.nodes, 0, |body.shapes|))
    modifies body`position, body`velocity, body`angularVelocity, body`pseudoVelocity, body`pseudoAngularVelocity,
             body.rotation`m, body.tree`nodes,
             (set s | s in body.shapes)`globalVertices, (set s | s in body.shapes)`globalDir, (set s | s in body.shapes)`bounds
    ensures body.Valid() && (|body.tree.nodes| > 0 ==> LeavesIn(body.tree.nodes, 0, |body.shapes|))
    ensures PoseOf(body) == Moved(old(PoseOf(body)), dt, gravity, damping, sqrt, around)
    ensures forall s | s in body.shapes :: s.Placed(body.position, body.rotation.m)
    ensures |body.tree.nodes| > 0 ==> forall j | j in Reach(body.tree.nodes, 0) :: Refreshed(body.tree.nodes, j, body.ShapeBounds())
  {
    body.Update(dt, gravity, damping, sqrt, around);
    body.UpdateShapes();
    body.UpdateBoundsTree();
  }

  /**
   * One body of the second pass of _updateBodies (PhysicsWorld.cpp:147-161):
   * the counters move as SettleStep says, and the body is integrated, its
   * shapes placed and its tree refreshed when it is awake, or it falls
   * back to its default group when it sleeps.
   */
  method SettleBody(groups: seq<CollisionGroup>, body: Body, sleepTime: int, dt: real, gravity: Vector3, damping: real,
                    sqrt: real -> real, around: (Vector3, Vector3, real) -> Vector3, ghost key: Key)
    returns (r: seq<CollisionGroup>)
    requires KeyFits(key, body) && key.def < |groups| && key.cur < |groups|
    requires body.Valid() && (|body.tree.nodes| > 0 ==> LeavesIn(body.tree.nodes, 0, |body.shapes|))
    modifies body`position, body`velocity, body`angularVelocity, body`pseudoVelocity, body`pseudoAngularVelocity,
             body`currentGroup, body.rotation`m, body.tree`nodes,
             (set s | s in body.shapes)`globalVertices, (set s | s in body.shapes)`globalDir, (set s | s in body.shapes)`bounds
    ensures r == SettleStep(groups, key, sleepTime)
    ensures body.Valid() && (|body.tree.nodes| > 0 ==> LeavesIn(body.tree.nodes, 0, |body.shapes|))
    ensures PoseOf(body) == SettledPose(old(PoseOf(body)), key, Awake(groups, key, sleepTime), dt, gravity, damping, sqrt, around)
    ensures Awake(groups, key, sleepTime) ==>
              (forall s | s in body.shapes :: s.Placed(body.position, body.rotation.m))
              && (|body.tree.nodes| > 0 ==> forall j | j in Reach(body.tree.nodes, 0) :: Refreshed(body.tree.nodes, j, body.ShapeBounds()))
  {
    r := groups;
    if body.enabled && body.IsDynamic() {
      var time := groups[body.currentGroup].timeWithoutMovement;
      if time < sleepTime {
        r := r[body.defaultGroup := CollisionGroup(time, true)];
        Wake(body, dt, gravity, damping, sqrt, around);
      } else {
        body.currentGroup := body.defaultGroup;
        r := r[body.defaultGroup := CollisionGroup(time, false)];
      }
    }
  }

  /**
   * SettleBody on body `k` of a list whose bodies own their parts: the
   * list stays sound and no other body's pose changes.
   */
  method SettleOne(bodies: seq<Body>, k: int, body: Body, groups: seq<CollisionGroup>, sleepTime: int, dt: real, gravity: Vector3,
                   damping: real, sqrt: real -> real, around: (Vector3, Vector3, real) -> Vector3, ghost key: Key)
    returns (r: seq<CollisionGroup>)
    requires 0 <= k < |bodies| && body == bodies[k] && Owned(bodies) && Sound(bodies)
    requires KeyFits(key, bodies[k]) && key.def < |groups| && key.cur < |groups|
    modifies body`position, body`velocity, body`angularVelocity, body`pseudoVelocity,
             body`pseudoAngularVelocity, body`currentGroup, body.rotation`m, body.tree`nodes,
             (set s | s in body.shapes)`globalVertices, (set s | s in body.shapes)`globalDir,
             (set s | s in body.shapes)`bounds
    ensures r == SettleStep(groups, key, sleepTime) && Sound(bodies)
    ensures PoseOf(body) == SettledPose(old(PoseOf(body)), key, Awake(groups, key, sleepTime), dt, gravity, damping, sqrt, around)
    ensures forall j :: 0 <= j < |bodies| && j != k ==> PoseOf(bodies[j]) == old(PoseOf(bodies[j]))
  {
    assert body in bodies;
    r := SettleBody(groups, body, sleepTime, dt, gravity, damping, sqrt, around, key);
    forall b | b in bodies && b != body
      ensures b.rotation != body.rotation && b.tree != body.tree && forall s | s in b.shapes :: s !in body.shapes
    {
    }
  }

  /**
   * SettleOne within the footprint of the whole list, whose rotations,
   * trees and shapes are `rotations`, `trees` and `parts`, with the poses
   * of the list as one sequence.
   */
  method SettleAt(bodies: seq<Body>, k: int, body: Body, groups: seq<CollisionGroup>, sleepTime: int, dt: real, gravity: Vector3,
                  damping: real, sqrt: real -> real, around: (Vector3, Vector3, real) -> Vector3, ghost key: Key,
                  ghost rotations: set<RotationMatrix>, ghost trees: set<BoundsTree>, ghost parts: set<Shape>)
    returns (r: seq<CollisionGroup>)
    requires 0 <= k < |bodies| && body == bodies[k] && Owned(bodies) && Sound(bodies)
    requires KeyFits(key, bodies[k]) && key.def < |groups| && key.cur < |groups|
    requires body.rotation in rotations && body.tree in trees && forall s | s in body.shapes :: s in parts
    modifies Objects(bodies)`position, Objects(bodies)`velocity, Objects(bodies)`angularVelocity,
             Objects(bodies)`pseudoVelocity, Objects(bodies)`pseudoAngularVelocity, Objects(bodies)`currentGroup,
             rotations`m, trees`nodes, parts`globalVertices, parts`globalDir, parts`bounds
    ensures r == SettleStep(groups, key, sleepTime) && Sound(bodies)
    ensures Poses(bodies) == old(Poses(bodies))[k := SettledPose(old(Poses(bodies))[k], key, Awake(groups, key, sleepTime),
                                                                 dt, gravity, damping, sqrt, around)]
  {
    assert body in bodies;
    PosesAll(bodies);
    r := SettleOne(bodies, k, body, groups, sleepTime, dt, gravity, damping, sqrt, around, key);
    PosesAll(bodies);
  }

  /**
   * The poses the second pass leaves the first `k` of bodies whose poses
   * and keys were `poses` and `keys`: body `j` settles with the counters
   * the pass has left after the bodies before it.
   */
  function SettledPoses(poses: seq<Pose>, keys: seq<Key>, groups: seq<CollisionGroup>, sleepTime: int, dt: real,
                        gravity: Vector3, damping: real, sqrt: real -> real, around: (Vector3, Vector3, real) -> Vector3,
                        k: nat): (r: seq<Pose>)
    requires KeysIn(keys, |groups|) && k <= |keys| && k <= |poses|
    ensures |r| == k
  {
    if k == 0 then []
    else SettledPoses(poses, keys, groups, sleepTime, dt, gravity, damping, sqrt, around, k - 1)
         + [SettledPose(poses[k - 1], keys[k - 1], Awake(SettlePass(groups, keys, sleepTime, k - 1), keys[k - 1], sleepTime),
                        dt, gravity, damping, sqrt, around)]
  }

  /** Body `j` of SettledPoses settles with the counters the bodies before it leave. */
  lemma {:induction false} SettledPoseAt(poses: seq<Pose>, keys: seq<Key>, groups: seq<CollisionGroup>, sleepTime: int,
                                         dt: real, gravity: Vector3, damping: real, sqrt: real -> real,
                                         around: (Vector3, Vector3, real) -> Vector3, k: nat, j: nat)
    requires KeysIn(keys, |groups|) && k <= |keys| && k <= |poses| && j < k
    ensures SettledPoses(poses, keys, groups, sleepTime, dt, gravity, damping, sqrt, around, k)[j]
            == SettledPose(poses[j], keys[j], Awake(SettlePass(groups, keys, sleepTime, j), keys[j], sleepTime),
                           dt, gravity, damping, sqrt, around)
  {
    if j < k - 1 {
      SettledPoseAt(poses, keys, groups, sleepTime, dt, gravity, damping, sqrt, around, k - 1, j);
    }
  }

  /** Settling body `k` of a list whose first `k` bodies have settled settles the first `k + 1`. */
  lemma SettledPosesNext(poses: seq<Pose>, keys: seq<Key>, groups: seq<CollisionGroup>, sleepTime: int,
                         dt: real, gravity: Vector3, damping: real, sqrt: real -> real,
                         around: (Vector3, Vector3, real) -> Vector3, k: nat)
    requires KeysIn(keys, |groups|) && k < |keys| && k < |poses|
    ensures var done := SettledPoses(poses, keys, groups, sleepTime, dt, gravity, damping, sqrt, around, k);
            (done + poses[k..])[k := SettledPose((done + poses[k..])[k], keys[k],
                                                 Awake(SettlePass(groups, keys, sleepTime, k), keys[k], sleepTime),
                                                 dt, gravity, damping, sqrt, around)]
            == SettledPoses(poses, keys, groups, sleepTime, dt, gravity, damping, sqrt, around, k + 1) + poses[k + 1..]
  {
  }

  /** Bodies whose parts did not move still have the same parts and still own them. */
  /** Bodies whose default-group fields were not written keep their default groups. */
  twostate lemma DefaultsKept(bodies: seq<Body>)
    requires unchanged(Objects(bodies)`defaultGroup)
    ensures forall b | b in bodies :: b.defaultGroup == old(b.defaultGroup)
  {
  }

  twostate lemma PartsKept(bodies: seq<Body>)
    requires unchanged(Objects(bodies)`rotation, Objects(bodies)`tree, Objects(bodies)`shapes)
    ensures Rotations(bodies) == old(Rotations(bodies)) && Trees(bodies) == old(Trees(bodies))
    ensures ShapeSet(bodies) == old(ShapeSet(bodies)) && (old(Owned(bodies)) ==> Owned(bodies))
  {
  }

  /** Bodies whose parts and their rotations, trees and shapes did not change are still sound. */
  twostate lemma SoundKept(bodies: seq<Body>)
    requires unchanged(Objects(bodies)`rotation, Objects(bodies)`tree, Objects(bodies)`shapes)
    requires unchanged(old(Rotations(bodies))`m, old(Trees(bodies))`nodes)
    requires unchanged(old(ShapeSet(bodies))`globalVertices, old(ShapeSet(bodies))`localVertices, old(ShapeSet(bodies))`kind)
    ensures old(Sound(bodies)) ==> Sound(bodies)
  {
    PartsKept(bodies);
  }

  /** Bodies whose flags, masses, groups and speeds did not change give the same keys. */
  twostate lemma KeysKept(bodies: seq<Body>, sleepVelocity: real, sleepAngularVelocity: real)
    requires unchanged(Objects(bodies)`enabled, Objects(bodies)`invMass, Objects(bodies)`defaultGroup)
    requires unchanged(Objects(bodies)`currentGroup, Objects(bodies)`velocity, Objects(bodies)`angularVelocity)
    ensures Keys(bodies, sleepVelocity, sleepAngularVelocity) == old(Keys(bodies, sleepVelocity, sleepAngularVelocity))
  {
  }

  /** Bodies whose masses did not change are still massed. */
  twostate lemma MassesKept(bodies: seq<Body>)
    requires unchanged(Objects(bodies)`invMass, Objects(bodies)`invInertia)
    ensures old(Massed(bodies)) ==> Massed(bodies)
  {
  }

  /**
   * One turn of the loop of the second pass of _updateBodies
   * (PhysicsWorld.cpp:147-161), on body `k` of a list whose first `k`
   * bodies have settled, whose poses and keys before the pass were `poses`
   * and `keys`, and whose rotations, trees and shapes are `rotations`,
   * `trees` and `parts`: afterwards the first `k + 1` have settled.
   */
  method SettleNext(bodies: seq<Body>, groups: seq<CollisionGroup>, sleepTime: int, dt: real, gravity: Vector3,
                    damping: real, sqrt: real -> real, around: (Vector3, Vector3, real) -> Vector3,
                    ghost keys: seq<Key>, ghost poses: seq<Pose>,
                    ghost rotations: set<RotationMatrix>, ghost trees: set<BoundsTree>, ghost parts: set<Shape>,
                    k: int, r: seq<CollisionGroup>)
    returns (r': seq<CollisionGroup>)
    requires 0 <= k < |bodies| && Owned(bodies) && Sound(bodies)
    requires KeysIn(keys, |groups|) && |keys| == |bodies| && |poses| == |bodies|
    requires forall j :: 0 <= j < |bodies| ==> Matches(keys[j], poses[j])
    requires rotations == Rotations(bodies) && trees == Trees(bodies) && parts == ShapeSet(bodies)
    requires r == SettlePass(groups, keys, sleepTime, k)
    requires Poses(bodies) == SettledPoses(poses, keys, groups, sleepTime, dt, gravity, damping, sqrt, around, k) + poses[k..]
    modifies Objects(bodies)`position, Objects(bodies)`velocity, Objects(bodies)`angularVelocity,
             Objects(bodies)`pseudoVelocity, Objects(bodies)`pseudoAngularVelocity, Objects(bodies)`currentGroup,
             rotations`m, trees`nodes, parts`globalVertices, parts`globalDir, parts`bounds
    ensures Owned(bodies) && Sound(bodies)
    ensures rotations == Rotations(bodies) && trees == Trees(bodies) && parts == ShapeSet(bodies)
    ensures r' == SettlePass(groups, keys, sleepTime, k + 1)
    ensures Poses(bodies) == SettledPoses(poses, keys, groups, sleepTime, dt, gravity, damping, sqrt, around, k + 1) + poses[k + 1..]
  {
    var body := bodies[k];
    PoseAt(bodies, k);
    assert KeyFits(keys[k], body);
    assert body.rotation in rotations && body.tree in trees && forall s | s in body.shapes :: s in parts;
    r' := SettleAt(bodies, k, body, r, sleepTime, dt, gravity, damping, sqrt, around, keys[k], rotations, trees, parts);
    SettledPosesNext(poses, keys, groups, sleepTime, dt, gravity, damping, sqrt, around, k);
    PartsKept(bodies);
  }

  /** Every pose names groups of a list of `n`. */
  predicate PosesIn(poses: seq<Pose>, n: int)
  {
    forall j :: 0 <= j < |poses| ==> poses[j].defaultGroup < n && poses[j].currentGroup < n
  }

  /** The bodies name groups of a list of `n` exactly when their poses do. */
  lemma GroupedPoses(bodies: seq<Body>, n: int)
    ensures Grouped(bodies, n) <==> PosesIn(Poses(bodies), n)
  {
    PosesAll(bodies);
    if PosesIn(Poses(bodies), n) {
      forall b | b in bodies
        ensures b.defaultGroup < n && b.currentGroup < n
      {
        var j :| 0 <= j < |bodies| && bodies[j] == b;
        assert Poses(bodies)[j] == PoseOf(b);
      }
    }
  }

  /** The keys of a list match its poses. */
  lemma KeysMatch(bodies: seq<Body>, sleepVelocity: real, sleepAngularVelocity: real)
    ensures forall j :: 0 <= j < |bodies| ==>
              Matches(Keys(bodies, sleepVelocity, sleepAngularVelocity)[j], Poses(bodies)[j])
  {
    forall j | 0 <= j < |bodies|
      ensures Matches(Keys(bodies, sleepVelocity, sleepAngularVelocity)[j], Poses(bodies)[j])
    {
      KeyAt(bodies, sleepVelocity, sleepAngularVelocity, j);
      PoseAt(bodies, j);
    }
  }

  /**
   * Settling keeps every body in groups of the list: a body keeps its
   * current group or falls back to its default group.
   */
  lemma {:induction false} SettledPosesIn(poses: seq<Pose>, keys: seq<Key>, groups: seq<CollisionGroup>, sleepTime: int,
                                          dt: real, gravity: Vector3, damping: real, sqrt: real -> real,
                                          around: (Vector3, Vector3, real) -> Vector3, k: nat, n: int)
    requires KeysIn(keys, |groups|) && k <= |keys| && k <= |poses| && PosesIn(poses, n)
    requires forall j :: 0 <= j < k ==> Matches(keys[j], poses[j])
    ensures PosesIn(SettledPoses(poses, keys, groups, sleepTime, dt, gravity, damping, sqrt, around, k), n)
  {
    if k > 0 {
      SettledPosesIn(poses, keys, groups, sleepTime, dt, gravity, damping, sqrt, around, k - 1, n);
    }
  }

  /**
   * The loop of the second pass of _updateBodies (PhysicsWorld.cpp:147-162)
   * over every body, whose poses and keys before the pass are `poses` and
   * `keys`: the counters end as SettlePass says, the bodies end in the
   * poses SettledPoses gives them, and the list stays sound.
   */
  method SettleAll(bodies: seq<Body>, groups: seq<CollisionGroup>, sleepTime: int, dt: real, gravity: Vector3,
                    damping: real, sqrt: real -> real, around: (Vector3, Vector3, real) -> Vector3,
                    ghost keys: seq<Key>, ghost poses: seq<Pose>)
    returns (r: seq<CollisionGroup>)
    requires Owned(bodies) && Sound(bodies) && KeysIn(keys, |groups|) && |keys| == |bodies| && poses == Poses(bodies)
    requires forall j :: 0 <= j < |bodies| ==> Matches(keys[j], poses[j])
    modifies Objects(bodies)`position, Objects(bodies)`velocity, Objects(bodies)`angularVelocity,
             Objects(bodies)`pseudoVelocity, Objects(bodies)`pseudoAngularVelocity, Objects(bodies)`currentGroup,
             Rotations(bodies)`m, Trees(bodies)`nodes,
             ShapeSet(bodies)`globalVertices, ShapeSet(bodies)`globalDir, ShapeSet(bodies)`bounds
    ensures r == SettlePass(groups, keys, sleepTime, |bodies|) && Sound(bodies)
    ensures Poses(bodies) == SettledPoses(poses, keys, groups, sleepTime, dt, gravity, damping, sqrt, around, |bodies|)
  {
    r := groups;
    var k := 0;
    ghost var rotations, trees, parts := Rotations(bodies), Trees(bodies), ShapeSet(bodies);
    while k < |bodies|
      invariant 0 <= k <= |bodies| && Owned(bodies) && Sound(bodies)
      invariant rotations == Rotations(bodies) && trees == Trees(bodies) && parts == ShapeSet(bodies)
      invariant r == SettlePass(groups, keys, sleepTime, k)
      invariant Poses(bodies) == SettledPoses(poses, keys, groups, sleepTime, dt, gravity, damping, sqrt, around, k) + poses[k..]
    {
      r := SettleNext(bodies, groups, sleepTime, dt, gravity, damping, sqrt, around, keys, poses, rotations, trees, parts, k, r);
      k := k + 1;
    }
  }

  /**
   * The second pass of _updateBodies over a list of bodies that own their
   * parts, are sound, name groups of `groups` and have non-negative
   * masses: the list keeps all four, the counters end as SettlePass says
   * for the keys the bodies had, and the bodies end as SettledPoses says.
   */
  method SettleList(bodies: seq<Body>, groups: seq<CollisionGroup>, sleepTime: int, dt: real, gravity: Vector3,
                    damping: real, sqrt: real -> real, around: (Vector3, Vector3, real) -> Vector3,
                    sleepVelocity: real, sleepAngularVelocity: real)
    returns (r: seq<CollisionGroup>)
    requires Owned(bodies) && Sound(bodies) && Grouped(bodies, |groups|) && Massed(bodies) && Counted(groups)
    modifies Objects(bodies)`position, Objects(bodies)`velocity, Objects(bodies)`angularVelocity,
             Objects(bodies)`pseudoVelocity, Objects(bodies)`pseudoAngularVelocity, Objects(bodies)`currentGroup,
             Rotations(bodies)`m, Trees(bodies)`nodes,
             ShapeSet(bodies)`globalVertices, ShapeSet(bodies)`globalDir, ShapeSet(bodies)`bounds
    ensures Owned(bodies) && Sound(bodies) && Grouped(bodies, |groups|) && Massed(bodies)
    ensures |r| == |groups| && Counted(r)
    ensures KeysIn(old(Keys(bodies, sleepVelocity, sleepAngularVelocity)), |groups|)
    ensures r == SettlePass(groups, old(Keys(bodies, sleepVelocity, sleepAngularVelocity)), sleepTime, |bodies|)
    ensures Poses(bodies) == SettledPoses(old(Poses(bodies)), old(Keys(bodies, sleepVelocity, sleepAngularVelocity)),
                                          groups, sleepTime, dt, gravity, damping, sqrt, around, |bodies|)
  {
    ghost var keys := Keys(bodies, sleepVelocity, sleepAngularVelocity);
    ghost var poses := Poses(bodies);
    KeysGrouped(bodies, |groups|, sleepVelocity, sleepAngularVelocity);
    KeysMatch(bodies, sleepVelocity, sleepAngularVelocity);
    GroupedPoses(bodies, |groups|);
    SettlePassCounted(groups, keys, sleepTime, |bodies|);
    r := SettleAll(bodies, groups, sleepTime, dt, gravity, damping, sqrt, around, keys, poses);
    SettledPosesIn(poses, keys, groups, sleepTime, dt, gravity, damping, sqrt, around, |bodies|, |groups|);
    GroupedPoses(bodies, |groups|);
    PartsKept(bodies);
    MassesKept(bodies);
  }

  /**
   * The closing loop of update(dt) (PhysicsWorld.cpp:102-104): `n` rounds
   * of updateCollisionGroups over the same contacts, so the current groups
   * end as MergeRoundsOf says.
   */
  method MergeRounds(contacts: ContactsContainer, bodies: seq<Body>, n: int)
    requires BodiesBelow(contacts.manifolds, |bodies|) && DistinctBodies(bodies)
    modifies Objects(bodies)`currentGroup
    ensures CurrentGroups(bodies) == MergeRoundsOf(old(CurrentGroups(bodies)), Indices(bodies), contacts.manifolds, n)
  {
    ghost var cur, idx := CurrentGroups(bodies), Indices(bodies);
    ghost var merged := cur;
    var i := 0;
    while i < n
      invariant 0 <= i && (i <= n || i == 0) && Indices(bodies) == idx
      invariant merged == MergeRoundsOf(cur, idx, contacts.manifolds, i)
      invariant CurrentGroups(bodies) == merged
    {
      contacts.UpdateCollisionGroups(bodies);
      merged := MergeFold(merged, idx, contacts.manifolds);
      i := i + 1;
    }
    if n <= 0 {
      assert MergeRoundsOf(cur, idx, contacts.manifolds, n) == cur;
    }
  }

  /** solve() on bodies that name groups of a list of `n`: they still do afterwards. */
  method SolveGrouped(solver: ShockPropagationSolver, bodies: seq<Body>, ghost n: int)
    requires Grouped(bodies, n) && solver.solver.contacts.Valid() && DistinctBodies(bodies)
    requires BodiesBelow(solver.solver.contacts.manifolds, |bodies|) && PairsApart(solver.solver.contacts.manifolds)
    requires Weighted(solver.solver.contacts.manifolds, bodies) && DynamicPairs(solver.solver.contacts.manifolds, bodies)
    modifies solver.solver`passes, solver`graph, solver`countStaticContacts, solver.solver.contacts`manifolds,
             Objects(bodies)`currentGroup, Objects(bodies)`level, Objects(bodies)`velocity, Objects(bodies)`angularVelocity,
             Objects(bodies)`pseudoVelocity, Objects(bodies)`pseudoAngularVelocity
    ensures Grouped(bodies, n) && solver.solver.contacts.Valid()
    ensures |solver.solver.contacts.manifolds| == |old(solver.solver.contacts.manifolds)|
    ensures forall q :: 0 <= q < |solver.solver.contacts.manifolds| ==> SlotsClamped(solver.solver.contacts.manifolds[q])
    ensures PairsKept(old(solver.solver.contacts.manifolds), solver.solver.contacts.manifolds)
  {
    solver.Solve(bodies, Below(n));
    assert unchanged(Objects(bodies)`defaultGroup);
  }

  /** The indices of a list of `n` groups. */
  function Below(n: int): (r: set<nat>)
    ensures forall g :: g in r <==> 0 <= g < n
    decreases n
  {
    if n <= 0 then {} else Below(n - 1) + {n - 1}
  }

  /** The inverse mass of every pose. */
  function Masses(poses: seq<Pose>): (r: seq<real>)
    ensures |r| == |poses|
  {
    if |poses| == 0 then [] else Masses(poses[..|poses| - 1]) + [poses[|poses| - 1].invMass]
  }

  /** Each manifold's body A, and its body B when it says so, has a positive inverse mass in `masses`. */
  predicate MassedPairs(ms: seq<Manifold>, masses: seq<real>)
  {
    forall q :: 0 <= q < |ms| ==>
      (0 <= ms[q].bodyA < |masses| ==> masses[ms[q].bodyA] > 0.0)
      && (ms[q].notStatB && 0 <= ms[q].bodyB < |masses| ==> masses[ms[q].bodyB] > 0.0)
  }

  /** The second pass keeps every inverse mass. */
  lemma {:induction false} SettledMasses(poses: seq<Pose>, keys: seq<Key>, groups: seq<CollisionGroup>, sleepTime: int,
                                         dt: real, gravity: Vector3, damping: real, sqrt: real -> real,
                                         around: (Vector3, Vector3, real) -> Vector3, k: nat)
    requires KeysIn(keys, |groups|) && k <= |keys| && k <= |poses|
    ensures Masses(SettledPoses(poses, keys, groups, sleepTime, dt, gravity, damping, sqrt, around, k)) == Masses(poses[..k])
  {
    if k > 0 {
      var prev := SettledPoses(poses, keys, groups, sleepTime, dt, gravity, damping, sqrt, around, k - 1);
      SettledMasses(poses, keys, groups, sleepTime, dt, gravity, damping, sqrt, around, k - 1);
      var awake := Awake(SettlePass(groups, keys, sleepTime, k - 1), keys[k - 1], sleepTime);
      var last := SettledPose(poses[k - 1], keys[k - 1], awake, dt, gravity, damping, sqrt, around);
      var done := SettledPoses(poses, keys, groups, sleepTime, dt, gravity, damping, sqrt, around, k);
      assert done == prev + [last];
      assert done[..k - 1] == prev;
      SettledPoseMass(poses[k - 1], keys[k - 1], awake, dt, gravity, damping, sqrt, around);
      assert poses[..k][..k - 1] == poses[..k - 1];
      assert Masses(done) == Masses(prev) + [last.invMass];
    }
  }

  /** Settling a pose keeps its inverse mass. */
  lemma SettledPoseMass(p: Pose, key: Key, awake: bool, dt: real, gravity: Vector3, damping: real, sqrt: real -> real,
                        around: (Vector3, Vector3, real) -> Vector3)
    ensures SettledPose(p, key, awake, dt, gravity, damping, sqrt, around).invMass == p.invMass
  {
  }

  /**
   * Manifolds the narrow phase can hand the solver: well formed, each
   * between two different bodies of the list, body A dynamic, and body B
   * dynamic when the manifold says it is not static.
   */
  ghost predicate Detected(ms: seq<Manifold>, bodies: seq<Body>)
    reads Objects(bodies)`invMass, Objects(bodies)`invInertia
  {
    AllWellFormed(ms) && BodiesBelow(ms, |bodies|) && PairsApart(ms) && Weighted(ms, bodies) && DynamicPairs(ms, bodies)
  }

  /** The second pass keeps the inverse mass of every body. */
  lemma SettledMassesAll(poses: seq<Pose>, keys: seq<Key>, groups: seq<CollisionGroup>, sleepTime: int,
                         dt: real, gravity: Vector3, damping: real, sqrt: real -> real,
                         around: (Vector3, Vector3, real) -> Vector3)
    requires KeysIn(keys, |groups|) && |keys| == |poses|
    ensures Masses(SettledPoses(poses, keys, groups, sleepTime, dt, gravity, damping, sqrt, around, |poses|)) == Masses(poses)
  {
    SettledMasses(poses, keys, groups, sleepTime, dt, gravity, damping, sqrt, around, |poses|);
    assert poses[..|poses|] == poses;
  }

  /** The inverse mass of every body, read off its pose. */
  lemma MassesAt(bodies: seq<Body>)
    ensures forall j :: 0 <= j < |bodies| ==> Masses(Poses(bodies))[j] == bodies[j].invMass
  {
    forall j | 0 <= j < |bodies|
      ensures Masses(Poses(bodies))[j] == bodies[j].invMass
    {
      MassAt(Poses(bodies), j);
      PoseAt(bodies, j);
    }
  }

  /** Entry `j` of Masses is the inverse mass of pose `j`. */
  lemma {:induction false} MassAt(poses: seq<Pose>, j: int)
    requires 0 <= j < |poses|
    ensures Masses(poses)[j] == poses[j].invMass
  {
    if j < |poses| - 1 {
      MassAt(poses[..|poses| - 1], j);
    }
  }

  /** Detected manifolds pair bodies whose inverse masses are positive. */
  lemma DetectedMassed(ms: seq<Manifold>, bodies: seq<Body>)
    requires Detected(ms, bodies)
    ensures MassedPairs(ms, Masses(Poses(bodies)))
  {
    MassesAt(bodies);
  }

  /** Manifolds between bodies whose inverse masses say they are dynamic are detected among them. */
  lemma MassedDetected(ms: seq<Manifold>, bodies: seq<Body>)
    requires AllWellFormed(ms) && BodiesBelow(ms, |bodies|) && PairsApart(ms)
    requires Massed(bodies) && MassedPairs(ms, Masses(Poses(bodies)))
    ensures Detected(ms, bodies)
  {
    MassesAt(bodies);
  }

  /** The default gravity of the constructor (PhysicsWorld.h:17). */
  const DefaultGravity: Vector3 := Vector3(0.0, -9.81, 0.0)

  /**
   * PhysicsWorld (PhysicsWorld.h:14-71): the integration settings, the
   * bodies in registration order, the collision groups they name and the
   * solver.
   */
  class PhysicsWorld {
    var gravity: Vector3
    var damp: real
    var sleepTime: int
    var countIterationsForCollisionGroups: int
    var sleepVelocity: real
    var sleepAngularVelocity: real
    var bodies: seq<Body>
    var groups: seq<CollisionGroup>
    var solver: ShockPropagationSolver

    /**
     * The bodies own their parts, name groups of the list, know their
     * position in the list and have non-negative inverse masses; no counter
     * is negative and the contact container is valid.
     */
    ghost predicate Valid()
      reads this, Objects(bodies)`rotation, Objects(bodies)`tree, Objects(bodies)`shapes,
            Objects(bodies)`defaultGroup, Objects(bodies)`currentGroup, Objects(bodies)`invMass, Objects(bodies)`invInertia,
            Rotations(bodies)`m, Trees(bodies)`nodes,
          ShapeSet(bodies)`globalVertices, ShapeSet(bodies)`localVertices, ShapeSet(bodies)`kind, solver, solver.solver, solver.solver.contacts
    {
      Owned(bodies) && Sound(bodies) && Grouped(bodies, |groups|) && Massed(bodies) && Counted(groups)
      && solver.solver.contacts.Valid()
    }

    /** PhysicsWorld(gravity) (PhysicsWorld.cpp:11-19): damping 0.99, 60 still steps to sleep, sleep speeds 0.1, 150 group merges. */
    constructor (gravity: Vector3)
      ensures Valid() && this.gravity == gravity && damp == 0.99 && sleepTime == 60
      ensures sleepVelocity == 0.1 && sleepAngularVelocity == 0.1 && countIterationsForCollisionGroups == 150
      ensures bodies == [] && groups == [] && fresh(solver) && fresh(solver.solver) && fresh(solver.solver.contacts)
      ensures solver.enableShockPropagation && solver.solver.countIterations == 8 && solver.solver.splitIterations == 3
    {
      this.gravity := gravity;
      damp := 0.99;
      sleepTime := 60;
      sleepVelocity := 0.1;
      sleepAngularVelocity := 0.1;
      countIterationsForCollisionGroups := 150;
      bodies, groups := [], [];
      solver := new ShockPropagationSolver();
    }

    /** _addBody (PhysicsWorld.cpp:107-111): the body goes last and its position is returned. */
    method AddBody(body: Body) returns (index: int)
      modifies this`bodies
      ensures bodies == old(bodies) + [body] && index == |old(bodies)| && bodies[index] == body
    {
      bodies := bodies + [body];
      index := |bodies| - 1;
    }

    /**
     * Body(physicsWorld) (Body.cpp:9-24): a new body registers itself,
     * keeping the position _addBody hands back, and starts in a fresh
     * collision group that is both its default and its current group.
     */
    method NewBody() returns (body: Body)
      requires Valid()
      modifies this`bodies, this`groups
      ensures Valid() && fresh(body) && bodies == old(bodies) + [body] && groups == old(groups) + [FreshGroup]
      ensures body.index == |old(bodies)| && body.defaultGroup == |old(groups)| && body.currentGroup == |old(groups)|
      ensures body.enabled && body.invMass == 1.0 && body.shapes == []
    {
      body := new Body(|bodies|, |groups|);
      Register(body);
    }

    /** The registration part of NewBody: the body goes last and its fresh group joins the list. */
    method Register(body: Body)
      requires Valid() && body.Valid() && body.shapes == [] && body.tree.nodes == []
      requires body !in bodies && body.rotation !in Rotations(bodies) && body.tree !in Trees(bodies)
      requires body.defaultGroup == |groups| && body.currentGroup == |groups|
      requires body.invMass >= 0.0 && body.invInertia >= 0.0
      modifies this`bodies, this`groups
      ensures Valid() && bodies == old(bodies) + [body] && groups == old(groups) + [FreshGroup]
    {
      ghost var b0, g0 := bodies, groups;
      var index := AddBody(body);
      groups := groups + [FreshGroup];
      WorldAppend(b0, g0, solver.solver.contacts, body);
    }

    /**
     * _removeBody (PhysicsWorld.cpp:113-116): the body at `index` is
     * erased and the later ones shift down; their stored indices stay as
     * they were.
     */
    method RemoveBody(index: int)
      requires Valid() && 0 <= index < |bodies|
      modifies this`bodies
      ensures Valid() && bodies == Erase(old(bodies), index)
    {
      WorldErase(bodies, groups, solver.solver.contacts, index);
      bodies := bodies[..index] + bodies[index + 1..];
    }

    /**
     * ~Body (Body.cpp:26-32) as written: the body is erased at the index
     * it was given when it was created, which is its position only while
     * no earlier body has left the world.
     */
    method DestroyBodyAsWritten(body: Body)
      requires Valid() && body in bodies && 0 <= body.index < |bodies|
      modifies this`bodies
      ensures Valid() && bodies == Erase(old(bodies), body.index)
    {
      RemoveBody(body.index);
    }

    /**
     * ~Body erasing the body at its actual position in the list, so that
     * it and no other body leaves the world.
     */
    method DestroyBody(body: Body)
      requires Valid() && body in bodies
      modifies this`bodies
      ensures Valid() && body !in bodies && |bodies| == |old(bodies)| - 1
      ensures forall b :: b in old(bodies) && b != body ==> b in bodies
    {
      var k := 0;
      while bodies[k] != body
        invariant 0 <= k < |bodies| && body in bodies[k..]
        decreases |bodies| - k
      {
        k := k + 1;
      }
      ghost var b0 := bodies;
      RemoveBody(k);
      forall b | b in b0 && b != body
        ensures b in bodies
      {
        var j :| 0 <= j < |b0| && b0[j] == b;
        assert bodies[if j < k then j else j - 1] == b;
      }
      assert body !in bodies by {
        assert DistinctBodies(b0);
        forall j | 0 <= j < |bodies|
          ensures bodies[j] != body
        {
          assert bodies[j] == b0[if j < k then j else j + 1];
        }
      }
    }

    /**
     * The first pass of _updateBodies (PhysicsWorld.cpp:121-146) on the
     * world's bodies and groups; no counter becomes negative.
     */
    method SleepBodies()
      requires Valid()
      modifies this`groups, Objects(bodies)`contacts, Objects(bodies)`prevContacts
      ensures Valid()
      ensures KeysIn(old(Keys(bodies, sleepVelocity, sleepAngularVelocity)), |old(groups)|)
      ensures groups == SleepPass(old(groups), old(Keys(bodies, sleepVelocity, sleepAngularVelocity)), |bodies|)
      ensures Keys(bodies, sleepVelocity, sleepAngularVelocity) == old(Keys(bodies, sleepVelocity, sleepAngularVelocity))
      ensures forall j :: 0 <= j < |bodies| ==> Contacted(bodies[j], old(bodies[j].contacts), old(bodies[j].prevContacts))
    {
      var counters := SleepContacts();
      SetGroups(counters);
    }

    /** The loop of the first pass: the contact lists change in place and the new counters are handed back. */
    method SleepContacts() returns (counters: seq<CollisionGroup>)
      requires Valid()
      modifies Objects(bodies)`contacts, Objects(bodies)`prevContacts
      ensures Valid()
      ensures KeysIn(old(Keys(bodies, sleepVelocity, sleepAngularVelocity)), |groups|)
      ensures counters == SleepPass(groups, old(Keys(bodies, sleepVelocity, sleepAngularVelocity)), |bodies|)
      ensures |counters| == |groups| && Counted(counters)
      ensures Keys(bodies, sleepVelocity, sleepAngularVelocity) == old(Keys(bodies, sleepVelocity, sleepAngularVelocity))
      ensures forall j :: 0 <= j < |bodies| ==> Contacted(bodies[j], old(bodies[j].contacts), old(bodies[j].prevContacts))
    {
      ghost var keys := Keys(bodies, sleepVelocity, sleepAngularVelocity);
      KeysGrouped(bodies, |groups|, sleepVelocity, sleepAngularVelocity);
      SleepPassCounted(groups, keys, |bodies|);
      counters := SleepAll(bodies, groups, sleepVelocity, sleepAngularVelocity, keys);
    }

    /**
     * The second pass of _updateBodies (PhysicsWorld.cpp:147-162): every
     * body settles as SettledPoses says, with the counters SettlePass leaves.
     */
    method SettleBodies(dt: real, sqrt: real -> real, around: (Vector3, Vector3, real) -> Vector3,
                        ghost keys: seq<Key>, ghost poses: seq<Pose>)
      requires Valid() && keys == Keys(bodies, sleepVelocity, sleepAngularVelocity) && poses == Poses(bodies)
      modifies this`groups, Objects(bodies)`position, Objects(bodies)`velocity, Objects(bodies)`angularVelocity,
               Objects(bodies)`pseudoVelocity, Objects(bodies)`pseudoAngularVelocity, Objects(bodies)`currentGroup,
               Rotations(bodies)`m, Trees(bodies)`nodes,
               ShapeSet(bodies)`globalVertices, ShapeSet(bodies)`globalDir, ShapeSet(bodies)`bounds
      ensures Valid() && KeysIn(keys, |old(groups)|)
      ensures groups == SettlePass(old(groups), keys, sleepTime, |bodies|)
      ensures Poses(bodies) == SettledPoses(poses, keys, old(groups), sleepTime, dt, gravity, damp, sqrt, around, |bodies|)
    {
      var counters := SettleMotion(dt, sqrt, around);
      SetGroups(counters);
    }

    /** The loop of the second pass: the bodies move in place and the new counters are handed back. */
    method SettleMotion(dt: real, sqrt: real -> real, around: (Vector3, Vector3, real) -> Vector3)
      returns (counters: seq<CollisionGroup>)
      requires Valid()
      modifies Objects(bodies)`position, Objects(bodies)`velocity, Objects(bodies)`angularVelocity,
               Objects(bodies)`pseudoVelocity, Objects(bodies)`pseudoAngularVelocity, Objects(bodies)`currentGroup,
               Rotations(bodies)`m, Trees(bodies)`nodes,
               ShapeSet(bodies)`globalVertices, ShapeSet(bodies)`globalDir, ShapeSet(bodies)`bounds
      ensures Valid()
      ensures KeysIn(old(Keys(bodies, sleepVelocity, sleepAngularVelocity)), |groups|)
      ensures counters == SettlePass(groups, old(Keys(bodies, sleepVelocity, sleepAngularVelocity)), sleepTime, |bodies|)
      ensures |counters| == |groups| && Counted(counters)
      ensures Poses(bodies) == SettledPoses(old(Poses(bodies)), old(Keys(bodies, sleepVelocity, sleepAngularVelocity)),
                                            groups, sleepTime, dt, gravity, damp, sqrt, around, |bodies|)
    {
      counters := SettleList(bodies, groups, sleepTime, dt, gravity, damp, sqrt, around, sleepVelocity, sleepAngularVelocity);
    }

    /**
     * _updateCollisions (PhysicsWorld.cpp:165-181): the contacts of the last
     * step become the previous ones, then the trees of the pairs Pairs
     * lists are walked and the shape pairs the walks reach are handed back,
     * in the order the narrow phase receives them; the manifolds the narrow
     * phase opens on them are `detected` (Narrow models its routines).
     */
    method UpdateCollisions(detected: seq<Manifold>) returns (visits: seq<Visit>)
      requires Valid() && Detected(detected, bodies)
      modifies solver.solver.contacts`manifolds, solver.solver.contacts`prevManifolds,
               solver.solver.contacts`usedPrev, solver.solver.contacts`notUsedPrev
      ensures Valid() && Detected(solver.solver.contacts.manifolds, bodies)
      ensures solver.solver.contacts.prevManifolds == old(solver.solver.contacts.manifolds)
      ensures solver.solver.contacts.manifolds == detected
      ensures AllRooted(Sides(bodies)) && PairsIn(Pairs(Keys(bodies, sleepVelocity, sleepAngularVelocity), |bodies|), |bodies|)
      ensures visits == Walks(Sides(bodies), Pairs(Keys(bodies, sleepVelocity, sleepAngularVelocity), |bodies|))
    {
      ClearContacts();
      Receive(detected);
      label received:
      visits := Collisions(bodies, sleepVelocity, sleepAngularVelocity);
      Kept@received();
    }

    /** Nothing the world's invariant reads has changed, so it still holds. */
    twostate lemma Kept()
      requires old(Valid()) && unchanged(this) && unchanged(old(solver), old(solver.solver), old(solver.solver.contacts))
      requires unchanged(old(Objects(bodies))) && unchanged(old(Rotations(bodies))) && unchanged(old(Trees(bodies)))
      requires unchanged(old(ShapeSet(bodies)))
      ensures Valid()
    {
    }

    /** deleteAllContacts on the world's container; the bodies keep what the walks read. */
    method ClearContacts()
      requires Valid()
      modifies solver.solver.contacts`manifolds, solver.solver.contacts`prevManifolds,
               solver.solver.contacts`usedPrev, solver.solver.contacts`notUsedPrev
      ensures Valid()
      ensures solver.solver.contacts.prevManifolds == old(solver.solver.contacts.manifolds) && solver.solver.contacts.manifolds == []
    {
      solver.solver.contacts.DeleteAllContacts();
    }

    /**
     * update(dt) (PhysicsWorld.cpp:97-105): the two passes over the bodies
     * (UpdateBodies, which states the counters and poses they leave), then
     * the contact phase on the manifolds `detected` (UpdateContacts, whose
     * frame leaves positions, rotations, counters and default groups as the
     * passes left them).  Here: the container ends with the manifolds of this
     * step, each pairing the bodies the narrow phase paired, every slot
     * clamped, and last step's manifolds as the previous ones.
     */
    method Update(dt: real, sqrt: real -> real, around: (Vector3, Vector3, real) -> Vector3, detected: seq<Manifold>)
      requires Valid() && dt > EPS
      requires Detected(detected, bodies)
      modifies this`groups, Objects(bodies)`contacts, Objects(bodies)`prevContacts,
               Objects(bodies)`position, Objects(bodies)`velocity, Objects(bodies)`angularVelocity,
               Objects(bodies)`pseudoVelocity, Objects(bodies)`pseudoAngularVelocity, Objects(bodies)`currentGroup,
               Objects(bodies)`level, Rotations(bodies)`m, Trees(bodies)`nodes,
               ShapeSet(bodies)`globalVertices, ShapeSet(bodies)`globalDir, ShapeSet(bodies)`bounds,
               solver.solver`passes, solver`graph, solver`countStaticContacts,
               solver.solver.contacts`manifolds, solver.solver.contacts`prevManifolds,
               solver.solver.contacts`usedPrev, solver.solver.contacts`notUsedPrev
      ensures Valid()
      ensures solver.solver.contacts.prevManifolds == old(solver.solver.contacts.manifolds)
      ensures PairsKept(detected, solver.solver.contacts.manifolds)
      ensures forall q :: 0 <= q < |solver.solver.contacts.manifolds| ==> SlotsClamped(solver.solver.contacts.manifolds[q])
    {
      DetectedMassed(detected, bodies);
      UpdateBodies(dt, sqrt, around, Keys(bodies, sleepVelocity, sleepAngularVelocity), Poses(bodies));
      MassedDetected(detected, bodies);
      var visits, solved := UpdateContacts(detected);
    }

    /** _updateBodies (PhysicsWorld.cpp:119-163): the first pass, then the second. */
    method UpdateBodies(dt: real, sqrt: real -> real, around: (Vector3, Vector3, real) -> Vector3,
                        ghost keys: seq<Key>, ghost poses: seq<Pose>)
      requires Valid() && keys == Keys(bodies, sleepVelocity, sleepAngularVelocity) && poses == Poses(bodies)
      modifies this`groups, Objects(bodies)`contacts, Objects(bodies)`prevContacts,
               Objects(bodies)`position, Objects(bodies)`velocity, Objects(bodies)`angularVelocity,
               Objects(bodies)`pseudoVelocity, Objects(bodies)`pseudoAngularVelocity, Objects(bodies)`currentGroup,
               Rotations(bodies)`m, Trees(bodies)`nodes,
               ShapeSet(bodies)`globalVertices, ShapeSet(bodies)`globalDir, ShapeSet(bodies)`bounds
      ensures Valid() && Stepped(old(groups), keys, sleepTime, |bodies|, groups)
      ensures Poses(bodies) == SettledPoses(poses, keys, SleepPass(old(groups), keys, |bodies|),
                                            sleepTime, dt, gravity, damp, sqrt, around, |bodies|)
      ensures Masses(Poses(bodies)) == Masses(poses)
    {
      ghost var counters := groups;
      SleepBodies();
      assert Poses(bodies) == poses;
      SettleBodies(dt, sqrt, around, keys, poses);
      assert groups == SettlePass(SleepPass(counters, keys, |bodies|), keys, sleepTime, |bodies|);
      SettledMassesAll(poses, keys, SleepPass(counters, keys, |bodies|), sleepTime, dt, gravity, damp, sqrt, around);
    }

    /**
     * The rest of update(dt) (PhysicsWorld.cpp:100-104): the broad phase,
     * which hands back the shape pairs to test (UpdateCollisions); the
     * narrow phase, whose manifolds are `detected`; the solver; then the
     * group merges.  The previous manifolds are the last step's.
     */
    method UpdateContacts(detected: seq<Manifold>) returns (visits: seq<Visit>, ghost solved: seq<nat>)
      requires Valid() && Detected(detected, bodies)
      modifies Objects(bodies)`velocity, Objects(bodies)`angularVelocity,
               Objects(bodies)`pseudoVelocity, Objects(bodies)`pseudoAngularVelocity, Objects(bodies)`currentGroup,
               Objects(bodies)`level, solver.solver`passes, solver`graph, solver`countStaticContacts,
               solver.solver.contacts`manifolds, solver.solver.contacts`prevManifolds,
               solver.solver.contacts`usedPrev, solver.solver.contacts`notUsedPrev
      ensures Valid()
      ensures solver.solver.contacts.prevManifolds == old(solver.solver.contacts.manifolds)
      ensures PairsKept(detected, solver.solver.contacts.manifolds)
      ensures forall q :: 0 <= q < |solver.solver.contacts.manifolds| ==> SlotsClamped(solver.solver.contacts.manifolds[q])
      ensures |solved| == |bodies| && BodiesBelow(solver.solver.contacts.manifolds, |bodies|)
      ensures CurrentGroups(bodies) == MergeRoundsOf(solved, Indices(bodies), solver.solver.contacts.manifolds,
                                                     countIterationsForCollisionGroups)
    {
      visits := UpdateCollisions(detected);
      solved := SolveAndMerge();
    }

    /**
     * The manifolds of the container, solved and then merged over
     * (PhysicsWorld.cpp:101-104): the solver keeps each manifold's pair of
     * bodies and clamps its slots; the current groups end as the merges
     * take them from `solved`, the groups the solver leaves.
     */
    method SolveAndMerge() returns (ghost solved: seq<nat>)
      requires Valid() && Detected(solver.solver.contacts.manifolds, bodies)
      modifies Objects(bodies)`velocity, Objects(bodies)`angularVelocity,
               Objects(bodies)`pseudoVelocity, Objects(bodies)`pseudoAngularVelocity, Objects(bodies)`currentGroup,
               Objects(bodies)`level, solver.solver`passes, solver`graph, solver`countStaticContacts,
               solver.solver.contacts`manifolds
      ensures Valid()
      ensures PairsKept(old(solver.solver.contacts.manifolds), solver.solver.contacts.manifolds)
      ensures forall q :: 0 <= q < |solver.solver.contacts.manifolds| ==> SlotsClamped(solver.solver.contacts.manifolds[q])
      ensures |solved| == |bodies| && BodiesBelow(solver.solver.contacts.manifolds, |bodies|)
      ensures CurrentGroups(bodies) == MergeRoundsOf(solved, Indices(bodies), solver.solver.contacts.manifolds,
                                                     countIterationsForCollisionGroups)
    {
      SolveStep();
      solved := CurrentGroups(bodies);
      MergeStep();
    }

    /**
     * What the narrow-phase routines leave in the world's container, run on
     * the visits: the manifolds they open, each between two different
     * bodies of the list, body A dynamic, body B dynamic when the manifold
     * says so.  They are built by addContactManifold and addContact, which
     * Contacts models; here the list is taken whole.
     */
    method Receive(detected: seq<Manifold>)
      requires Valid() && Detected(detected, bodies) && solver.solver.contacts.manifolds == []
      modifies solver.solver.contacts`manifolds
      ensures Valid() && solver.solver.contacts.manifolds == detected && Detected(detected, bodies)
    {
      solver.solver.contacts.manifolds := detected;
    }

    /**
     * solve() (PhysicsWorld.cpp:101) on the world's contacts: every slot in
     * use ends with a pushing impulse and a friction inside the cone, each
     * manifold pairs the bodies it paired, and the bodies stay in groups of
     * the list.
     */
    method SolveStep()
      requires Valid() && Detected(solver.solver.contacts.manifolds, bodies)
      modifies solver.solver`passes, solver`graph, solver`countStaticContacts, solver.solver.contacts`manifolds,
               Objects(bodies)`currentGroup, Objects(bodies)`level, Objects(bodies)`velocity, Objects(bodies)`angularVelocity,
               Objects(bodies)`pseudoVelocity, Objects(bodies)`pseudoAngularVelocity
      ensures Valid() && PairsKept(old(solver.solver.contacts.manifolds), solver.solver.contacts.manifolds)
      ensures BodiesBelow(solver.solver.contacts.manifolds, |bodies|)
      ensures forall q :: 0 <= q < |solver.solver.contacts.manifolds| ==> SlotsClamped(solver.solver.contacts.manifolds[q])
    {
      SolveGrouped(solver, bodies, |groups|);
      SoundKept(bodies);
      PartsKept(bodies);
      MassesKept(bodies);
    }

    /** The group merges of update(dt) (PhysicsWorld.cpp:102-104) on the world's contacts. */
    method MergeStep()
      requires Valid() && BodiesBelow(solver.solver.contacts.manifolds, |bodies|)
      modifies Objects(bodies)`currentGroup
      ensures Valid()
      ensures CurrentGroups(bodies) == MergeRoundsOf(old(CurrentGroups(bodies)), Indices(bodies), solver.solver.contacts.manifolds,
                                                     countIterationsForCollisionGroups)
    {
      ghost var cur := CurrentGroups(bodies);
      MergeRounds(solver.solver.contacts, bodies, countIterationsForCollisionGroups);
      MergeRoundsWithin(cur, Indices(bodies), solver.solver.contacts.manifolds, countIterationsForCollisionGroups);
      DefaultsKept(bodies);
      CurrentBelow(bodies, cur, |groups|);
      SoundKept(bodies);
      PartsKept(bodies);
      MassesKept(bodies);
    }

    /** Replaces the counters by as many non-negative ones. */
    method SetGroups(counters: seq<CollisionGroup>)
      requires Valid() && |counters| == |groups| && Counted(counters)
      modifies this`groups
      ensures Valid() && groups == counters && Poses(bodies) == old(Poses(bodies))
      ensures Keys(bodies, sleepVelocity, sleepAngularVelocity) == old(Keys(bodies, sleepVelocity, sleepAngularVelocity))
    {
      groups := counters;
    }
  }
}
