/**
 * The dual-tree descent of the world step (PhysicsWorld.cpp:183-224,
 * 294-307): two bodies' bounds trees are walked together, every pair of
 * nodes whose bounds do not overlap is pruned, and each pair of leaf
 * shapes reached is handed to the narrow phase.
 *
 * The walk is modelled on the trees' node vectors and on the bounds of
 * each body's shapes (indexed like the body's shape list).  A shape is
 * named by the tree it comes from and its index there.  The walk hands a
 * pair (first, second) to the narrow phase; when a leaf of the second tree
 * meets an internal node of the first, the source passes that leaf's shape
 * first, and the model keeps that order.
 */
module BroadPhase {
  import opened BoundsBox
  import opened BoundsTrees

  /** A shape of the first (A) or the second (B) body of the pair. */
  datatype ShapeRef = InA(a: int) | InB(b: int)

  /** A call of the narrow phase on two shapes, in the order the walk passes them. */
  datatype Visit = Visit(first: ShapeRef, second: ShapeRef)

  /** The two sides of a pair of trees: nodes and the bounds of each shape. */
  datatype Side = Side(nodes: seq<Node>, boxes: seq<Bounds>)

  /** Node `i` of `s` roots a tree whose leaves name shapes of `s`. */
  ghost predicate Rooted(s: Side, i: int)
  {
    Subtree(s.nodes, i) && LeavesIn(s.nodes, i, |s.boxes|)
  }

  /** The reference to shape `k` of the side `inA` names. */
  function Ref(inA: bool, k: int): ShapeRef
  {
    if inA then InA(k) else InB(k)
  }

  /**
   * _updateCollision(shape, tree, node) (PhysicsWorld.cpp:294-307): the
   * shape `r` with bounds `box` against node `i` of side `s`; pruned when
   * the bounds do not overlap, a visit at a leaf, both children otherwise.
   */
  function ShapeWalk(r: ShapeRef, box: Bounds, s: Side, inA: bool, i: int): seq<Visit>
    requires Rooted(s, i)
    decreases |s.nodes| - i
  {
    var n := s.nodes[i];
    if !Collision(box, n.bounds) then []
    else if n.shape != NoShape then [Visit(r, Ref(inA, n.shape))]
    else ShapeWalk(r, box, s, inA, n.indexA) + ShapeWalk(r, box, s, inA, n.indexB)
  }

  /**
   * _updateCollision(treeA, nodeA, treeB, nodeB) (PhysicsWorld.cpp:192-224):
   * pruned when the node bounds do not overlap; two leaves give a visit; a
   * leaf against an internal node walks the leaf's shape down the other
   * tree; two internal nodes recurse on the four pairs of children.
   */
  function NodeWalk(sa: Side, i: int, sb: Side, j: int): seq<Visit>
    requires Rooted(sa, i) && Rooted(sb, j)
    decreases |sa.nodes| - i + |sb.nodes| - j
  {
    var na, nb := sa.nodes[i], sb.nodes[j];
    if !Collision(na.bounds, nb.bounds) then []
    else if na.shape != NoShape then
      if nb.shape != NoShape then [Visit(InA(na.shape), InB(nb.shape))]
      else ShapeWalk(InA(na.shape), sa.boxes[na.shape], sb, false, nb.indexA)
           + ShapeWalk(InA(na.shape), sa.boxes[na.shape], sb, false, nb.indexB)
    else if nb.shape != NoShape then
      ShapeWalk(InB(nb.shape), sb.boxes[nb.shape], sa, true, na.indexA)
      + ShapeWalk(InB(nb.shape), sb.boxes[nb.shape], sa, true, na.indexB)
    else
      NodeWalk(sa, na.indexA, sb, nb.indexA) + NodeWalk(sa, na.indexA, sb, nb.indexB)
      + NodeWalk(sa, na.indexB, sb, nb.indexA) + NodeWalk(sa, na.indexB, sb, nb.indexB)
  }

  /** _updateCollision(treeA, treeB) (PhysicsWorld.cpp:183-190): nothing when either tree is empty, else the walk from both roots. */
  function TreeWalk(sa: Side, sb: Side): (r: seq<Visit>)
    requires |sa.nodes| > 0 ==> Rooted(sa, 0)
    requires |sb.nodes| > 0 ==> Rooted(sb, 0)
    ensures (|sa.nodes| == 0 || |sb.nodes| == 0) ==> r == []
  {
    if |sa.nodes| == 0 || |sb.nodes| == 0 then [] else NodeWalk(sa, 0, sb, 0)
  }

  /**
   * The bounds update leaves behind under node `i`: each leaf holds its
   * shape's bounds and each internal node the merge of its children's.
   */
  ghost predicate FreshUnder(s: Side, i: int)
    requires Rooted(s, i)
  {
    forall j | j in Reach(s.nodes, i) :: Refreshed(s.nodes, j, s.boxes)
  }

  /** The bounds of the shapes `v` names, on sides `sa` and `sb`. */
  function BoxOf(sa: Side, sb: Side, r: ShapeRef): Bounds
    requires r.InA? ==> 0 <= r.a < |sa.boxes|
    requires r.InB? ==> 0 <= r.b < |sb.boxes|
  {
    if r.InA? then sa.boxes[r.a] else sb.boxes[r.b]
  }

  /** A visit pairs a shape of A with a shape of B whose bounds overlap. */
  predicate Overlapping(sa: Side, sb: Side, v: Visit)
  {
    ((v.first.InA? && v.second.InB?) || (v.first.InB? && v.second.InA?))
    && (v.first.InA? ==> 0 <= v.first.a < |sa.boxes|) && (v.first.InB? ==> 0 <= v.first.b < |sb.boxes|)
    && (v.second.InA? ==> 0 <= v.second.a < |sa.boxes|) && (v.second.InB? ==> 0 <= v.second.b < |sb.boxes|)
    && Collision(BoxOf(sa, sb, v.first), BoxOf(sa, sb, v.second))
  }

  /** A visit names shape `x` of A and shape `y` of B, in either order. */
  predicate Names(v: Visit, x: int, y: int)
  {
    v == Visit(InA(x), InB(y)) || v == Visit(InB(y), InA(x))
  }

  /** Every node under `j` reached from a node under `i` is under `i`, and keeps the bounds property. */
  lemma FreshBelow(s: Side, i: int, j: int)
    requires Rooted(s, i) && FreshUnder(s, i) && j in Reach(s.nodes, i)
    ensures Rooted(s, j) && FreshUnder(s, j)
  {
    ReachClosed(s.nodes, i, j, |s.boxes|);
  }

  /** The children of an internal node with fresh bounds are rooted and fresh. */
  lemma FreshChildren(s: Side, i: int)
    requires Rooted(s, i) && FreshUnder(s, i) && s.nodes[i].shape == NoShape
    ensures Rooted(s, s.nodes[i].indexA) && FreshUnder(s, s.nodes[i].indexA)
    ensures Rooted(s, s.nodes[i].indexB) && FreshUnder(s, s.nodes[i].indexB)
    ensures Leaves(s.nodes, i) == Leaves(s.nodes, s.nodes[i].indexA) + Leaves(s.nodes, s.nodes[i].indexB)
  {
    FreshBelow(s, i, s.nodes[i].indexA);
    FreshBelow(s, i, s.nodes[i].indexB);
  }

  /** With fresh bounds, a node's bounds contain the bounds of every shape under it. */
  lemma {:induction false} ContainsLeaves(s: Side, i: int, k: int)
    requires Rooted(s, i) && FreshUnder(s, i) && k in Leaves(s.nodes, i)
    ensures 0 <= k < |s.boxes| && Contains(s.nodes[i].bounds, s.boxes[k])
    decreases |s.nodes| - i
  {
    assert Refreshed(s.nodes, i, s.boxes);
    if s.nodes[i].shape == NoShape {
      FreshChildren(s, i);
      var ia, ib := s.nodes[i].indexA, s.nodes[i].indexB;
      if k in Leaves(s.nodes, ia) {
        ContainsLeaves(s, ia, k);
        ContainsTransitive(s.nodes[i].bounds, s.nodes[ia].bounds, s.boxes[k]);
      } else {
        ContainsLeaves(s, ib, k);
        ContainsTransitive(s.nodes[i].bounds, s.nodes[ib].bounds, s.boxes[k]);
      }
    }
  }

  lemma ContainsTransitive(a: Bounds, b: Bounds, c: Bounds)
    requires Contains(a, b) && Contains(b, c)
    ensures Contains(a, c)
  {
  }

  /**
   * Soundness of the shape walk: with fresh bounds every visit pairs the
   * walked shape with a shape under node `i` whose bounds overlap its own.
   */
  lemma {:induction false} ShapeWalkSound(r: ShapeRef, box: Bounds, s: Side, inA: bool, i: int)
    requires Rooted(s, i) && FreshUnder(s, i)
    ensures forall v | v in ShapeWalk(r, box, s, inA, i) ::
              v.first == r && exists k :: 0 <= k < |s.boxes| && k in Leaves(s.nodes, i) && v.second == Ref(inA, k) && Collision(box, s.boxes[k])
    decreases |s.nodes| - i
  {
    var n := s.nodes[i];
    assert Refreshed(s.nodes, i, s.boxes);
    if Collision(box, n.bounds) && n.shape == NoShape {
      FreshChildren(s, i);
      ShapeWalkSound(r, box, s, inA, n.indexA);
      ShapeWalkSound(r, box, s, inA, n.indexB);
    }
  }

  /**
   * Completeness of the shape walk: with fresh bounds every shape under
   * node `i` whose bounds overlap the walked shape's is visited.
   */
  lemma {:induction false} ShapeWalkComplete(r: ShapeRef, box: Bounds, s: Side, inA: bool, i: int, k: int)
    requires Rooted(s, i) && FreshUnder(s, i) && k in Leaves(s.nodes, i)
    requires 0 <= k < |s.boxes| && Collision(box, s.boxes[k])
    ensures Visit(r, Ref(inA, k)) in ShapeWalk(r, box, s, inA, i)
    decreases |s.nodes| - i
  {
    var n := s.nodes[i];
    ContainsLeaves(s, i, k);
    CollisionMonotone(box, s.boxes[k], box, n.bounds);
    if n.shape == NoShape {
      FreshChildren(s, i);
      if k in Leaves(s.nodes, n.indexA) {
        ShapeWalkComplete(r, box, s, inA, n.indexA, k);
      } else {
        ShapeWalkComplete(r, box, s, inA, n.indexB, k);
      }
    }
  }

  lemma ContainsReflexive(b: Bounds)
    ensures Contains(b, b)
  {
  }

  /** Visit `v` pairs a shape under node `i` of A with a shape under node `j` of B whose bounds overlap. */
  ghost predicate SoundVisit(sa: Side, i: int, sb: Side, j: int, v: Visit)
    requires Rooted(sa, i) && Rooted(sb, j)
  {
    exists x, y :: 0 <= x < |sa.boxes| && 0 <= y < |sb.boxes| && x in Leaves(sa.nodes, i) && y in Leaves(sb.nodes, j)
                   && Names(v, x, y) && Collision(sa.boxes[x], sb.boxes[y])
  }

  /** Soundness of the walk of two trees, visit by visit. */
  ghost predicate AllSound(sa: Side, i: int, sb: Side, j: int, vs: seq<Visit>)
    requires Rooted(sa, i) && Rooted(sb, j)
  {
    forall v | v in vs :: SoundVisit(sa, i, sb, j, v)
  }

  /**
   * Soundness of the walk of two trees: with fresh bounds every visit
   * pairs a shape under `i` with a shape under `j` whose bounds overlap.
   */
  lemma {:induction false} NodeWalkSound(sa: Side, i: int, sb: Side, j: int)
    requires Rooted(sa, i) && FreshUnder(sa, i) && Rooted(sb, j) && FreshUnder(sb, j)
    ensures AllSound(sa, i, sb, j, NodeWalk(sa, i, sb, j))
    decreases |sa.nodes| - i + |sb.nodes| - j
  {
    var na, nb := sa.nodes[i], sb.nodes[j];
    if !Collision(na.bounds, nb.bounds) {
    } else if na.shape != NoShape && nb.shape != NoShape {
      LeafLeafSound(sa, i, sb, j);
    } else if na.shape != NoShape {
      LeafNodeSound(sa, i, sb, j);
    } else if nb.shape != NoShape {
      NodeLeafSound(sa, i, sb, j);
    } else {
      FreshChildren(sa, i);
      FreshChildren(sb, j);
      NodeWalkSound(sa, na.indexA, sb, nb.indexA);
      NodeWalkSound(sa, na.indexA, sb, nb.indexB);
      NodeWalkSound(sa, na.indexB, sb, nb.indexA);
      NodeWalkSound(sa, na.indexB, sb, nb.indexB);
      SoundWithin(sa, i, na.indexA, sb, j, nb.indexA, NodeWalk(sa, na.indexA, sb, nb.indexA));
      SoundWithin(sa, i, na.indexA, sb, j, nb.indexB, NodeWalk(sa, na.indexA, sb, nb.indexB));
      SoundWithin(sa, i, na.indexB, sb, j, nb.indexA, NodeWalk(sa, na.indexB, sb, nb.indexA));
      SoundWithin(sa, i, na.indexB, sb, j, nb.indexB, NodeWalk(sa, na.indexB, sb, nb.indexB));
    }
  }

  /** Visits sound for two children are sound for their parents. */
  lemma SoundWithin(sa: Side, i: int, ci: int, sb: Side, j: int, cj: int, vs: seq<Visit>)
    requires Rooted(sa, i) && Rooted(sb, j) && sa.nodes[i].shape == NoShape && sb.nodes[j].shape == NoShape
    requires ci in {sa.nodes[i].indexA, sa.nodes[i].indexB} && cj in {sb.nodes[j].indexA, sb.nodes[j].indexB}
    requires Rooted(sa, ci) && Rooted(sb, cj) && AllSound(sa, ci, sb, cj, vs)
    ensures AllSound(sa, i, sb, j, vs)
  {
    forall v | v in vs
      ensures SoundVisit(sa, i, sb, j, v)
    {
      var x, y :| 0 <= x < |sa.boxes| && 0 <= y < |sb.boxes| && x in Leaves(sa.nodes, ci) && y in Leaves(sb.nodes, cj)
                  && Names(v, x, y) && Collision(sa.boxes[x], sb.boxes[y]);
      assert x in Leaves(sa.nodes, i) && y in Leaves(sb.nodes, j);
    }
  }

  lemma LeafLeafSound(sa: Side, i: int, sb: Side, j: int)
    requires Rooted(sa, i) && FreshUnder(sa, i) && Rooted(sb, j) && FreshUnder(sb, j)
    requires sa.nodes[i].shape != NoShape && sb.nodes[j].shape != NoShape
    ensures AllSound(sa, i, sb, j, NodeWalk(sa, i, sb, j))
  {
    assert Refreshed(sa.nodes, i, sa.boxes) && Refreshed(sb.nodes, j, sb.boxes);
    var x, y := sa.nodes[i].shape, sb.nodes[j].shape;
    assert x in Leaves(sa.nodes, i) && y in Leaves(sb.nodes, j);
    assert Names(Visit(InA(x), InB(y)), x, y);
  }

  lemma LeafNodeSound(sa: Side, i: int, sb: Side, j: int)
    requires Rooted(sa, i) && FreshUnder(sa, i) && Rooted(sb, j) && FreshUnder(sb, j)
    requires sa.nodes[i].shape != NoShape && sb.nodes[j].shape == NoShape
    ensures AllSound(sa, i, sb, j, NodeWalk(sa, i, sb, j))
  {
    var na, nb := sa.nodes[i], sb.nodes[j];
    var x := na.shape;
    var box := sa.boxes[x];
    assert x in Leaves(sa.nodes, i);
    FreshChildren(sb, j);
    ShapeWalkSound(InA(x), box, sb, false, nb.indexA);
    ShapeWalkSound(InA(x), box, sb, false, nb.indexB);
    forall v | v in NodeWalk(sa, i, sb, j)
      ensures SoundVisit(sa, i, sb, j, v)
    {
      var y :| 0 <= y < |sb.boxes| && (y in Leaves(sb.nodes, nb.indexA) || y in Leaves(sb.nodes, nb.indexB))
               && v.second == InB(y) && Collision(box, sb.boxes[y]);
      assert Names(v, x, y);
    }
  }

  lemma NodeLeafSound(sa: Side, i: int, sb: Side, j: int)
    requires Rooted(sa, i) && FreshUnder(sa, i) && Rooted(sb, j) && FreshUnder(sb, j)
    requires sa.nodes[i].shape == NoShape && sb.nodes[j].shape != NoShape
    ensures AllSound(sa, i, sb, j, NodeWalk(sa, i, sb, j))
  {
    var na, nb := sa.nodes[i], sb.nodes[j];
    var y := nb.shape;
    var box := sb.boxes[y];
    assert y in Leaves(sb.nodes, j);
    FreshChildren(sa, i);
    ShapeWalkSound(InB(y), box, sa, true, na.indexA);
    ShapeWalkSound(InB(y), box, sa, true, na.indexB);
    forall v | v in NodeWalk(sa, i, sb, j)
      ensures SoundVisit(sa, i, sb, j, v)
    {
      var x :| 0 <= x < |sa.boxes| && (x in Leaves(sa.nodes, na.indexA) || x in Leaves(sa.nodes, na.indexB))
               && v.second == InA(x) && Collision(box, sa.boxes[x]);
      CollisionSymmetric(box, sa.boxes[x]);
      assert Names(v, x, y);
    }
  }

  /**
   * Completeness of the walk of two trees: with fresh bounds every pair of
   * a shape under `i` and a shape under `j` whose bounds overlap is visited,
   * in one order or the other.
   */
  lemma {:induction false} NodeWalkComplete(sa: Side, i: int, sb: Side, j: int, x: int, y: int)
    requires Rooted(sa, i) && FreshUnder(sa, i) && Rooted(sb, j) && FreshUnder(sb, j)
    requires x in Leaves(sa.nodes, i) && y in Leaves(sb.nodes, j)
    requires 0 <= x < |sa.boxes| && 0 <= y < |sb.boxes| && Collision(sa.boxes[x], sb.boxes[y])
    ensures exists v :: v in NodeWalk(sa, i, sb, j) && Names(v, x, y)
    decreases |sa.nodes| - i + |sb.nodes| - j
  {
    var na, nb := sa.nodes[i], sb.nodes[j];
    ContainsLeaves(sa, i, x);
    ContainsLeaves(sb, j, y);
    CollisionMonotone(sa.boxes[x], sb.boxes[y], na.bounds, nb.bounds);
    if na.shape != NoShape && nb.shape != NoShape {
      assert Names(Visit(InA(na.shape), InB(nb.shape)), x, y);
    } else if na.shape != NoShape {
      FreshChildren(sb, j);
      if y in Leaves(sb.nodes, nb.indexA) {
        ShapeWalkComplete(InA(x), sa.boxes[x], sb, false, nb.indexA, y);
      } else {
        ShapeWalkComplete(InA(x), sa.boxes[x], sb, false, nb.indexB, y);
      }
      assert Names(Visit(InA(x), InB(y)), x, y);
    } else if nb.shape != NoShape {
      FreshChildren(sa, i);
      CollisionSymmetric(sa.boxes[x], sb.boxes[y]);
      if x in Leaves(sa.nodes, na.indexA) {
        ShapeWalkComplete(InB(y), sb.boxes[y], sa, true, na.indexA, x);
      } else {
        ShapeWalkComplete(InB(y), sb.boxes[y], sa, true, na.indexB, x);
      }
      assert Names(Visit(InB(y), InA(x)), x, y);
    } else {
      FreshChildren(sa, i);
      FreshChildren(sb, j);
      var ci := if x in Leaves(sa.nodes, na.indexA) then na.indexA else na.indexB;
      var cj := if y in Leaves(sb.nodes, nb.indexA) then nb.indexA else nb.indexB;
      NodeWalkComplete(sa, ci, sb, cj, x, y);
    }
  }
}
