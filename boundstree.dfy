/**
 * The per-body bounding-volume tree (Bodies/BoundsTrees.cpp).  The tree is a
 * vector of nodes; node 0 is the root, an internal node names its two
 * children by index and a leaf names its shape.  Shapes are identified by
 * their index in the body's shape list, so a node's `shape` is that index,
 * or NoShape (the null pointer) for an internal node.
 */
module BoundsTrees {
  import opened Settings
  import opened Vector3Math
  import opened BoundsBox

  /** The null shape pointer. */
  const NoShape: int := -1

  datatype Node = Node(shape: int, bounds: Bounds, indexA: int, indexB: int)

  /** A node as std::vector::resize value-initialises it. */
  const BlankNode: Node := Node(NoShape, Bounds(Zero, Zero), 0, 0)

  /**
   * Node `i` roots a full binary tree: it is a leaf holding a shape, or an
   * internal node with no shape whose two distinct children come later in
   * the vector and root trees themselves.
   */
  ghost predicate Subtree(nodes: seq<Node>, i: int)
    decreases |nodes| - i
  {
    0 <= i < |nodes| &&
    (nodes[i].shape >= 0 ||
     (nodes[i].shape == NoShape
      && i < nodes[i].indexA < |nodes| && i < nodes[i].indexB < |nodes|
      && nodes[i].indexA != nodes[i].indexB
      && Subtree(nodes, nodes[i].indexA) && Subtree(nodes, nodes[i].indexB)))
  }

  /** The shapes held by the leaves under node `i`, with multiplicity. */
  ghost function Leaves(nodes: seq<Node>, i: int): (r: multiset<int>)
    requires Subtree(nodes, i)
    ensures forall s | s in r :: s >= 0
    decreases |nodes| - i
  {
    if nodes[i].shape >= 0 then multiset{nodes[i].shape}
    else Leaves(nodes, nodes[i].indexA) + Leaves(nodes, nodes[i].indexB)
  }

  /** The indices of the nodes under node `i`, itself included. */
  ghost function Reach(nodes: seq<Node>, i: int): (r: set<int>)
    requires Subtree(nodes, i)
    ensures i in r
    ensures forall j | j in r :: i <= j < |nodes|
    decreases |nodes| - i
  {
    if nodes[i].shape >= 0 then {i}
    else {i} + Reach(nodes, nodes[i].indexA) + Reach(nodes, nodes[i].indexB)
  }

  /** Every leaf under node `i` names a shape of a list of `count` shapes. */
  ghost predicate LeavesIn(nodes: seq<Node>, i: int, count: int)
    requires Subtree(nodes, i)
    decreases |nodes| - i
  {
    if nodes[i].shape >= 0 then nodes[i].shape < count
    else LeavesIn(nodes, nodes[i].indexA, count) && LeavesIn(nodes, nodes[i].indexB, count)
  }

  /**
   * The bounds _computeBounds gives node `i`: a leaf takes its shape's
   * bounds, an internal node the merge of its children's.
   */
  ghost function SubtreeBounds(nodes: seq<Node>, i: int, shapeBounds: seq<Bounds>): (r: Bounds)
    requires Subtree(nodes, i) && LeavesIn(nodes, i, |shapeBounds|)
    ensures nodes[i].shape >= 0 ==> r == shapeBounds[nodes[i].shape]
    decreases |nodes| - i
  {
    if nodes[i].shape >= 0 then shapeBounds[nodes[i].shape]
    else
      Merge(SubtreeBounds(nodes, nodes[i].indexA, shapeBounds),
            SubtreeBounds(nodes, nodes[i].indexB, shapeBounds))
  }

  /** Two node vectors with the same links and shapes, bounds aside. */
  ghost predicate SameStructure(a: seq<Node>, b: seq<Node>)
  {
    |a| == |b| &&
    forall j :: 0 <= j < |a| ==>
      a[j].shape == b[j].shape && a[j].indexA == b[j].indexA && a[j].indexB == b[j].indexB
  }

  /** Rewriting bounds changes neither the tree nor the shapes it holds. */
  lemma {:induction false} StructureInvariance(a: seq<Node>, b: seq<Node>, i: int, count: int)
    requires SameStructure(a, b) && Subtree(a, i)
    ensures Subtree(b, i) && Reach(b, i) == Reach(a, i) && Leaves(b, i) == Leaves(a, i)
    ensures LeavesIn(b, i, count) == LeavesIn(a, i, count)
    decreases |a| - i
  {
    if a[i].shape < 0 {
      StructureInvariance(a, b, a[i].indexA, count);
      StructureInvariance(a, b, a[i].indexB, count);
    }
  }

  /** A subtree survives any change to a vector that only rewrites a node it does not reach, or appends. */
  lemma {:induction false} ReachFrameExcept(a: seq<Node>, b: seq<Node>, i: int, k: int, count: int)
    requires Subtree(a, i) && k !in Reach(a, i) && |a| <= |b|
    requires forall j :: 0 <= j < |a| && j != k ==> b[j] == a[j]
    ensures Subtree(b, i) && Reach(b, i) == Reach(a, i) && Leaves(b, i) == Leaves(a, i)
    ensures LeavesIn(b, i, count) == LeavesIn(a, i, count)
    decreases |a| - i
  {
    if a[i].shape < 0 {
      ReachFrameExcept(a, b, a[i].indexA, k, count);
      ReachFrameExcept(a, b, a[i].indexB, k, count);
    }
  }

  /** The nodes under a reached node are reached too, and hold shapes of the same list. */
  lemma {:induction false} ReachClosed(nodes: seq<Node>, i: int, j: int, count: int)
    requires Subtree(nodes, i) && j in Reach(nodes, i)
    ensures Subtree(nodes, j) && Reach(nodes, j) <= Reach(nodes, i)
    ensures LeavesIn(nodes, i, count) ==> LeavesIn(nodes, j, count)
    decreases |nodes| - i
  {
    if j != i {
      if j in Reach(nodes, nodes[i].indexA) {
        ReachClosed(nodes, nodes[i].indexA, j, count);
      } else {
        ReachClosed(nodes, nodes[i].indexB, j, count);
      }
    }
  }

  /** An internal node over two subtrees is a subtree holding both. */
  lemma JoinChildren(nodes: seq<Node>, i: int, count: int)
    requires 0 <= i < |nodes| && nodes[i].shape == NoShape
    requires i < nodes[i].indexA < |nodes| && i < nodes[i].indexB < |nodes| && nodes[i].indexA != nodes[i].indexB
    requires Subtree(nodes, nodes[i].indexA) && Subtree(nodes, nodes[i].indexB)
    ensures Subtree(nodes, i)
    ensures Reach(nodes, i) == {i} + Reach(nodes, nodes[i].indexA) + Reach(nodes, nodes[i].indexB)
    ensures Leaves(nodes, i) == Leaves(nodes, nodes[i].indexA) + Leaves(nodes, nodes[i].indexB)
    ensures LeavesIn(nodes, i, count) <==> LeavesIn(nodes, nodes[i].indexA, count) && LeavesIn(nodes, nodes[i].indexB, count)
  {
  }

  /** The nodes reached from `root` are `root` itself and the run [lo, hi). */
  ghost predicate Spans(nodes: seq<Node>, root: int, lo: int, hi: int)
  {
    Subtree(nodes, root) && forall j :: j in Reach(nodes, root) <==> j == root || lo <= j < hi
  }

  /**
   * An internal node `i` whose children `ia` and `ia + 1` root subtrees
   * reaching themselves and the consecutive runs [ia + 2, n1) and [n1, n2)
   * roots a subtree reaching `i` and all of [ia, n2).
   */
  lemma JoinRuns(nodes: seq<Node>, i: int, ia: int, n1: int, n2: int, count: int)
    requires 0 <= i < ia && ia + 2 <= n1 <= n2 <= |nodes|
    requires nodes[i].shape == NoShape && nodes[i].indexA == ia && nodes[i].indexB == ia + 1
    requires Subtree(nodes, ia) && Subtree(nodes, ia + 1)
    requires forall j :: j in Reach(nodes, ia) <==> j == ia || ia + 2 <= j < n1
    requires Spans(nodes, ia + 1, n1, n2)
    ensures Subtree(nodes, i)
    ensures Leaves(nodes, i) == Leaves(nodes, ia) + Leaves(nodes, ia + 1)
    ensures LeavesIn(nodes, i, count) <==> LeavesIn(nodes, ia, count) && LeavesIn(nodes, ia + 1, count)
    ensures forall j :: j in Reach(nodes, i) <==> j == i || ia <= j < n2
  {
    JoinChildren(nodes, i, count);
  }

  /** Every entry of `shapes` indexes a list of `n` shapes. */
  predicate InRange(shapes: seq<int>, n: int)
  {
    forall k :: 0 <= k < |shapes| ==> 0 <= shapes[k] < n
  }

  /** Splitting an in-range list keeps both parts in range and the total length. */
  lemma SplitInRange(a: seq<int>, b: seq<int>, shapes: seq<int>, n: int)
    requires multiset(a) + multiset(b) == multiset(shapes) && InRange(shapes, n)
    ensures InRange(a, n) && InRange(b, n) && |a| + |b| == |shapes|
  {
    assert |multiset(a) + multiset(b)| == |multiset(shapes)|;
    forall x | x in multiset(a) + multiset(b)
      ensures 0 <= x < n
    {
      var k :| 0 <= k < |shapes| && shapes[k] == x;
    }
    assert forall k :: 0 <= k < |a| ==> a[k] in multiset(a) + multiset(b);
    assert forall k :: 0 <= k < |b| ==> b[k] in multiset(a) + multiset(b);
  }

  /** The bounds of all `boxes` named by `shapes`, merged in order into an initialised box. */
  function MergeAll(shapes: seq<int>, boxes: seq<Bounds>): (r: Bounds)
    requires InRange(shapes, |boxes|)
    ensures forall k :: 0 <= k < |shapes| ==> Contains(r, boxes[shapes[k]])
  {
    if |shapes| == 0 then Init()
    else Merge(MergeAll(shapes[..|shapes| - 1], boxes), boxes[shapes[|shapes| - 1]])
  }

  /** The sum of the centres of all `boxes` named by `shapes`. */
  function SumCenters(shapes: seq<int>, boxes: seq<Bounds>): Vector3
    requires InRange(shapes, |boxes|)
  {
    if |shapes| == 0 then Zero
    else Add(SumCenters(shapes[..|shapes| - 1], boxes), Center(boxes[shapes[|shapes| - 1]]))
  }

  /** The centre of `b` on `axis`. */
  function CenterOn(b: Bounds, axis: nat): real
    requires axis < 3
  {
    At(Center(b), axis)
  }

  /**
   * The first loop of _computeNode (BoundsTrees.cpp:64-73): the bounds
   * enclosing all the shapes and the sum of their centres.
   */
  method Summarize(shapes: seq<int>, boxes: seq<Bounds>) returns (box: Bounds, center: Vector3)
    requires InRange(shapes, |boxes|)
    ensures box == MergeAll(shapes, boxes) && center == SumCenters(shapes, boxes)
  {
    box, center := Init(), Zero;
    var k := 0;
    while k < |shapes|
      invariant 0 <= k <= |shapes|
      invariant box == MergeAll(shapes[..k], boxes)
      invariant center == SumCenters(shapes[..k], boxes)
    {
      assert shapes[..k + 1][..k] == shapes[..k];
      box := Merge(box, boxes[shapes[k]]);
      center := Add(center, Center(boxes[shapes[k]]));
      k := k + 1;
    }
    assert shapes[..k] == shapes;
  }

  /**
   * The split axis of _computeNode (BoundsTrees.cpp:74-77): x if d.x > d.y,
   * else y, then z if d.z exceeds that; it is a longest axis of `d`.
   */
  function LongestAxis(d: Vector3): (r: nat)
    ensures r < 3
    ensures At(d, r) >= d.x && At(d, r) >= d.y && At(d, r) >= d.z
  {
    var first := if d.x > d.y then 0 else 1;
    if d.z > At(d, first) then 2 else first
  }

  /** Shape `x` indexes `boxes` and its centre on `axis` lies below `pivot` exactly when `below`. */
  predicate OnSide(boxes: seq<Bounds>, axis: nat, pivot: real, x: int, below: bool)
  {
    0 <= x < |boxes| && axis < 3 && (CenterOn(boxes[x], axis) < pivot <==> below)
  }

  /**
   * The partition loop of _computeNode (BoundsTrees.cpp:78-86): shapes whose
   * centre on `axis` lies below `pivot` go to A, the others to B.
   */
  method Partition(shapes: seq<int>, boxes: seq<Bounds>, axis: nat, pivot: real)
    returns (a: seq<int>, b: seq<int>)
    requires InRange(shapes, |boxes|) && axis < 3
    ensures multiset(a) + multiset(b) == multiset(shapes)
    ensures forall k :: 0 <= k < |a| ==> OnSide(boxes, axis, pivot, a[k], true)
    ensures forall k :: 0 <= k < |b| ==> OnSide(boxes, axis, pivot, b[k], false)
  {
    a, b := [], [];
    var i := 0;
    while i < |shapes|
      invariant 0 <= i <= |shapes|
      invariant multiset(a) + multiset(b) == multiset(shapes[..i])
      invariant forall k :: 0 <= k < |a| ==> OnSide(boxes, axis, pivot, a[k], true)
      invariant forall k :: 0 <= k < |b| ==> OnSide(boxes, axis, pivot, b[k], false)
    {
      var x := shapes[i];
      assert multiset(shapes[..i + 1]) == multiset(shapes[..i]) + multiset{x} by {
        assert shapes[..i + 1] == shapes[..i] + [x];
      }
      if CenterOn(boxes[x], axis) < pivot {
        a := a + [x];
      } else {
        b := b + [x];
      }
      i := i + 1;
    }
    assert shapes[..i] == shapes;
  }

  /**
   * The fix-up of BoundsTrees.cpp:92-98: when one side is empty, the last
   * shape of the other side moves across, so neither child is empty.
   */
  function Rebalance(a: seq<int>, b: seq<int>): (r: (seq<int>, seq<int>))
    requires |a| + |b| >= 2
    ensures |r.0| >= 1 && |r.1| >= 1
    ensures multiset(r.0) + multiset(r.1) == multiset(a) + multiset(b)
    ensures |a| >= 1 && |b| >= 1 ==> r == (a, b)
  {
    if |a| == 0 then
      assert b == b[..|b| - 1] + [b[|b| - 1]];
      ([b[|b| - 1]], b[..|b| - 1])
    else if |b| == 0 then
      assert a == a[..|a| - 1] + [a[|a| - 1]];
      (a[..|a| - 1], [a[|a| - 1]])
    else (a, b)
  }

  class BoundsTree {
    var nodes: seq<Node>

    /** The tree is empty or node 0 roots it. */
    ghost predicate Valid()
      reads this`nodes
    {
      |nodes| == 0 || Subtree(nodes, 0)
    }

    constructor ()
      ensures Valid() && nodes == []
    {
      nodes := [];
    }

    /** isEmpty (BoundsTrees.cpp:6-9). */
    function IsEmpty(): (r: bool)
      reads this
      ensures r <==> nodes == []
    {
      |nodes| == 0
    }

    /**
     * compute (BoundsTrees.cpp:36-42).  An empty shape list leaves the tree
     * as it was; otherwise node 0 is kept (or created) and rebuilt, and the
     * tree ends with 2K-1 nodes, every one of them reached from the root,
     * whose leaves hold each shape exactly once.
     */
    method Compute(shapes: seq<int>, boxes: seq<Bounds>)
      requires InRange(shapes, |boxes|)
      modifies this`nodes
      ensures |shapes| == 0 ==> nodes == old(nodes)
      ensures |shapes| > 0 ==> |nodes| == 2 * |shapes| - 1
      ensures |shapes| > 0 ==> Subtree(nodes, 0) && Leaves(nodes, 0) == multiset(shapes)
      ensures |shapes| > 0 ==> LeavesIn(nodes, 0, |boxes|)
      ensures |shapes| > 0 ==> forall j :: j in Reach(nodes, 0) <==> 0 <= j < |nodes|
      ensures old(Valid()) ==> Valid()
    {
      if |shapes| == 0 {
        return;
      }
      nodes := if |nodes| == 0 then [BlankNode] else nodes[..1];
      ComputeNode(0, shapes, boxes);
    }

    /**
     * _computeNode (BoundsTrees.cpp:51-101).  One shape makes node `i` a leaf
     * with that shape's local bounds.  Several shapes make it an internal node
     * bounding all of them, with two fresh children at the end of the vector
     * that receive the partition of the shapes about the summed centres on
     * the longest axis, rebalanced so neither is empty.  Only node `i` and the
     * appended nodes change; the subtree reaches exactly those and holds each
     * shape exactly once.
     */
    method ComputeNode(i: int, shapes: seq<int>, boxes: seq<Bounds>)
      requires 0 <= i < |nodes| && |shapes| >= 1 && InRange(shapes, |boxes|)
      modifies this`nodes
      ensures |nodes| == old(|nodes|) + 2 * (|shapes| - 1)
      ensures forall j :: 0 <= j < old(|nodes|) && j != i ==> nodes[j] == old(nodes[j])
      ensures Subtree(nodes, i) && Leaves(nodes, i) == multiset(shapes)
      ensures LeavesIn(nodes, i, |boxes|)
      ensures forall j :: j in Reach(nodes, i) <==> j == i || old(|nodes|) <= j < |nodes|
      ensures |shapes| == 1 ==> nodes[i].bounds == boxes[shapes[0]]
      ensures |shapes| > 1 ==> nodes[i].bounds == MergeAll(shapes, boxes)
      decreases |shapes|
    {
      if |shapes| == 1 {
        nodes := nodes[i := nodes[i].(shape := shapes[0], bounds := boxes[shapes[0]])];
        return;
      }
      var box, center := Summarize(shapes, boxes);
      var axis := LongestAxis(Sub(box.max, box.min));
      var a0, b0 := Partition(shapes, boxes, axis, At(center, axis));
      SplitInRange(a0, b0, shapes, |boxes|);
      var len := |nodes|;
      var ia, ib := len, len + 1;
      nodes := nodes + [BlankNode, BlankNode];
      nodes := nodes[i := Node(NoShape, box, ia, ib)];
      var sides := Rebalance(a0, b0);
      var a, b := sides.0, sides.1;
      SplitInRange(a, b, shapes, |boxes|);
      ComputeChildren(i, a, b, boxes);
    }

    /**
     * The two recursive calls closing _computeNode (BoundsTrees.cpp:99-100),
     * on the children just appended for the internal node `i`.
     */
    method ComputeChildren(i: int, a: seq<int>, b: seq<int>, boxes: seq<Bounds>)
      requires 0 <= i < |nodes| - 2 && |a| >= 1 && |b| >= 1
      requires InRange(a, |boxes|) && InRange(b, |boxes|)
      requires nodes[i].shape == NoShape
      requires nodes[i].indexA == |nodes| - 2 && nodes[i].indexB == |nodes| - 1
      modifies this`nodes
      ensures |nodes| == old(|nodes|) + 2 * (|a| + |b| - 2)
      ensures forall j :: 0 <= j < old(|nodes|) - 2 ==> nodes[j] == old(nodes[j])
      ensures Subtree(nodes, i) && Leaves(nodes, i) == multiset(a) + multiset(b)
      ensures LeavesIn(nodes, i, |boxes|)
      ensures forall j :: j in Reach(nodes, i) <==> j == i || old(|nodes|) - 2 <= j < |nodes|
      decreases |a| + |b|, 1
    {
      var n0 := |nodes|;
      ComputeNode(n0 - 2, a, boxes);
      ComputeSecond(i, a, b, boxes, n0);
    }

    /**
     * The second recursive call of _computeNode (BoundsTrees.cpp:100), once
     * the first child (at n0 - 2) holds `a`: the second child (at n0 - 1)
     * receives `b`, and node `i` then holds both.
     */
    method ComputeSecond(i: int, a: seq<int>, b: seq<int>, boxes: seq<Bounds>, n0: int)
      requires 0 <= i < n0 - 2 && n0 <= |nodes| && |a| >= 1 && |b| >= 1 && InRange(b, |boxes|)
      requires nodes[i].shape == NoShape && nodes[i].indexA == n0 - 2 && nodes[i].indexB == n0 - 1
      requires Subtree(nodes, n0 - 2) && Leaves(nodes, n0 - 2) == multiset(a)
      requires LeavesIn(nodes, n0 - 2, |boxes|)
      requires Spans(nodes, n0 - 2, n0, |nodes|)
      modifies this`nodes
      ensures |nodes| == old(|nodes|) + 2 * (|b| - 1)
      ensures forall j :: 0 <= j < old(|nodes|) && j != n0 - 1 ==> nodes[j] == old(nodes[j])
      ensures Subtree(nodes, i) && Leaves(nodes, i) == multiset(a) + multiset(b)
      ensures LeavesIn(nodes, i, |boxes|)
      ensures forall j :: j in Reach(nodes, i) <==> j == i || n0 - 2 <= j < |nodes|
      decreases |a| + |b|, 0
    {
      ghost var before := nodes;
      ComputeNode(n0 - 1, b, boxes);
      ReachFrameExcept(before, nodes, n0 - 2, n0 - 1, |boxes|);
      JoinRuns(nodes, i, n0 - 2, |before|, |nodes|, |boxes|);
    }

    /**
     * update (BoundsTrees.cpp:44-49): nothing on an empty tree; otherwise
     * every node takes the bounds _computeBounds gives it, so each reached
     * leaf holds its shape's current bounds and each reached internal node
     * the merge of its children's, with the links untouched.
     */
    method Update(shapeBounds: seq<Bounds>)
      requires Valid()
      requires |nodes| > 0 ==> LeavesIn(nodes, 0, |shapeBounds|)
      modifies this`nodes
      ensures Valid()
      ensures |nodes| == 0 ==> nodes == old(nodes)
      ensures SameStructure(old(nodes), nodes)
      ensures |nodes| > 0 ==> forall j | j in Reach(nodes, 0) :: Refreshed(nodes, j, shapeBounds)
    {
      if |nodes| == 0 {
        return;
      }
      ghost var t := nodes;
      var r := ComputeBounds(0, shapeBounds, t);
      StructureInvariance(t, nodes, 0, |shapeBounds|);
      forall j | j in Reach(t, 0)
        ensures Refreshed(nodes, j, shapeBounds)
      {
        ReachClosed(t, 0, j, |shapeBounds|);
        if t[j].shape < 0 {
          ReachClosed(t, j, t[j].indexA, |shapeBounds|);
          ReachClosed(t, j, t[j].indexB, |shapeBounds|);
        }
      }
    }

    /**
     * _computeBounds (BoundsTrees.cpp:103-112) on the tree whose links are
     * those of `t`: it rewrites the bounds of every node under `i` to
     * SubtreeBounds and returns those of node `i`; other nodes keep their
     * values and no link changes.
     */
    method ComputeBounds(i: int, shapeBounds: seq<Bounds>, ghost t: seq<Node>) returns (r: Bounds)
      requires SameStructure(t, nodes) && Subtree(t, i) && LeavesIn(t, i, |shapeBounds|)
      modifies this`nodes
      ensures SameStructure(t, nodes)
      ensures r == nodes[i].bounds == SubtreeBounds(t, i, shapeBounds)
      ensures forall j | j in Reach(t, i) ::
        Subtree(t, j) && LeavesIn(t, j, |shapeBounds|) && nodes[j].bounds == SubtreeBounds(t, j, shapeBounds)
      ensures forall j | 0 <= j < |nodes| && j !in Reach(t, i) :: nodes[j] == old(nodes[j])
      decreases |t| - i
    {
      if nodes[i].shape != NoShape {
        r := shapeBounds[nodes[i].shape];
        nodes := nodes[i := nodes[i].(bounds := r)];
        return;
      }
      var ia, ib := nodes[i].indexA, nodes[i].indexB;
      var ra := ComputeBounds(ia, shapeBounds, t);
      ghost var n1 := nodes;
      var rb := ComputeBounds(ib, shapeBounds, t);
      r := Merge(ra, rb);
      nodes := nodes[i := nodes[i].(bounds := r)];
      forall j | j in Reach(t, i)
        ensures Subtree(t, j) && LeavesIn(t, j, |shapeBounds|) && nodes[j].bounds == SubtreeBounds(t, j, shapeBounds)
      {
        ReachClosed(t, i, j, |shapeBounds|);
        if j != i && j !in Reach(t, ib) {
          assert j in Reach(t, ia);
          assert nodes[j] == n1[j];
        }
      }
    }
  }

  /**
   * The local property update leaves behind at node `j`: a leaf holds its
   * shape's bounds, an internal node the merge of its two children's.
   */
  ghost predicate Refreshed(nodes: seq<Node>, j: int, shapeBounds: seq<Bounds>)
  {
    0 <= j < |nodes| &&
    if nodes[j].shape >= 0 then
      nodes[j].shape < |shapeBounds| && nodes[j].bounds == shapeBounds[nodes[j].shape]
    else
      0 <= nodes[j].indexA < |nodes| && 0 <= nodes[j].indexB < |nodes|
      && nodes[j].bounds == Merge(nodes[nodes[j].indexA].bounds, nodes[nodes[j].indexB].bounds)
  }
}
