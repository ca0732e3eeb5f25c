/**
 * The faces of the two convex-hull builders, EPA (EPA.h:20-28) and
 * QuickHull (QuickHull.h:19-26), and the links between neighbouring faces
 * that both keep the same way: slot k of a face names the face across its
 * edge from corner k to corner k + 1.
 */
module Faces {
  import opened Vector3Math

  /**
   * EPA::Triangle, with its unit normal and plane distance, and
   * QuickHull::TempTriangle, with an unnormalised direction.
   */
  datatype Face =
    | EpaTriangle(vertex: seq<int>, valid: bool, iteration: int, joined: seq<int>, dir: Vector3, dis: real)
    | TempTriangle(vertex: seq<int>, dir: Vector3, joined: seq<int>, iteration: int, valid: bool)

  predicate Shaped(t: Face)
  {
    |t.vertex| == 3 && |t.joined| == 3
  }

  /**
   * _getIndexJoinedTriangle (EPA.cpp:168-177) and
   * _getIndexJoinedTempTriangle (QuickHull.cpp:79-88): the first of the
   * three links that is face `tr`, or -1.
   */
  function SlotOf(joined: seq<int>, tr: int): (r: int)
    requires |joined| == 3
    ensures -1 <= r < 3
    ensures r >= 0 ==> joined[r] == tr && forall k :: 0 <= k < r ==> joined[k] != tr
    ensures r == -1 <==> tr !in joined
  {
    if tr == joined[0] then 0
    else if tr == joined[1] then 1
    else if tr == joined[2] then 2
    else -1
  }


  /** Edge k of a face: from corner k to corner k + 1. */
  function EdgeStart(vertex: seq<int>, k: int): int
    requires |vertex| == 3 && 0 <= k < 3
  {
    vertex[k]
  }

  function EdgeEnd(vertex: seq<int>, k: int): int
    requires |vertex| == 3 && 0 <= k < 3
  {
    vertex[(k + 1) % 3]
  }

  /**
   * The corners of the first four faces, as places in the four starting
   * points, of EPA::compute (EPA.cpp:23-31 and 38-66) and
   * QuickHull::_formedBasedTetras (QuickHull.cpp:317-357); `flipped` is
   * the branch where the fourth point lies on the side of cross(vec1, vec2)
   * (EPA.cpp:47, QuickHull.cpp:321).
   */
  function TetraFaces(flipped: bool): seq<seq<int>>
  {
    if flipped then [[0, 2, 1], [0, 1, 3], [0, 3, 2], [1, 2, 3]]
    else [[0, 1, 2], [0, 3, 1], [0, 2, 3], [1, 3, 2]]
  }

  /** The links both write for those faces. */
  function TetraJoins(flipped: bool): seq<seq<int>>
  {
    if flipped then [[2, 3, 1], [0, 3, 2], [1, 3, 0], [0, 2, 1]]
    else [[1, 3, 2], [2, 3, 0], [0, 3, 1], [1, 2, 0]]
  }

  /**
   * The links of a closed surface of faces: the face across edge k of
   * face f is another face that links back to f, across the same edge
   * run the other way.
   */
  predicate Closed(faces: seq<seq<int>>, joins: seq<seq<int>>)
  {
    |faces| == |joins|
    && (forall f :: 0 <= f < |faces| ==> |faces[f]| == 3 && |joins[f]| == 3)
    && forall f, k :: 0 <= f < |faces| && 0 <= k < 3 ==>
         var g := joins[f][k];
         0 <= g < |faces| && g != f
         && var m := SlotOf(joins[g], f);
         0 <= m && EdgeStart(faces[g], m) == EdgeEnd(faces[f], k) && EdgeEnd(faces[g], m) == EdgeStart(faces[f], k)
  }

  /** Link k of face f of the tetrahedron. */
  lemma TetraLink(flipped: bool, f: int, k: int)
    requires 0 <= f < 4 && 0 <= k < 3
    ensures var faces, joins := TetraFaces(flipped), TetraJoins(flipped);
            var g := joins[f][k];
            0 <= g < 4 && g != f
            && var m := SlotOf(joins[g], f);
            0 <= m && EdgeStart(faces[g], m) == EdgeEnd(faces[f], k) && EdgeEnd(faces[g], m) == EdgeStart(faces[f], k)
  {
  }

  /** Both starting tetrahedra are closed surfaces. */
  lemma TetraClosed(flipped: bool)
    ensures Closed(TetraFaces(flipped), TetraJoins(flipped))
  {
    forall f, k | 0 <= f < 4 && 0 <= k < 3 {
      TetraLink(flipped, f, k);
    }
  }

  /**
   * What the pairing loop of _addVertexToConvex (EPA.cpp:215-230,
   * QuickHull.cpp:407-422) may write: slot 2 of a new face links a later or earlier new face that has
   * its corner 0 among its first two corners, slot 1 one that has its
   * corner 1 there.
   */
  predicate SharesCorner(ts: seq<Face>, first: int, i: int, k: int)
    requires 0 <= first && 0 <= i < |ts| && 1 <= k <= 2 && Shaped(ts[i])
  {
    var j := ts[i].joined[k];
    first <= j < |ts| && j != i && Shaped(ts[j]) && (ts[i].vertex[2 - k] == ts[j].vertex[0] || ts[i].vertex[2 - k] == ts[j].vertex[1])
  }

  /** A face whose slots 1 and 2 both hold a link. */
  predicate Linked(t: Face)
    requires Shaped(t)
  {
    t.joined[1] >= 0 && t.joined[2] >= 0
  }

  /** The faces agree except perhaps in the links of slots 1 and 2. */
  predicate SameButLinks(a: Face, b: Face)
  {
    Shaped(a) && Shaped(b) && a.joined[0] == b.joined[0] && a.(joined := b.joined) == b
  }

  /** The faces from `first` on keep their old links or gain links to new faces sharing a corner. */
  predicate Relinked(t0: seq<Face>, ts: seq<Face>, first: int)
    requires 0 <= first <= |t0| == |ts|
    requires forall x :: 0 <= x < |ts| ==> Shaped(ts[x]) && Shaped(t0[x])
  {
    (forall x :: 0 <= x < first ==> ts[x] == t0[x])
    && (forall x :: first <= x < |ts| ==> SameButLinks(ts[x], t0[x]))
    && (forall x, k :: first <= x < |ts| && 1 <= k <= 2 ==>
          ts[x].joined[k] == t0[x].joined[k] || SharesCorner(ts, first, x, k))
  }


  /**
   * One step of the pairing loop (EPA.cpp:217-229, QuickHull.cpp:409-421)
   * for new faces i < j: the first matching pair of corners links both
   * faces, slot 2 for corner 0 and slot 1 for corner 1.
   */
  function Paired(ts: seq<Face>, i: int, j: int): seq<Face>
    requires 0 <= i < j < |ts| && Shaped(ts[i]) && Shaped(ts[j])
  {
    var ti, tj := ts[i], ts[j];
    if ti.vertex[0] == tj.vertex[0] then ts[i := ti.(joined := ti.joined[2 := j])][j := tj.(joined := tj.joined[2 := i])]
    else if ti.vertex[0] == tj.vertex[1] then ts[i := ti.(joined := ti.joined[2 := j])][j := tj.(joined := tj.joined[1 := i])]
    else if ti.vertex[1] == tj.vertex[0] then ts[i := ti.(joined := ti.joined[1 := j])][j := tj.(joined := tj.joined[2 := i])]
    else if ti.vertex[1] == tj.vertex[1] then ts[i := ti.(joined := ti.joined[1 := j])][j := tj.(joined := tj.joined[1 := i])]
    else ts
  }

  /** One Pair step keeps the relinking invariant and leaves earlier faces alone. */
  lemma PairRelinks(t0: seq<Face>, before: seq<Face>, after: seq<Face>, first: int, i: int, j: int)
    requires 0 <= first <= i < j < |before| == |t0| == |after|
    requires forall x :: 0 <= x < |before| ==> Shaped(before[x]) && Shaped(t0[x])
    requires Relinked(t0, before, first)
    requires after == Paired(before, i, j)
    ensures forall x :: 0 <= x < |after| ==> Shaped(after[x])
    ensures Relinked(t0, after, first)
    ensures forall x :: 0 <= x < i ==> after[x] == before[x]
  {
    var ti, tj := before[i], before[j];
    if ti.vertex[0] == tj.vertex[0] {
      LinkBoth(t0, before, first, i, j, 2, 2);
    } else if ti.vertex[0] == tj.vertex[1] {
      LinkBoth(t0, before, first, i, j, 2, 1);
    } else if ti.vertex[1] == tj.vertex[0] {
      LinkBoth(t0, before, first, i, j, 1, 2);
    } else if ti.vertex[1] == tj.vertex[1] {
      LinkBoth(t0, before, first, i, j, 1, 1);
    }
  }

  /** Linking slot a of face i to j and slot b of face j to i, where the corners match, keeps the invariant. */
  lemma LinkBoth(t0: seq<Face>, before: seq<Face>, first: int, i: int, j: int, a: int, b: int)
    requires 0 <= first <= i < j < |before| == |t0|
    requires forall x :: 0 <= x < |before| ==> Shaped(before[x]) && Shaped(t0[x])
    requires Relinked(t0, before, first)
    requires 1 <= a <= 2 && 1 <= b <= 2
    requires before[i].vertex[2 - a] == before[j].vertex[0] || before[i].vertex[2 - a] == before[j].vertex[1]
    requires before[j].vertex[2 - b] == before[i].vertex[0] || before[j].vertex[2 - b] == before[i].vertex[1]
    ensures var ti, tj := before[i], before[j];
            var after := before[i := ti.(joined := ti.joined[a := j])][j := tj.(joined := tj.joined[b := i])];
            (forall x :: 0 <= x < |after| ==> Shaped(after[x])) && Relinked(t0, after, first)
  {
    var ti, tj := before[i], before[j];
    var after := before[i := ti.(joined := ti.joined[a := j])][j := tj.(joined := tj.joined[b := i])];
    forall x | 0 <= x < |after|
      ensures Shaped(after[x]) && after[x].vertex == before[x].vertex
      ensures first <= x ==> SameButLinks(after[x], t0[x])
    {
      if first <= x {
        SameButLinksChain(after[x], before[x], t0[x]);
      }
    }
    forall x, k | first <= x < |after| && 1 <= k <= 2
      ensures after[x].joined[k] == t0[x].joined[k] || SharesCorner(after, first, x, k)
    {
      if x == i && k == a {
        assert SharesCorner(after, first, x, k);
      } else if x == j && k == b {
        assert SharesCorner(after, first, x, k);
      } else if after[x].joined[k] != t0[x].joined[k] {
        assert after[x].joined[k] == before[x].joined[k];
        assert SharesCorner(before, first, x, k);
      }
    }
  }

  lemma SameButLinksChain(a: Face, b: Face, c: Face)
    requires Shaped(a) && Shaped(b) && a.joined[0] == b.joined[0] && a.(joined := b.joined) == b
    requires SameButLinks(b, c)
    ensures SameButLinks(a, c)
  {
  }
}
