/**
 * The discrete parts of the convex-hull builder (QuickHull.h,
 * QuickHull.cpp): the centre of the input points, the extreme-point scans,
 * the starting tetrahedron with its face links and outward directions, the
 * flat (three-point) hull, the pairing of new faces and the final
 * compaction of the used vertices.  The builder's face store is a sequence
 * of Faces.Face records the methods reassign; the hull it fills is a
 * Bodies.Shape.
 */
module QuickHulls {
  import opened Settings
  import opened Vector3Math
  import opened Bodies
  import opened Faces

  const AxisX := Vector3(1.0, 0.0, 0.0)
  const AxisY := Vector3(0.0, 1.0, 0.0)

  // ---------------------------------------------------------------------
  // Sums, centres and extreme points
  // ---------------------------------------------------------------------

  /** The points added up in order, as the centre loop of qHull does. */
  function Sum(vs: seq<Vector3>): Vector3
  {
    if vs == [] then Zero else Add(Sum(vs[..|vs| - 1]), vs[|vs| - 1])
  }

  /** Every point moved by t. */
  function Shifted(vs: seq<Vector3>, t: Vector3): (r: seq<Vector3>)
    ensures |r| == |vs| && forall i :: 0 <= i < |vs| ==> r[i] == Add(vs[i], t)
  {
    seq(|vs|, i requires 0 <= i < |vs| => Add(vs[i], t))
  }

  /** Moving every point by t moves the sum by |vs| times t. */
  lemma {:induction false} SumShifted(vs: seq<Vector3>, t: Vector3)
    ensures Sum(Shifted(vs, t)) == Add(Sum(vs), Scale(t, |vs| as real))
  {
    if vs != [] {
      var n := |vs|;
      assert Shifted(vs, t)[..n - 1] == Shifted(vs[..n - 1], t);
      SumShifted(vs[..n - 1], t);
      ScaleStep(t, (n - 1) as real);
    }
  }

  lemma ScaleStep(t: Vector3, k: real)
    ensures Add(Scale(t, k), t) == Scale(t, k + 1.0)
  {
  }

  /** m_center (QuickHull.cpp:16-19): the mean of the points. */
  function Centre(vs: seq<Vector3>): Vector3
    requires |vs| > 0
  {
    Div(Sum(vs), |vs| as real)
  }

  /** The centre moves with the points. */
  lemma CentreShifted(vs: seq<Vector3>, t: Vector3)
    requires |vs| > 0
    ensures Centre(Shifted(vs, t)) == Add(Centre(vs), t)
  {
    var n := |vs| as real;
    var s := Sum(vs);
    SumShifted(vs, t);
    MeanShift(s.x, t.x, n);
    MeanShift(s.y, t.y, n);
    MeanShift(s.z, t.z, n);
  }

  lemma MeanShift(s: real, t: real, n: real)
    requires n > 0.0
    ensures (s + t * n) / n == s / n + t
  {
    assert (s / n + t) * n == s + t * n;
  }

  /** The centre loop of qHull (QuickHull.cpp:16-19). */
  method CentreOf(vs: seq<Vector3>) returns (center: Vector3)
    requires |vs| > 0
    ensures center == Centre(vs)
  {
    center := Zero;
    var i := 0;
    while i < |vs|
      invariant 0 <= i <= |vs| && center == Sum(vs[..i])
    {
      assert vs[..i + 1][..i] == vs[..i];
      center := Add(center, vs[i]);
      i := i + 1;
    }
    assert vs[..i] == vs;
    center := Div(center, |vs| as real);
  }

  /** The largest projection of the points on dir. */
  function MaxDot(vs: seq<Vector3>, dir: Vector3): (r: real)
    requires |vs| > 0
    ensures forall i :: 0 <= i < |vs| ==> Dot(vs[i], dir) <= r
  {
    if |vs| == 1 then Dot(vs[0], dir)
    else
      var m := MaxDot(vs[..|vs| - 1], dir);
      if Dot(vs[|vs| - 1], dir) > m then Dot(vs[|vs| - 1], dir) else m
  }

  /** The largest projection is the projection of a point that no other point outdoes. */
  lemma {:induction false} MaxDotAt(vs: seq<Vector3>, dir: Vector3, k: int)
    requires 0 <= k < |vs| && forall i :: 0 <= i < |vs| ==> Dot(vs[i], dir) <= Dot(vs[k], dir)
    ensures MaxDot(vs, dir) == Dot(vs[k], dir)
  {
    var n := |vs| - 1;
    if n > 0 {
      if k < n {
        MaxDotAt(vs[..n], dir, k);
      } else {
        assert MaxDot(vs[..n], dir) <= Dot(vs[k], dir) by {
          var m := MaxDotTop(vs[..n], dir);
          assert vs[..n][m] == vs[m];
        }
      }
    }
  }

  /** Some point reaches the largest projection. */
  lemma {:induction false} MaxDotTop(vs: seq<Vector3>, dir: Vector3) returns (k: int)
    requires |vs| > 0
    ensures 0 <= k < |vs| && Dot(vs[k], dir) == MaxDot(vs, dir)
  {
    var n := |vs| - 1;
    if n == 0 {
      k := 0;
    } else {
      k := MaxDotTop(vs[..n], dir);
      assert vs[..n][k] == vs[k];
      if Dot(vs[n], dir) > MaxDot(vs[..n], dir) {
        k := n;
      }
    }
  }

  /**
   * The extreme-point scan QuickHull repeats (QuickHull.cpp:33-40, 131-139,
   * 141-149 and the scans after them): starting from point 0, an index is
   * replaced only by a strictly larger projection, so the first point of
   * largest projection wins.
   */
  method ArgMaxDot(vs: seq<Vector3>, dir: Vector3) returns (index: int, max: real)
    requires |vs| > 0
    ensures FirstMax(vs, dir, index, max) && max == MaxDot(vs, dir)
  {
    index, max := 0, Dot(vs[0], dir);
    var i := 1;
    while i < |vs|
      invariant 1 <= i <= |vs| && 0 <= index < i
      invariant FirstMax(vs, dir, index, max)
      invariant forall k :: 0 <= k < i ==> Dot(vs[k], dir) <= max
    {
      if Dot(vs[i], dir) > max {
        index, max := i, Dot(vs[i], dir);
      }
      i := i + 1;
    }
    MaxDotAt(vs, dir, index);
  }

  /** The first point of largest projection is unique. */
  lemma FirstMaxUnique(vs: seq<Vector3>, dir: Vector3, k: int, m: real, k': int, m': real)
    requires FirstMax(vs, dir, k, m) && FirstMax(vs, dir, k', m')
    requires forall i :: 0 <= i < |vs| ==> Dot(vs[i], dir) <= m && Dot(vs[i], dir) <= m'
    ensures k == k' && m == m'
  {
  }

  /** std::fabs(s) < epsilon. */
  predicate Near(s: real, epsilon: real)
  {
    - epsilon < s < epsilon
  }

  /** How far the points reach along dir and against it together. */
  function Spread(vs: seq<Vector3>, dir: Vector3): real
    requires |vs| > 0
  {
    MaxDot(vs, dir) + MaxDot(vs, Neg(dir))
  }

  lemma DotNeg(v: Vector3, d: Vector3)
    ensures Dot(v, Neg(d)) == - Dot(v, d)
  {
  }

  /**
   * The first pair of _findBasedTetras (QuickHull.cpp:130-159) as written:
   * the loop ends with an unconditional break, so the points of largest
   * and smallest x are returned even when they do not differ in x by the
   * epsilon; the retry along y and the `return false` are never reached.
   */
  method ExtremePairAsWritten(vs: seq<Vector3>, epsilon: real) returns (t0: int, t1: int, found: bool)
    requires |vs| > 0
    ensures found
    ensures FirstMax(vs, AxisX, t0, MaxDot(vs, AxisX)) && FirstMax(vs, Neg(AxisX), t1, MaxDot(vs, Neg(AxisX)))
  {
    var max0, max1;
    t0, max0 := ArgMaxDot(vs, AxisX);
    t1, max1 := ArgMaxDot(vs, Neg(AxisX));
    found := true;
  }

  /**
   * The first pair as evidently intended: when the points do not spread
   * along x by the epsilon, the scan is repeated along y, and only when
   * they do not spread along y either is there no pair.  A pair found is
   * two different points.
   */
  method ExtremePair(vs: seq<Vector3>, epsilon: real) returns (t0: int, t1: int, found: bool)
    requires |vs| > 0
    ensures found ==>
              (!Near(Spread(vs, AxisX), epsilon)
               && FirstMax(vs, AxisX, t0, MaxDot(vs, AxisX)) && FirstMax(vs, Neg(AxisX), t1, MaxDot(vs, Neg(AxisX))))
              || (Near(Spread(vs, AxisX), epsilon) && !Near(Spread(vs, AxisY), epsilon)
                  && FirstMax(vs, AxisY, t0, MaxDot(vs, AxisY)) && FirstMax(vs, Neg(AxisY), t1, MaxDot(vs, Neg(AxisY))))
    ensures !found <==> Near(Spread(vs, AxisX), epsilon) && Near(Spread(vs, AxisY), epsilon)
    ensures found && epsilon > 0.0 ==> t0 != t1
  {
    var max0, max1;
    t0, max0 := ArgMaxDot(vs, AxisX);
    t1, max1 := ArgMaxDot(vs, Neg(AxisX));
    if !Near(max0 + max1, epsilon) {
      if epsilon > 0.0 {
        PairDistinct(vs, AxisX, t0, max0, t1, max1, epsilon);
      }
      return t0, t1, true;
    }
    t0, max0 := ArgMaxDot(vs, AxisY);
    t1, max1 := ArgMaxDot(vs, Neg(AxisY));
    if Near(max0 + max1, epsilon) {
      return t0, t1, false;
    }
    if epsilon > 0.0 {
      PairDistinct(vs, AxisY, t0, max0, t1, max1, epsilon);
    }
    found := true;
  }

  /** The first points of largest projection along dir and against it differ when the points spread by a positive epsilon. */
  lemma PairDistinct(vs: seq<Vector3>, dir: Vector3, t0: int, max0: real, t1: int, max1: real, epsilon: real)
    requires FirstMax(vs, dir, t0, max0) && FirstMax(vs, Neg(dir), t1, max1)
    requires epsilon > 0.0 && !Near(max0 + max1, epsilon)
    ensures t0 != t1
  {
    DotNeg(vs[t0], dir);
  }

  /**
   * Three points in the plane x = 0: the first points of largest and of
   * smallest x are both point 0, while along y they are points 1 and 0.
   */
  /** The points (0, 0, 0), (0, 1, 0) and (0, 0, 1). */
  predicate Collapsing(vs: seq<Vector3>)
  {
    |vs| == 3 && vs[0] == Zero && vs[1] == AxisY && vs[2] == Vector3(0.0, 0.0, 1.0)
  }

  /**
   * On the points of Collapsing, whatever ExtremePairAsWritten returns is
   * point 0 twice: every point has x = 0, so no later point beats point 0
   * in either scan.
   */
  lemma ExtremePairCollapses(vs: seq<Vector3>, t0: int, max0: real, t1: int, max1: real)
    requires Collapsing(vs)
    requires FirstMax(vs, AxisX, t0, max0) && FirstMax(vs, Neg(AxisX), t1, max1)
    ensures t0 == 0 && t1 == 0
  {
    var z := Vector3(0.0, 0.0, 1.0);
    assert vs[0] == Zero && vs[1] == AxisY && vs[2] == z;
    assert Dot(Zero, AxisX) == 0.0 && Dot(AxisY, AxisX) == 0.0 && Dot(z, AxisX) == 0.0;
    assert Dot(Zero, Neg(AxisX)) == 0.0 && Dot(AxisY, Neg(AxisX)) == 0.0 && Dot(z, Neg(AxisX)) == 0.0;
  }

  /** _isNull (QuickHull.cpp:90-93): every component strictly inside the epsilon. */
  function IsNullWithin(v: Vector3, epsilon: real): (r: bool)
    ensures r <==> Abs(v.x) < epsilon && Abs(v.y) < epsilon && Abs(v.z) < epsilon
  {
    Near(v.x, epsilon) && Near(v.y, epsilon) && Near(v.z, epsilon)
  }

  /** A null vector is short: its squared length is under three squared epsilons. */
  lemma NullWithinIsShort(v: Vector3, epsilon: real)
    requires IsNullWithin(v, epsilon)
    ensures LengthSquared(v) < 3.0 * epsilon * epsilon
  {
    SquareUnder(v.x, epsilon);
    SquareUnder(v.y, epsilon);
    SquareUnder(v.z, epsilon);
  }

  lemma SquareUnder(a: real, e: real)
    requires Near(a, e)
    ensures a * a < e * e
  {
    var b := if a < 0.0 then - a else a;
    assert a * a == b * b;
    assert b * b <= b * e;
    assert b * e < e * e;
  }

  // ---------------------------------------------------------------------
  // Compaction
  // ---------------------------------------------------------------------

  /** The marks of the flat branch (QuickHull.cpp:276-280): each of the three chosen points marks itself. */
  function Marks(n: nat, tetras: seq<int>): (r: seq<int>)
    requires |tetras| >= 3
    ensures |r| == n
    ensures forall i :: 0 <= i < n ==> (r[i] == i <==> i in tetras[..3]) && (r[i] == -1 <==> i !in tetras[..3])
    ensures forall i :: 0 <= i < n ==> r[i] == i || r[i] == -1
  {
    seq(n, i requires 0 <= i < n => if i in tetras[..3] then i else -1)
  }

  /** How many of the first i marks are set. */
  function CountUsed(used: seq<int>, i: int): (r: int)
    requires 0 <= i <= |used|
    ensures 0 <= r <= i
  {
    if i == 0 then 0 else CountUsed(used, i - 1) + (if used[i - 1] >= 0 then 1 else 0)
  }

  /**
   * The copy of the flat branch (QuickHull.cpp:281-286) stays inside its
   * buffer exactly when every write target used[c], for c below the number
   * of marked points, is a mark that is set.
   */
  predicate TargetsInBounds(used: seq<int>)
  {
    forall c :: 0 <= c < CountUsed(used, |used|) ==> used[c] >= 0
  }

  /**
   * The points kept, in index order: for each set mark, the point it
   * names.
   */
  function Kept(vs: seq<Vector3>, used: seq<int>): (r: seq<Vector3>)
    requires |used| <= |vs| && forall i :: 0 <= i < |used| ==> used[i] < |vs|
    ensures |r| == CountUsed(used, |used|)
  {
    if used == [] then []
    else
      var n := |used| - 1;
      var rest := Kept(vs, used[..n]);
      assert forall c :: 0 <= c <= n ==> CountUsed(used[..n], c) == CountUsed(used, c) by {
        forall c | 0 <= c <= n ensures CountUsed(used[..n], c) == CountUsed(used, c) {
          CountUsedPrefix(used, n, c);
        }
      }
      if used[n] >= 0 then rest + [vs[used[n]]] else rest
  }

  lemma {:induction false} CountUsedPrefix(used: seq<int>, n: int, c: int)
    requires 0 <= c <= n <= |used|
    ensures CountUsed(used[..n], c) == CountUsed(used, c)
  {
    if c > 0 {
      CountUsedPrefix(used, n, c - 1);
    }
  }

  /** The flat branch's three marks name the chosen points, and the buffer stays in bounds only when they are points 0, 1 and 2. */
  lemma MarksInBounds(n: nat, tetras: seq<int>)
    requires |tetras| >= 3 && n >= 3
    requires forall k :: 0 <= k < 3 ==> 0 <= tetras[k] < n
    requires tetras[0] != tetras[1] && tetras[1] != tetras[2] && tetras[0] != tetras[2]
    ensures TargetsInBounds(Marks(n, tetras)) ==> 0 in tetras[..3] && 1 in tetras[..3] && 2 in tetras[..3]
  {
    var used := Marks(n, tetras);
    if TargetsInBounds(used) {
      CountMarks(n, tetras, n);
      ChosenDistinctCount(n, tetras);
      assert used[0] >= 0 && used[1] >= 0 && used[2] >= 0;
    }
  }

  lemma {:induction false} CountMarks(n: nat, tetras: seq<int>, i: int)
    requires |tetras| >= 3 && 0 <= i <= n
    requires forall k :: 0 <= k < 3 ==> 0 <= tetras[k] < n
    requires tetras[0] != tetras[1] && tetras[1] != tetras[2] && tetras[0] != tetras[2]
    ensures CountUsed(Marks(n, tetras), i) == |set k | 0 <= k < 3 && tetras[k] < i|
  {
    var used := Marks(n, tetras);
    if i > 0 {
      CountMarks(n, tetras, i - 1);
      var below := set k | 0 <= k < 3 && tetras[k] < i - 1;
      var upto := set k | 0 <= k < 3 && tetras[k] < i;
      if used[i - 1] >= 0 {
        var k0 :| 0 <= k0 < 3 && tetras[k0] == i - 1;
        assert upto == below + {k0};
      } else {
        assert upto == below;
      }
    } else {
      assert (set k | 0 <= k < 3 && tetras[k] < 0) == {};
    }
  }

  /** Four points of which the three chosen are 0, 2 and 3: the second write of the flat branch goes to temp[-1]. */
  lemma FlatCopyOutOfBounds()
    ensures !TargetsInBounds(Marks(4, [0, 2, 3, -1]))
  {
    var used := Marks(4, [0, 2, 3, -1]);
    assert used[0] == 0 && used[1] == -1 && used[2] == 2 && used[3] == 3 by {
      assert [0, 2, 3, -1][..3] == [0, 2, 3];
    }
    assert CountUsed(used, 1) == 1 && CountUsed(used, 2) == 1 && CountUsed(used, 3) == 2;
    assert CountUsed(used, 4) == 3;
  }

  /**
   * The compaction loop of qHull (QuickHull.cpp:60-67): the points with a
   * set mark are copied in index order, and each set mark is replaced by
   * the point's new index.
   */
  method Compact(vs: seq<Vector3>, used: seq<int>) returns (kept: seq<Vector3>, remap: seq<int>)
    requires |used| <= |vs| && forall i :: 0 <= i < |used| ==> used[i] < |vs|
    ensures kept == Kept(vs, used) && |remap| == |used|
    ensures forall i :: 0 <= i < |used| && used[i] < 0 ==> remap[i] == used[i]
    ensures forall i :: 0 <= i < |used| && used[i] >= 0 ==>
              remap[i] == CountUsed(used, i) && 0 <= remap[i] < |kept| && kept[remap[i]] == vs[used[i]]
  {
    kept, remap := [], used;
    var i := 0;
    while i < |used|
      invariant 0 <= i <= |used| && |remap| == |used|
      invariant kept == Kept(vs, used[..i]) && |kept| == CountUsed(used, i)
      invariant forall k :: i <= k < |used| ==> remap[k] == used[k]
      invariant forall k :: 0 <= k < i && used[k] < 0 ==> remap[k] == used[k]
      invariant forall k :: 0 <= k < i && used[k] >= 0 ==>
                  remap[k] == CountUsed(used, k) && 0 <= remap[k] < |kept| && kept[remap[k]] == vs[used[k]]
    {
      assert used[..i + 1][..i] == used[..i];
      CountUsedPrefix(used, i + 1, i);
      CountUsedPrefix(used, i, i);
      if used[i] >= 0 {
        kept := kept + [vs[used[i]]];
        remap := remap[i := |kept| - 1];
      }
      i := i + 1;
    }
    assert used[..i] == used;
  }

  /** The index rewrite of qHull (QuickHull.cpp:69-72): every polygon corner goes through the new indices. */
  method RemapPolygons(polygons: seq<Polygon>, remap: seq<int>) returns (r: seq<Polygon>)
    requires forall i, j :: 0 <= i < |polygons| && 0 <= j < |polygons[i].vertices| ==> 0 <= polygons[i].vertices[j] < |remap|
    ensures |r| == |polygons|
    ensures forall i :: 0 <= i < |r| ==>
              r[i].normal == polygons[i].normal && |r[i].vertices| == |polygons[i].vertices|
              && forall j :: 0 <= j < |r[i].vertices| ==> r[i].vertices[j] == remap[polygons[i].vertices[j]]
  {
    r := polygons;
    var i := 0;
    while i < |r|
      invariant 0 <= i <= |r| == |polygons|
      invariant forall k :: i <= k < |r| ==> r[k] == polygons[k]
      invariant forall k :: 0 <= k < i ==>
                  r[k].normal == polygons[k].normal && |r[k].vertices| == |polygons[k].vertices|
                  && forall j :: 0 <= j < |r[k].vertices| ==> r[k].vertices[j] == remap[polygons[k].vertices[j]]
    {
      var vertices := r[i].vertices;
      var j := 0;
      while j < |vertices|
        invariant 0 <= j <= |vertices| == |polygons[i].vertices|
        invariant forall m :: j <= m < |vertices| ==> vertices[m] == polygons[i].vertices[m]
        invariant forall m :: 0 <= m < j ==> vertices[m] == remap[polygons[i].vertices[m]]
      {
        vertices := vertices[j := remap[vertices[j]]];
        j := j + 1;
      }
      r := r[i := r[i].(vertices := vertices)];
      i := i + 1;
    }
  }

  /**
   * After compaction and the index rewrite, a polygon corner that was a
   * marked point names the same point in the kept list.
   */
  lemma RemappedCornerSamePoint(vs: seq<Vector3>, used: seq<int>, remap: seq<int>, p: int)
    requires |used| <= |vs| && forall i :: 0 <= i < |used| ==> used[i] < |vs|
    requires |remap| == |used|
    requires forall i :: 0 <= i < |used| && used[i] >= 0 ==>
               remap[i] == CountUsed(used, i) && 0 <= remap[i] < |Kept(vs, used)| && Kept(vs, used)[remap[i]] == vs[used[i]]
    requires 0 <= p < |used| && used[p] == p
    ensures 0 <= remap[p] < |Kept(vs, used)| && Kept(vs, used)[remap[p]] == vs[p]
  {
  }

  // ---------------------------------------------------------------------
  // The starting tetrahedron
  // ---------------------------------------------------------------------

  /** a . (b x c). */
  function Triple(a: Vector3, b: Vector3, c: Vector3): real
  {
    Dot(a, Cross(b, c))
  }

  lemma TripleComponents(ax: real, ay: real, az: real, qx: real, qy: real, qz: real, cx: real, cy: real, cz: real)
    ensures ax * (qy * cz - qz * cy) + ay * (qz * cx - qx * cz) + az * (qx * cy - qy * cx)
         == qx * (cy * az - cz * ay) + qy * (cz * ax - cx * az) + qz * (cx * ay - cy * ax)
  {
  }

  lemma TripleRotation(a: Vector3, b: Vector3, c: Vector3)
    ensures Triple(a, b, c) == Triple(b, c, a)
  {
    TripleComponents(a.x, a.y, a.z, b.x, b.y, b.z, c.x, c.y, c.z);
  }

  lemma TripleSwap(a: Vector3, b: Vector3, c: Vector3)
    ensures Triple(a, c, b) == - Triple(a, b, c)
  {
  }

  /** The triple product is unchanged by rotating its arguments and changes sign when two are swapped. */
  lemma TripleRotates(a: Vector3, b: Vector3, c: Vector3)
    ensures Triple(a, b, c) == Triple(b, c, a) == Triple(c, a, b)
    ensures Triple(a, c, b) == - Triple(a, b, c)
  {
    TripleRotation(a, b, c);
    TripleRotation(b, c, a);
    TripleSwap(a, b, c);
  }

  /** Moving the last two arguments by the first leaves the triple product alone. */
  lemma TripleShift(a: Vector3, b: Vector3, c: Vector3)
    ensures Triple(a, Sub(b, a), Sub(c, a)) == Triple(a, b, c)
  {
    CrossShift(a, b, c);
    CrossOrthogonal(b, a);
    CrossOrthogonal(a, c);
    DotSubSub(a, Cross(b, c), Cross(b, a), Cross(a, c));
  }

  /** The cross product of the edges from a, expanded. */
  lemma CrossShift(a: Vector3, b: Vector3, c: Vector3)
    ensures Cross(Sub(b, a), Sub(c, a)) == Sub(Sub(Cross(b, c), Cross(b, a)), Cross(a, c))
  {
    ShiftComponent(a.y, a.z, b.y, b.z, c.y, c.z);
    ShiftComponent(a.z, a.x, b.z, b.x, c.z, c.x);
    ShiftComponent(a.x, a.y, b.x, b.y, c.x, c.y);
  }

  lemma ShiftComponent(ay: real, az: real, qy: real, qz: real, cy: real, cz: real)
    ensures (qy - ay) * (cz - az) - (qz - az) * (cy - ay)
         == ((qy * cz - qz * cy) - (qy * az - qz * ay)) - (ay * cz - az * cy)
  {
  }

  lemma DotSubSub(a: Vector3, p: Vector3, q: Vector3, r: Vector3)
    ensures Dot(a, Sub(Sub(p, q), r)) == Dot(a, p) - Dot(a, q) - Dot(a, r)
  {
  }

  /** The direction of face f is normal to its face: orthogonal to both edges from its first corner. */
  predicate NormalTo(vs: seq<Vector3>, f: Face)
    requires Shaped(f) && forall k :: 0 <= k < 3 ==> 0 <= f.vertex[k] < |vs|
  {
    Dot(Sub(vs[f.vertex[1]], vs[f.vertex[0]]), f.dir) == 0.0 && Dot(Sub(vs[f.vertex[2]], vs[f.vertex[0]]), f.dir) == 0.0
  }

  /** p is not in front of face f. */
  predicate Behind(vs: seq<Vector3>, f: Face, p: Vector3)
    requires Shaped(f) && 0 <= f.vertex[0] < |vs|
  {
    Dot(Sub(p, vs[f.vertex[0]]), f.dir) <= 0.0
  }

  /** The corners of the faces in store order. */
  function Corners(ts: seq<Face>): (r: seq<seq<int>>)
    ensures |r| == |ts| && forall i :: 0 <= i < |ts| ==> r[i] == ts[i].vertex
  {
    seq(|ts|, i requires 0 <= i < |ts| => ts[i].vertex)
  }

  /** The links of the faces in store order. */
  function Links(ts: seq<Face>): (r: seq<seq<int>>)
    ensures |r| == |ts| && forall i :: 0 <= i < |ts| ==> r[i] == ts[i].joined
  {
    seq(|ts|, i requires 0 <= i < |ts| => ts[i].joined)
  }

  /** The tetrahedron's corners as places in the four points, mapped to the points' indices. */
  function Mapped(faces: seq<seq<int>>, m: seq<int>): (r: seq<seq<int>>)
    requires forall f, k :: 0 <= f < |faces| && 0 <= k < |faces[f]| ==> 0 <= faces[f][k] < |m|
    ensures |r| == |faces|
    ensures forall f :: 0 <= f < |faces| ==>
              |r[f]| == |faces[f]| && forall k :: 0 <= k < |faces[f]| ==> r[f][k] == m[faces[f][k]]
  {
    seq(|faces|, f requires 0 <= f < |faces| => seq(|faces[f]|, k requires 0 <= k < |faces[f]| => m[faces[f][k]]))
  }

  /** Renaming the corners keeps link k of face f. */
  lemma MappedLink(faces: seq<seq<int>>, joins: seq<seq<int>>, m: seq<int>, f: int, k: int)
    requires Closed(faces, joins)
    requires forall f, k :: 0 <= f < |faces| && 0 <= k < |faces[f]| ==> 0 <= faces[f][k] < |m|
    requires 0 <= f < |faces| && 0 <= k < 3
    ensures var r := Mapped(faces, m);
            var g := joins[f][k];
            0 <= g < |r| && g != f
            && var s := SlotOf(joins[g], f);
            0 <= s && |r[g]| == 3 && |r[f]| == 3
            && EdgeStart(r[g], s) == EdgeEnd(r[f], k) && EdgeEnd(r[g], s) == EdgeStart(r[f], k)
  {
    var r := Mapped(faces, m);
    var g := joins[f][k];
    var s := SlotOf(joins[g], f);
    assert |faces[g]| == 3 && |faces[f]| == 3;
    assert EdgeStart(faces[g], s) == EdgeEnd(faces[f], k) && EdgeEnd(faces[g], s) == EdgeStart(faces[f], k);
    assert r[g][s] == m[faces[g][s]] && r[f][(k + 1) % 3] == m[faces[f][(k + 1) % 3]];
    assert r[g][(s + 1) % 3] == m[faces[g][(s + 1) % 3]] && r[f][k] == m[faces[f][k]];
  }

  /** Renaming the corners keeps a closed surface closed. */
  lemma MappedClosed(faces: seq<seq<int>>, joins: seq<seq<int>>, m: seq<int>)
    requires Closed(faces, joins)
    requires forall f, k :: 0 <= f < |faces| && 0 <= k < |faces[f]| ==> 0 <= faces[f][k] < |m|
    ensures Closed(Mapped(faces, m), joins)
  {
    forall f, k | 0 <= f < |faces| && 0 <= k < 3 {
      MappedLink(faces, joins, m, f, k);
    }
  }

  /** The tetrahedron's corners are places among its four points. */
  lemma TetraFacesInRange(flipped: bool)
    ensures |TetraFaces(flipped)| == 4
    ensures forall f, k :: 0 <= f < 4 && 0 <= k < |TetraFaces(flipped)[f]| ==> 0 <= TetraFaces(flipped)[f][k] < 4
  {
  }

  /** A face with link k set to v. */
  function Rejoined(t: Face, k: int, v: int): Face
    requires Shaped(t) && 0 <= k < 3
  {
    t.(joined := t.joined[k := v])
  }

  /** A face with all three links replaced. */
  function WithJoins(t: Face, joined: seq<int>): Face
  {
    t.(joined := joined)
  }

  /** Whether the fourth point lies on the side of cross(vec1, vec2) (QuickHull.cpp:316). */
  predicate Flipped(vs: seq<Vector3>, tetras: seq<int>)
    requires |tetras| == 4 && forall k :: 0 <= k < 4 ==> 0 <= tetras[k] < |vs|
  {
    var v0 := vs[tetras[0]];
    Dot(Sub(vs[tetras[3]], v0), Cross(Sub(vs[tetras[1]], v0), Sub(vs[tetras[2]], v0))) > 0.0
  }

  /** The directions of the tetrahedron's four faces, in store order (QuickHull.cpp:320-325, 340-344). */
  function TetraDirs(vs: seq<Vector3>, tetras: seq<int>): (r: seq<Vector3>)
    requires |tetras| == 4 && forall k :: 0 <= k < 4 ==> 0 <= tetras[k] < |vs|
    ensures |r| == 4
  {
    var v0, v1, v2, v3 := vs[tetras[0]], vs[tetras[1]], vs[tetras[2]], vs[tetras[3]];
    var vec1, vec2, vec3 := Sub(v1, v0), Sub(v2, v0), Sub(v3, v0);
    if Flipped(vs, tetras) then
      [Neg(Cross(vec1, vec2)), Cross(vec1, vec3), Cross(vec3, vec2), Cross(Sub(v2, v1), Sub(v3, v1))]
    else
      [Cross(vec1, vec2), Cross(vec3, vec1), Cross(vec2, vec3), Cross(Sub(v3, v1), Sub(v2, v1))]
  }

  /**
   * The four faces of the starting tetrahedron (QuickHull.cpp:309-358):
   * the corners of TetraFaces renamed through tetras, the directions of
   * TetraDirs and the links of TetraJoins, at iteration 0.
   */
  function TetraStore(vs: seq<Vector3>, tetras: seq<int>): (r: seq<Face>)
    requires |tetras| == 4 && forall k :: 0 <= k < 4 ==> 0 <= tetras[k] < |vs|
    ensures |r| == 4
  {
    var flipped := Flipped(vs, tetras);
    var corners := Mapped(TetraFaces(flipped), tetras);
    var dirs := TetraDirs(vs, tetras);
    var joins := TetraJoins(flipped);
    seq(4, f requires 0 <= f < 4 => TempTriangle(corners[f], dirs[f], joins[f], 0, true))
  }

  /** The four faces as _addTempTriangle leaves them, before the links are set. */
  function TetraUnjoined(vs: seq<Vector3>, tetras: seq<int>): (r: seq<Face>)
    requires |tetras| == 4 && forall k :: 0 <= k < 4 ==> 0 <= tetras[k] < |vs|
    ensures |r| == 4
  {
    var corners := Mapped(TetraFaces(Flipped(vs, tetras)), tetras);
    var dirs := TetraDirs(vs, tetras);
    seq(4, f requires 0 <= f < 4 => TempTriangle(corners[f], dirs[f], [0, 0, 0], 0, true))
  }

  /** Setting the links of the unlinked faces gives the tetrahedron's store. */
  lemma TetraStoreJoined(vs: seq<Vector3>, tetras: seq<int>, f: int)
    requires |tetras| == 4 && forall k :: 0 <= k < 4 ==> 0 <= tetras[k] < |vs|
    requires 0 <= f < 4
    ensures WithJoins(TetraUnjoined(vs, tetras)[f], TetraJoins(Flipped(vs, tetras))[f]) == TetraStore(vs, tetras)[f]
  {
  }

  /** The unlinked faces, written out for each side the fourth point can lie on. */
  lemma TetraUnjoinedCases(vs: seq<Vector3>, tetras: seq<int>)
    requires |tetras| == 4 && forall k :: 0 <= k < 4 ==> 0 <= tetras[k] < |vs|
    ensures var v0, v1, v2, v3 := vs[tetras[0]], vs[tetras[1]], vs[tetras[2]], vs[tetras[3]];
            var vec1, vec2, vec3 := Sub(v1, v0), Sub(v2, v0), Sub(v3, v0);
            var u := TetraUnjoined(vs, tetras);
            (Dot(vec3, Cross(vec1, vec2)) > 0.0 ==>
               u == [TempTriangle([tetras[0], tetras[2], tetras[1]], Neg(Cross(vec1, vec2)), [0, 0, 0], 0, true),
                     TempTriangle([tetras[0], tetras[1], tetras[3]], Cross(vec1, vec3), [0, 0, 0], 0, true),
                     TempTriangle([tetras[0], tetras[3], tetras[2]], Cross(vec3, vec2), [0, 0, 0], 0, true),
                     TempTriangle([tetras[1], tetras[2], tetras[3]], Cross(Sub(v2, v1), Sub(v3, v1)), [0, 0, 0], 0, true)])
            && (Dot(vec3, Cross(vec1, vec2)) <= 0.0 ==>
               u == [TempTriangle([tetras[0], tetras[1], tetras[2]], Cross(vec1, vec2), [0, 0, 0], 0, true),
                     TempTriangle([tetras[0], tetras[3], tetras[1]], Cross(vec3, vec1), [0, 0, 0], 0, true),
                     TempTriangle([tetras[0], tetras[2], tetras[3]], Cross(vec2, vec3), [0, 0, 0], 0, true),
                     TempTriangle([tetras[1], tetras[3], tetras[2]], Cross(Sub(v3, v1), Sub(v2, v1)), [0, 0, 0], 0, true)])
  {
    var fl := Flipped(vs, tetras);
    TetraFacesInRange(fl);
    var corners := Mapped(TetraFaces(fl), tetras);
    var t := tetras;
    if fl {
      assert corners[0] == [t[0], t[2], t[1]] && corners[1] == [t[0], t[1], t[3]];
      assert corners[2] == [t[0], t[3], t[2]] && corners[3] == [t[1], t[2], t[3]];
    } else {
      assert corners[0] == [t[0], t[1], t[2]] && corners[1] == [t[0], t[3], t[1]];
      assert corners[2] == [t[0], t[2], t[3]] && corners[3] == [t[1], t[3], t[2]];
    }
  }

  /** The tetrahedron's store is closed and every face of it is oriented. */
  lemma TetraStoreFacts(vs: seq<Vector3>, tetras: seq<int>)
    requires |tetras| == 4 && forall k :: 0 <= k < 4 ==> 0 <= tetras[k] < |vs|
    ensures var ts := TetraStore(vs, tetras);
            Closed(Corners(ts), Links(ts)) && forall f :: 0 <= f < 4 ==> Oriented(vs, tetras, ts, f)
  {
    TetraStoreClosed(vs, tetras);
    forall f | 0 <= f < 4
      ensures Oriented(vs, tetras, TetraStore(vs, tetras), f)
    {
      TetraStoreOriented(vs, tetras, f);
    }
  }

  /**
   * Face f of the store is normal to its corners, and the corner of the
   * tetrahedron it leaves out (tetras[3 - f]) is not in front of it,
   * strictly behind when the tetrahedron is flipped.
   */
  ghost predicate Oriented(vs: seq<Vector3>, tetras: seq<int>, ts: seq<Face>, f: int)
    requires |tetras| == 4 && forall k :: 0 <= k < 4 ==> 0 <= tetras[k] < |vs|
    requires 0 <= f < 4 <= |ts|
  {
    Shaped(ts[f]) && (forall k :: 0 <= k < 3 ==> 0 <= ts[f].vertex[k] < |vs|)
    && NormalTo(vs, ts[f])
    && Behind(vs, ts[f], vs[tetras[3 - f]])
    && (Flipped(vs, tetras) ==> Dot(Sub(vs[tetras[3 - f]], vs[ts[f].vertex[0]]), ts[f].dir) < 0.0)
  }

  /** The tetrahedron's faces are its four corners renamed through tetras, linked as a closed surface. */
  lemma TetraStoreClosed(vs: seq<Vector3>, tetras: seq<int>)
    requires |tetras| == 4 && forall k :: 0 <= k < 4 ==> 0 <= tetras[k] < |vs|
    ensures var ts := TetraStore(vs, tetras);
            Corners(ts) == Mapped(TetraFaces(Flipped(vs, tetras)), tetras)
            && Links(ts) == TetraJoins(Flipped(vs, tetras))
            && Closed(Corners(ts), Links(ts))
  {
    var flipped := Flipped(vs, tetras);
    TetraClosed(flipped);
    TetraFacesInRange(flipped);
    MappedClosed(TetraFaces(flipped), TetraJoins(flipped), tetras);
    var ts := TetraStore(vs, tetras);
    assert Corners(ts) == Mapped(TetraFaces(flipped), tetras);
    assert Links(ts) == TetraJoins(flipped);
  }

  /** Every face of the tetrahedron is oriented away from the corner it leaves out. */
  lemma TetraStoreOriented(vs: seq<Vector3>, tetras: seq<int>, f: int)
    requires |tetras| == 4 && forall k :: 0 <= k < 4 ==> 0 <= tetras[k] < |vs|
    requires 0 <= f < 4
    ensures Oriented(vs, tetras, TetraStore(vs, tetras), f)
  {
    var v0, v1, v2, v3 := vs[tetras[0]], vs[tetras[1]], vs[tetras[2]], vs[tetras[3]];
    var vec1, vec2, vec3 := Sub(v1, v0), Sub(v2, v0), Sub(v3, v0);
    var ts := TetraStore(vs, tetras);
    TetraFacts(v0, v1, v2, v3);
    if f == 0 {
      CrossOrthogonal(vec1, vec2);
      DotNeg(vec1, Cross(vec1, vec2));
      DotNeg(vec2, Cross(vec1, vec2));
    } else if f == 1 {
      CrossOrthogonal(vec1, vec3);
      CrossOrthogonal(vec3, vec1);
    } else if f == 2 {
      CrossOrthogonal(vec3, vec2);
      CrossOrthogonal(vec2, vec3);
    } else {
      CrossOrthogonal(Sub(v2, v1), Sub(v3, v1));
      CrossOrthogonal(Sub(v3, v1), Sub(v2, v1));
    }
  }

  /** The builder's state (QuickHull.h:28-34) with the hull it fills. */
  class QuickHull {
    var hull: Shape
    var epsilon: real
    var polygons: seq<Polygon>
    var vertices: seq<Vector3>
    var center: Vector3
    var store: seq<Face>
    var iteration: int

    /** Every stored face is a TempTriangle with three corners among the vertices and three links. */
    ghost predicate Valid()
      reads this`vertices, this`store
    {
      forall i :: 0 <= i < |store| ==>
        store[i].TempTriangle? && Shaped(store[i]) && forall k :: 0 <= k < 3 ==> 0 <= store[i].vertex[k] < |vertices|
    }

    constructor(hull: Shape)
      ensures Valid() && this.hull == hull && store == [] && vertices == [] && polygons == []
    {
      this.hull := hull;
      epsilon := CONVEX_HULL_EPS;
      polygons := [];
      vertices := [];
      center := Zero;
      store := [];
      iteration := 0;
    }

    /**
     * The start of qHull (QuickHull.cpp:9-20): fewer than three points
     * give no hull; otherwise the builder takes a copy of the points, an
     * empty store, their centre and the epsilon.
     */
    method Begin(eps: real) returns (ok: bool)
      modifies this`vertices, this`store, this`center, this`epsilon
      ensures ok <==> |hull.localVertices| >= 3
      ensures ok ==> Valid() && vertices == hull.localVertices && store == []
                     && center == Centre(vertices) && epsilon == eps
      ensures !ok ==> unchanged(this)
    {
      if |hull.localVertices| < 3 {
        return false;
      }
      vertices := hull.localVertices;
      store := [];
      center := CentreOf(vertices);
      epsilon := eps;
      ok := true;
    }

    /** _addTempTriangle with a direction (QuickHull.cpp:95-105): the links keep the value-initialised zeros. */
    method AddTempTriangleDir(v0: int, v1: int, v2: int, dir: Vector3)
      requires Valid() && 0 <= v0 < |vertices| && 0 <= v1 < |vertices| && 0 <= v2 < |vertices|
      modifies this`store
      ensures Valid()
      ensures store == old(store) + [TempTriangle([v0, v1, v2], dir, [0, 0, 0], iteration, true)]
    {
      store := store + [TempTriangle([v0, v1, v2], dir, [0, 0, 0], iteration, true)];
    }

    /**
     * _addTempTriangle from three corners (QuickHull.cpp:107-121): the
     * direction is the cross product of the edges from the first corner,
     * normal to the face, and all three links are unset.
     */
    method AddTempTriangle(v0: int, v1: int, v2: int)
      requires Valid() && 0 <= v0 < |vertices| && 0 <= v1 < |vertices| && 0 <= v2 < |vertices|
      modifies this`store
      ensures Valid()
      ensures var dir := Cross(Sub(vertices[v1], vertices[v0]), Sub(vertices[v2], vertices[v0]));
              store == old(store) + [TempTriangle([v0, v1, v2], dir, [-1, -1, -1], iteration, true)]
      ensures NormalTo(vertices, store[|old(store)|])
    {
      var based := vertices[v0];
      var dir := Cross(Sub(vertices[v1], based), Sub(vertices[v2], based));
      CrossOrthogonal(Sub(vertices[v1], based), Sub(vertices[v2], based));
      DotSymmetric(Sub(vertices[v1], based), dir);
      DotSymmetric(Sub(vertices[v2], based), dir);
      store := store + [TempTriangle([v0, v1, v2], dir, [-1, -1, -1], iteration, true)];
    }

    /** One step of the pairing loop of _addVertexToConvex (QuickHull.cpp:409-421). */
    method Pair(i: int, j: int)
      requires Valid() && 0 <= i < j < |store|
      modifies this`store
      ensures Valid()
      ensures store == Paired(old(store), i, j)
    {
      var ti, tj := store[i], store[j];
      if ti.vertex[0] == tj.vertex[0] {
        store := store[i := Rejoined(ti, 2, j)][j := Rejoined(tj, 2, i)];
      } else if ti.vertex[0] == tj.vertex[1] {
        store := store[i := Rejoined(ti, 2, j)][j := Rejoined(tj, 1, i)];
      } else if ti.vertex[1] == tj.vertex[0] {
        store := store[i := Rejoined(ti, 1, j)][j := Rejoined(tj, 2, i)];
      } else if ti.vertex[1] == tj.vertex[1] {
        store := store[i := Rejoined(ti, 1, j)][j := Rejoined(tj, 1, i)];
      }
    }

    /**
     * The pairing loop of _addVertexToConvex (QuickHull.cpp:407-427): true
     * exactly when every face from `first` on ends with slots 1 and 2
     * linked; every link written joins two new faces sharing a corner.
     */
    method PairNewTriangles(first: int) returns (ok: bool)
      requires Valid() && 0 <= first <= |store|
      modifies this`store
      ensures Valid() && |store| == |old(store)|
      ensures Relinked(old(store), store, first)
      ensures ok <==> forall x :: first <= x < |store| ==> Linked(store[x])
    {
      ghost var t0 := store;
      var i := first;
      while i < |store|
        invariant Valid() && |store| == |t0| && first <= i <= |store|
        invariant Relinked(t0, store, first)
        invariant forall x :: first <= x < i ==> Linked(store[x])
      {
        var j := i + 1;
        while j < |store|
          invariant Valid() && |store| == |t0| && i < j <= |store|
          invariant Relinked(t0, store, first)
          invariant forall x :: first <= x < i ==> Linked(store[x])
        {
          ghost var before := store;
          Pair(i, j);
          PairRelinks(t0, before, store, first, i, j);
          j := j + 1;
        }
        if store[i].joined[1] < 0 || store[i].joined[2] < 0 {
          return false;
        }
        i := i + 1;
      }
      return true;
    }

    /**
     * The scan of the main loop of qHull (QuickHull.cpp:31-41) for face i:
     * the first point farthest along the face's direction, and whether it
     * lies more than the epsilon in front of the face.
     */
    method Farthest(i: int) returns (index: int, beyond: bool)
      requires Valid() && 0 <= i < |store| && |vertices| > 0
      ensures FirstMax(vertices, store[i].dir, index, MaxDot(vertices, store[i].dir))
      ensures beyond <==> MaxDot(vertices, store[i].dir) - Dot(vertices[store[i].vertex[0]], store[i].dir) > epsilon
    {
      var max;
      index, max := ArgMaxDot(vertices, store[i].dir);
      beyond := max - Dot(vertices[store[i].vertex[0]], store[i].dir) > epsilon;
    }

    /**
     * The tetrahedron branch of _formedBasedTetras (QuickHull.cpp:309-358):
     * the store becomes the four linked faces of TetraStore over the
     * chosen points, at iteration 0.  They form a closed surface, each
     * face's direction is normal to it, and the corner it leaves out is
     * not in front of it (strictly behind when the fourth point lies on
     * the side of cross(vec1, vec2)).
     */
    method FormTetrahedron(tetras: seq<int>)
      requires Valid() && |tetras| == 4 && forall k :: 0 <= k < 4 ==> 0 <= tetras[k] < |vertices|
      modifies this`store, this`iteration
      ensures Valid() && iteration == 0 && store == TetraStore(vertices, tetras)
      ensures Closed(Corners(store), Links(store))
      ensures forall f :: 0 <= f < 4 ==> Oriented(vertices, tetras, store, f)
    {
      iteration := 0;
      store := [];
      AddTetraFaces(tetras);
      var flipped := Flipped(vertices, tetras);
      SetJoins(TetraJoins(flipped));
      forall f | 0 <= f < 4
        ensures store[f] == TetraStore(vertices, tetras)[f]
      {
        TetraStoreJoined(vertices, tetras, f);
      }
      assert store == TetraStore(vertices, tetras);
      TetraStoreFacts(vertices, tetras);
    }

    /** The four _addTempTriangle calls of _formedBasedTetras (QuickHull.cpp:316-326, 339-344). */
    method AddTetraFaces(tetras: seq<int>)
      requires Valid() && iteration == 0 && store == []
      requires |tetras| == 4 && forall k :: 0 <= k < 4 ==> 0 <= tetras[k] < |vertices|
      modifies this`store
      ensures Valid() && store == TetraUnjoined(vertices, tetras)
    {
      var v0, v1, v2, v3 := vertices[tetras[0]], vertices[tetras[1]], vertices[tetras[2]], vertices[tetras[3]];
      var vec1, vec2, vec3 := Sub(v1, v0), Sub(v2, v0), Sub(v3, v0);
      var dir1 := Cross(vec1, vec2);
      TetraUnjoinedCases(vertices, tetras);
      if Dot(vec3, dir1) > 0.0 {
        AddTempTriangleDir(tetras[0], tetras[2], tetras[1], Neg(dir1));
        AddTempTriangleDir(tetras[0], tetras[1], tetras[3], Cross(vec1, vec3));
        AddTempTriangleDir(tetras[0], tetras[3], tetras[2], Cross(vec3, vec2));
        AddTempTriangleDir(tetras[1], tetras[2], tetras[3], Cross(Sub(v2, v1), Sub(v3, v1)));
      } else {
        AddTempTriangleDir(tetras[0], tetras[1], tetras[2], dir1);
        AddTempTriangleDir(tetras[0], tetras[3], tetras[1], Cross(vec3, vec1));
        AddTempTriangleDir(tetras[0], tetras[2], tetras[3], Cross(vec2, vec3));
        AddTempTriangleDir(tetras[1], tetras[3], tetras[2], Cross(Sub(v3, v1), Sub(v2, v1)));
      }
    }

    /** The link assignments of _formedBasedTetras (QuickHull.cpp:327-338, 345-356): face k gets the links joins[k]. */
    method SetJoins(joins: seq<seq<int>>)
      requires Valid() && |joins| == |store| && forall k :: 0 <= k < |joins| ==> |joins[k]| == 3
      modifies this`store
      ensures Valid() && |store| == |old(store)|
      ensures forall k :: 0 <= k < |store| ==> store[k] == WithJoins(old(store)[k], joins[k])
    {
      var k := 0;
      while k < |store|
        invariant Valid() && |store| == |old(store)| && 0 <= k <= |store|
        invariant forall m :: 0 <= m < k ==> store[m] == WithJoins(old(store)[m], joins[m])
        invariant forall m :: k <= m < |store| ==> store[m] == old(store)[m]
      {
        store := store[k := WithJoins(store[k], joins[k])];
        k := k + 1;
      }
    }

    /**
     * The vertex copy of the flat branch of _formedBasedTetras
     * (QuickHull.cpp:271-291) as written.  With more than three points,
     * the copy into the scratch buffer writes to temp[used[count]] rather
     * than temp[count], which stays inside the buffer only when the chosen
     * points are 0, 1 and 2; the answer says whether it stayed inside.
     * Then the hull is cut to its first three points (setCountVertices
     * keeps a prefix) and the builder's copy gets the buffer, so the hull
     * keeps points 0, 1 and 2 whichever three were chosen.
     */
    method KeepFlatAsWritten(tetras: seq<int>) returns (inBounds: bool)
      requires |tetras| == 4 && forall k :: 0 <= k < 3 ==> 0 <= tetras[k] < |vertices|
      requires tetras[0] != tetras[1] && tetras[1] != tetras[2] && tetras[0] != tetras[2]
      requires |vertices| >= 3 && |hull.localVertices| == |vertices|
      modifies this`vertices, hull`localVertices, hull`globalVertices
      ensures inBounds <==> old(|vertices|) == 3 || TargetsInBounds(Marks(old(|vertices|), tetras))
      ensures inBounds ==> hull.localVertices == old(hull.localVertices)[..3]
                           && vertices == Kept(old(vertices), Marks(old(|vertices|), tetras)) && |vertices| == 3
    {
      var n := |vertices|;
      var used := Marks(n, tetras);
      if n > 3 {
        var temp, count;
        temp, count, inBounds := FlatCopyAsWritten(vertices, used);
        if !inBounds {
          return;
        }
        assert count == 3 by { CountMarks(n, tetras, n); ChosenDistinctCount(n, tetras); }
        hull.localVertices := hull.localVertices[..count];
        hull.globalVertices := Resized(hull.globalVertices, count);
        vertices := CopyPrefix(hull.localVertices, temp, count);
        assert vertices == Kept(old(vertices), used);
      } else {
        inBounds := true;
        KeptAllMarked(vertices, tetras);
      }
    }

    /**
     * The vertex copy of the flat branch with the write going to
     * temp[count]: the builder and the hull both keep exactly the three
     * chosen points, in index order.
     */
    method KeepFlat(tetras: seq<int>)
      requires |tetras| == 4 && forall k :: 0 <= k < 3 ==> 0 <= tetras[k] < |vertices|
      requires tetras[0] != tetras[1] && tetras[1] != tetras[2] && tetras[0] != tetras[2]
      modifies this`vertices, hull`localVertices, hull`globalVertices
      ensures vertices == Kept(old(vertices), Marks(old(|vertices|), tetras)) && |vertices| == 3
      ensures hull.localVertices == vertices && |hull.globalVertices| == 3
    {
      var n := |vertices|;
      var used := Marks(n, tetras);
      var temp, count := FlatCopy(vertices, used);
      assert count == 3 by { CountMarks(n, tetras, n); ChosenDistinctCount(n, tetras); }
      var kept := CopyPrefix(Resized(hull.localVertices, count), temp, count);
      assert kept == Kept(vertices, used);
      vertices := kept;
      hull.localVertices := kept;
      hull.globalVertices := Resized(hull.globalVertices, 3);
    }

    /** The end of the flat branch (QuickHull.cpp:293-306): the two faces of the triangle 0, 1, 2. */
    method FinishFlat(l: real)
      requires |vertices| >= 3
      modifies this`polygons, hull`polygons
      ensures unchanged(this`vertices, this`store, hull`localVertices, hull`globalVertices)
      ensures polygons == FlatPolygons(vertices, l) && hull.polygons == polygons
    {
      var flat := FlatPolygons(vertices, l);
      SetPolygons(flat);
    }

    /** The builder's faces, handed to the hull as well (QuickHull.cpp:293-306). */
    method SetPolygons(faces: seq<Polygon>)
      modifies this`polygons, hull`polygons
      ensures unchanged(this`vertices, this`store, hull`localVertices, hull`globalVertices)
      ensures polygons == faces && hull.polygons == faces
    {
      hull.polygons := faces;
      polygons := faces;
    }
  }

  /**
   * The copy loop of the flat branch (QuickHull.cpp:281-286) as written,
   * over marks that are each a point's own index or -1: it stays inside
   * the buffer exactly when TargetsInBounds holds, and then the buffer
   * starts with the marked points in index order.
   */
  method FlatCopyAsWritten(vs: seq<Vector3>, used: seq<int>) returns (temp: seq<Vector3>, count: int, ok: bool)
    requires |used| == |vs| && forall i :: 0 <= i < |used| ==> used[i] == i || used[i] == -1
    ensures ok <==> TargetsInBounds(used)
    ensures ok ==> count == CountUsed(used, |used|) && |temp| == |used|
                   && forall c :: 0 <= c < count ==> temp[c] == Kept(vs, used)[c]
  {
    var n := |used|;
    temp := seq(n, _ => Zero);
    count := 0;
    var i := 0;
    while i < n
      invariant 0 <= i <= n && count == CountUsed(used, i) && |temp| == n
      invariant forall c :: 0 <= c < count ==> used[c] == c
      invariant Kept(vs, used[..i]) == temp[..count]
    {
      assert used[..i + 1][..i] == used[..i];
      CountUsedPrefix(used, i + 1, i);
      if used[i] >= 0 {
        var target := used[count];
        if target < 0 {
          assert !TargetsInBounds(used) by {
            assert count < CountUsed(used, n) by { CountUsedGrows(used, i + 1, n); }
          }
          return temp, count, false;
        }
        temp := temp[target := vs[used[i]]];
        count := count + 1;
      }
      i := i + 1;
    }
    assert used[..n] == used;
    ok := true;
  }

  /**
   * The copy loop of the flat branch with the write going to temp[count]:
   * the buffer starts with the marked points in index order.
   */
  method FlatCopy(vs: seq<Vector3>, used: seq<int>) returns (temp: seq<Vector3>, count: int)
    requires |used| == |vs| && forall i :: 0 <= i < |used| ==> used[i] == i || used[i] == -1
    ensures count == CountUsed(used, |used|) && |temp| == |used|
    ensures forall c :: 0 <= c < count ==> temp[c] == Kept(vs, used)[c]
  {
    var n := |used|;
    temp := seq(n, _ => Zero);
    count := 0;
    var i := 0;
    while i < n
      invariant 0 <= i <= n && count == CountUsed(used, i) && count <= i && |temp| == n
      invariant Kept(vs, used[..i]) == temp[..count]
    {
      assert used[..i + 1][..i] == used[..i];
      CountUsedPrefix(used, i + 1, i);
      if used[i] >= 0 {
        temp := temp[count := vs[used[i]]];
        count := count + 1;
      }
      i := i + 1;
    }
    assert used[..n] == used;
  }

  /** The copy of the buffer's first count entries into the hull's points (QuickHull.cpp:289-290). */
  method CopyPrefix(dst: seq<Vector3>, src: seq<Vector3>, count: int) returns (r: seq<Vector3>)
    requires 0 <= count <= |dst| && count <= |src|
    ensures |r| == |dst| && r[..count] == src[..count] && r[count..] == dst[count..]
  {
    r := dst;
    var k := 0;
    while k < count
      invariant 0 <= k <= count && |r| == |dst|
      invariant r[..k] == src[..k] && r[k..] == dst[k..]
    {
      r := r[k := src[k]];
      k := k + 1;
    }
  }

  /** Every marked point is kept, at its rank among the marked points. */
  lemma {:induction false} KeptAt(vs: seq<Vector3>, used: seq<int>, i: int)
    requires |used| <= |vs| && forall j :: 0 <= j < |used| ==> used[j] < |vs|
    requires 0 <= i < |used| && used[i] >= 0
    ensures CountUsed(used, i) < |Kept(vs, used)| && Kept(vs, used)[CountUsed(used, i)] == vs[used[i]]
  {
    var n := |used| - 1;
    CountUsedPrefix(used, n, i);
    CountUsedPrefix(used, n, n);
    if i < n {
      KeptAt(vs, used[..n], i);
    }
  }

  /** The flat hull keeps each of the three chosen points, at its rank among them. */
  lemma FlatKeepsChosen(vs: seq<Vector3>, tetras: seq<int>)
    requires |tetras| >= 3 && forall k :: 0 <= k < 3 ==> 0 <= tetras[k] < |vs|
    ensures forall k :: 0 <= k < 3 ==>
              var used := Marks(|vs|, tetras);
              CountUsed(used, tetras[k]) < |Kept(vs, used)| && Kept(vs, used)[CountUsed(used, tetras[k])] == vs[tetras[k]]
  {
    forall k | 0 <= k < 3
      ensures var used := Marks(|vs|, tetras);
              CountUsed(used, tetras[k]) < |Kept(vs, used)| && Kept(vs, used)[CountUsed(used, tetras[k])] == vs[tetras[k]]
    {
      var used := Marks(|vs|, tetras);
      assert tetras[k] in tetras[..3];
      KeptAt(vs, used, tetras[k]);
    }
  }

  /** With exactly three points, all three are marked and kept as they are. */
  lemma KeptAllMarked(vs: seq<Vector3>, tetras: seq<int>)
    requires |vs| == 3 && |tetras| == 4 && forall k :: 0 <= k < 3 ==> 0 <= tetras[k] < 3
    requires tetras[0] != tetras[1] && tetras[1] != tetras[2] && tetras[0] != tetras[2]
    ensures TargetsInBounds(Marks(3, tetras)) && Kept(vs, Marks(3, tetras)) == vs
  {
    var used := Marks(3, tetras);
    CountMarks(3, tetras, 3);
    ChosenDistinctCount(3, tetras);
    assert CountUsed(used, 3) == 3;
    assert used[2] >= 0 && used[1] >= 0 && used[0] >= 0;
    assert used == [0, 1, 2];
    assert used[..2] == [0, 1] && used[..2][..1] == [0] && used[..2][..1][..0] == [];
    assert Kept(vs, [0]) == [vs[0]];
    assert Kept(vs, [0, 1]) == [vs[0], vs[1]];
    assert Kept(vs, used) == [vs[0], vs[1], vs[2]];
  }

  lemma {:induction false} CountUsedGrows(used: seq<int>, i: int, n: int)
    requires 0 <= i <= n <= |used|
    ensures CountUsed(used, i) <= CountUsed(used, n)
    decreases n - i
  {
    if i < n {
      CountUsedGrows(used, i, n - 1);
    }
  }

  /** The two faces of a flat hull (QuickHull.cpp:294-305): the triangle 0, 1, 2 seen from both sides. */
  function FlatPolygons(vs: seq<Vector3>, l: real): (r: seq<Polygon>)
    requires |vs| >= 3
    ensures |r| == 2 && r[0].vertices == [0, 1, 2] && r[1].vertices == [0, 2, 1]
    ensures r[1].normal == Neg(r[0].normal)
  {
    var n := Normalize(Cross(Sub(vs[1], vs[0]), Sub(vs[2], vs[0])), l).v;
    [Polygon([0, 1, 2], n), Polygon([0, 2, 1], Neg(n))]
  }

  /** Both normals of a flat hull are orthogonal to the triangle's edges. */
  lemma FlatNormalsOrthogonal(vs: seq<Vector3>, l: real)
    requires |vs| >= 3
    ensures var a, b := Sub(vs[1], vs[0]), Sub(vs[2], vs[0]);
            var r := FlatPolygons(vs, l);
            Dot(a, r[0].normal) == 0.0 && Dot(b, r[0].normal) == 0.0
            && Dot(a, r[1].normal) == 0.0 && Dot(b, r[1].normal) == 0.0
  {
    var a, b := Sub(vs[1], vs[0]), Sub(vs[2], vs[0]);
    CrossOrthogonal(a, b);
    NormalizedOrthogonal(Cross(a, b), a, l);
    NormalizedOrthogonal(Cross(a, b), b, l);
    var n := Normalize(Cross(a, b), l).v;
    DotNeg(a, n);
    DotNeg(b, n);
  }

  /** Both normals of a flat hull have unit length when the length supplied is the cross product's. */
  lemma FlatNormalsUnit(vs: seq<Vector3>, l: real)
    requires |vs| >= 3
    requires Abs(l) >= EPS && IsLength(Cross(Sub(vs[1], vs[0]), Sub(vs[2], vs[0])), l)
    ensures var r := FlatPolygons(vs, l);
            LengthSquared(r[0].normal) == 1.0 && LengthSquared(r[1].normal) == 1.0
  {
    var n := Normalize(Cross(Sub(vs[1], vs[0]), Sub(vs[2], vs[0])), l).v;
    assert LengthSquared(Neg(n)) == LengthSquared(n);
  }

  /** Three different chosen points set three marks. */
  lemma ChosenDistinctCount(n: nat, tetras: seq<int>)
    requires |tetras| >= 3 && forall k :: 0 <= k < 3 ==> 0 <= tetras[k] < n
    ensures tetras[0] != tetras[1] && tetras[1] != tetras[2] && tetras[0] != tetras[2] ==>
              |set k | 0 <= k < 3 && tetras[k] < n| == 3
  {
    assert (set k | 0 <= k < 3 && tetras[k] < n) == {0, 1, 2};
  }

  /** The sign facts behind the tetrahedron's orientation: every left-out corner is behind by the same triple product. */
  lemma TetraFacts(v0: Vector3, v1: Vector3, v2: Vector3, v3: Vector3)
    ensures var a, b, c := Sub(v1, v0), Sub(v2, v0), Sub(v3, v0);
            var t := Dot(c, Cross(a, b));
            Dot(Sub(v3, v0), Neg(Cross(a, b))) == - t
            && Dot(Sub(v2, v0), Cross(a, c)) == - t
            && Dot(Sub(v1, v0), Cross(c, b)) == - t
            && Dot(Sub(v0, v1), Cross(Sub(v2, v1), Sub(v3, v1))) == - t
            && Dot(Sub(v3, v0), Cross(a, b)) == t
            && Dot(Sub(v2, v0), Cross(c, a)) == t
            && Dot(Sub(v1, v0), Cross(b, c)) == t
            && Dot(Sub(v0, v1), Cross(Sub(v3, v1), Sub(v2, v1))) == t
  {
    var a, b, c := Sub(v1, v0), Sub(v2, v0), Sub(v3, v0);
    TripleRotates(a, b, c);
    TripleRotates(b, a, c);
    TripleRotates(c, a, b);
    DotNeg(c, Cross(a, b));
    assert Sub(v2, v1) == Sub(b, a) && Sub(v3, v1) == Sub(c, a) && Sub(v0, v1) == Neg(a);
    TripleShift(a, b, c);
    TripleShift(a, c, b);
    TripleRotates(a, c, b);
    NegDot(a, Cross(Sub(b, a), Sub(c, a)));
    NegDot(a, Cross(Sub(c, a), Sub(b, a)));
  }

  lemma NegDot(a: Vector3, d: Vector3)
    ensures Dot(Neg(a), d) == - Dot(a, d)
  {
  }
}
