/**
 * Axis-aligned bounding boxes (struct Bounds in Bodies/Shape.h).  Bounds is
 * a value type; init and merge are modelled as functions returning the
 * updated value.
 */
module BoundsBox {
  import opened Settings
  import opened Vector3Math

  datatype Bounds = Bounds(min: Vector3, max: Vector3)

  /** init() (Shape.h:24-28): the empty box, min at +MAX and max at -MAX. */
  function Init(): (r: Bounds)
    ensures r.min == Vector3(MAX_NUMBER, MAX_NUMBER, MAX_NUMBER)
    ensures r.max == Vector3(MIN_NUMBER, MIN_NUMBER, MIN_NUMBER)
  {
    Bounds(Vector3(MAX_NUMBER, MAX_NUMBER, MAX_NUMBER), Vector3(MIN_NUMBER, MIN_NUMBER, MIN_NUMBER))
  }

  /** getCenter() (Shape.h:30-33): the midpoint of min and max. */
  function Center(b: Bounds): (r: Vector3)
    ensures Add(r, r) == Add(b.min, b.max)
  {
    Scale(Add(b.min, b.max), 0.5)
  }

  /** merge(bounds) (Shape.h:35-39): componentwise min of the mins and max of the maxes. */
  function Merge(a: Bounds, b: Bounds): (r: Bounds)
    ensures Contains(r, a) && Contains(r, b)
  {
    Bounds(MinAxis(a.min, b.min), MaxAxis(a.max, b.max))
  }

  /** `outer` contains `inner` on every axis. */
  predicate Contains(outer: Bounds, inner: Bounds)
  {
    LessEq(outer.min, inner.min) && LessEq(inner.max, outer.max)
  }

  /** The point `p` lies inside `b` (boundary included). */
  predicate HasPoint(b: Bounds, p: Vector3)
  {
    LessEq(b.min, p) && LessEq(p, b.max)
  }

  /** Every coordinate is a finite float, that is within [MIN, MAX]. */
  predicate Finite(b: Bounds)
  {
    MIN_NUMBER <= b.min.x <= MAX_NUMBER && MIN_NUMBER <= b.min.y <= MAX_NUMBER && MIN_NUMBER <= b.min.z <= MAX_NUMBER
    && MIN_NUMBER <= b.max.x <= MAX_NUMBER && MIN_NUMBER <= b.max.y <= MAX_NUMBER && MIN_NUMBER <= b.max.z <= MAX_NUMBER
  }

  /** Merging finite bounds into freshly initialised ones yields those bounds. */
  lemma MergeInit(b: Bounds)
    requires Finite(b)
    ensures Merge(Init(), b) == b
  {
  }

  /** merge is commutative, associative and idempotent. */
  lemma MergeCommutative(a: Bounds, b: Bounds)
    ensures Merge(a, b) == Merge(b, a)
  {
  }

  lemma MergeAssociative(a: Bounds, b: Bounds, c: Bounds)
    ensures Merge(Merge(a, b), c) == Merge(a, Merge(b, c))
  {
  }

  lemma MergeIdempotent(a: Bounds)
    ensures Merge(a, a) == a
  {
  }

  /** The merge is the least box containing both operands. */
  lemma MergeLeast(a: Bounds, b: Bounds, c: Bounds)
    requires Contains(c, a) && Contains(c, b)
    ensures Contains(c, Merge(a, b))
  {
  }

  /**
   * collision(bounds) (Shape.h:41-48): the closed intervals touch on all
   * three axes (see CollisionIffCommonPoint for what this means for boxes).
   */
  function Collision(a: Bounds, b: Bounds): (r: bool)
    ensures r == (Touch(a.min.x, a.max.x, b.min.x, b.max.x)
                  && Touch(a.min.y, a.max.y, b.min.y, b.max.y)
                  && Touch(a.min.z, a.max.z, b.min.z, b.max.z))
  {
    if a.min.x <= b.max.x && a.max.x >= b.min.x then
      if a.min.y <= b.max.y && a.max.y >= b.min.y then
        a.min.z <= b.max.z && a.max.z >= b.min.z
      else false
    else false
  }

  /** Neither interval lies entirely beyond the other. */
  predicate Touch(lo1: real, hi1: real, lo2: real, hi2: real)
  {
    lo1 <= hi2 && lo2 <= hi1
  }

  /** min <= max on every axis. */
  predicate WellFormed(b: Bounds)
  {
    LessEq(b.min, b.max)
  }

  /** For well-formed boxes, collision holds exactly when the boxes share a point. */
  lemma CollisionIffCommonPoint(a: Bounds, b: Bounds)
    requires WellFormed(a) && WellFormed(b)
    ensures Collision(a, b) <==> exists p :: HasPoint(a, p) && HasPoint(b, p)
  {
    if Collision(a, b) {
      var p := Vector3(Max(a.min.x, b.min.x), Max(a.min.y, b.min.y), Max(a.min.z, b.min.z));
      assert HasPoint(a, p) && HasPoint(b, p);
    }
  }

  lemma CollisionSymmetric(a: Bounds, b: Bounds)
    ensures Collision(a, b) == Collision(b, a)
  {
  }

  /** Boxes that share a point collide; boxes that collide grow into colliding boxes. */
  lemma CollisionOfCommonPoint(a: Bounds, b: Bounds, p: Vector3)
    requires HasPoint(a, p) && HasPoint(b, p)
    ensures Collision(a, b)
  {
  }

  lemma CollisionMonotone(a: Bounds, b: Bounds, a2: Bounds, b2: Bounds)
    requires Contains(a2, a) && Contains(b2, b) && Collision(a, b)
    ensures Collision(a2, b2)
  {
  }
}
