/**
 * Two-dimensional vectors (VectorMath/Vector2.h and Vector2.cpp).
 *
 * As with Vector3, the in-place mutators of this value type are modelled as
 * functions returning the updated value, and lengths are supplied by the
 * caller with the fact that they are square roots of the squared length.
 */
module Vector2Math {
  import opened Settings

  datatype Vector2 = Vector2(x: real, y: real)

  const Zero2: Vector2 := Vector2(0.0, 0.0)

  function Add2(a: Vector2, b: Vector2): Vector2 { Vector2(a.x + b.x, a.y + b.y) }
  function Sub2(a: Vector2, b: Vector2): Vector2 { Vector2(a.x - b.x, a.y - b.y) }
  function Scale2(a: Vector2, k: real): Vector2 { Vector2(a.x * k, a.y * k) }

  function Dot2(a: Vector2, b: Vector2): real
  {
    a.x * b.x + a.y * b.y
  }

  /** The scalar 2D cross product (Vector2.cpp:10-13). */
  function Cross2(a: Vector2, b: Vector2): real
  {
    a.x * b.y - a.y * b.x
  }

  /** cross is antisymmetric, so a vector crossed with itself is 0. */
  lemma Cross2Antisymmetric(a: Vector2, b: Vector2)
    ensures Cross2(a, b) == -Cross2(b, a)
    ensures Cross2(a, a) == 0.0
  {
  }

  function LengthSquared2(a: Vector2): (r: real)
    ensures r >= 0.0
  {
    a.x * a.x + a.y * a.y
  }

  datatype Normalized2 = Normalized2(v: Vector2, length: real)

  /**
   * normalize() (Vector2.h:120-131) given `l`, the value length() returns:
   * zero and 0 below EPS, otherwise the unit vector and the prior length.
   */
  function Normalize2(a: Vector2, l: real): (r: Normalized2)
    ensures Abs(l) < EPS ==> r == Normalized2(Zero2, 0.0)
    ensures Abs(l) >= EPS ==> r.length == l && Scale2(r.v, l) == a
    ensures Abs(l) >= EPS && l >= 0.0 && l * l == LengthSquared2(a) ==> LengthSquared2(r.v) == 1.0
  {
    if Abs(l) < EPS then Normalized2(Zero2, 0.0)
    else
      var v := Vector2(a.x / l, a.y / l);
      assert v.x * l == a.x && v.y * l == a.y;
      if l * l == LengthSquared2(a) then
        calc {
          LengthSquared2(v) * (l * l);
          (v.x * l) * (v.x * l) + (v.y * l) * (v.y * l);
          LengthSquared2(a);
          1.0 * (l * l);
        }
        Normalized2(v, l)
      else Normalized2(v, l)
  }

  /** minAxis (Vector2.h:139-145). */
  function MinAxis2(a: Vector2, b: Vector2): (r: Vector2)
    ensures r.x <= a.x && r.x <= b.x && (r.x == a.x || r.x == b.x)
    ensures r.y <= a.y && r.y <= b.y && (r.y == a.y || r.y == b.y)
  {
    Vector2(if b.x < a.x then b.x else a.x, if b.y < a.y then b.y else a.y)
  }

  /** maxAxis (Vector2.h:147-153). */
  function MaxAxis2(a: Vector2, b: Vector2): (r: Vector2)
    ensures r.x >= a.x && r.x >= b.x && (r.x == a.x || r.x == b.x)
    ensures r.y >= a.y && r.y >= b.y && (r.y == a.y || r.y == b.y)
  {
    Vector2(if b.x > a.x then b.x else a.x, if b.y > a.y then b.y else a.y)
  }

  /** equal(b) (Vector2.h:180-187). */
  function Equal2(a: Vector2, b: Vector2): (r: bool)
    ensures r <==> Abs(b.x - a.x) <= EPS && Abs(b.y - a.y) <= EPS
    ensures r == (Abs(a.x - b.x) <= EPS && Abs(a.y - b.y) <= EPS)
  {
    if Abs(b.x - a.x) > EPS then false
    else if Abs(b.y - a.y) > EPS then false
    else true
  }

  /** inBound(a) (Vector2.h:198-201). */
  function InBound2(v: Vector2, a: real): (r: bool)
    ensures r <==> -a < v.x < a && -a < v.y < a
  {
    Abs(v.x) < a && Abs(v.y) < a
  }

  /** equalDir (Vector2.h:155-178). */
  function EqualDir2(a: Vector2, p: Vector2): bool
  {
    if Abs(a.x) < EPS && Abs(p.x) >= EPS then false
    else
      var kx := if Abs(a.x) < EPS then 0.0 else p.x / a.x;
      if Abs(a.y) < EPS && Abs(p.y) >= EPS then false
      else if Abs(a.y) >= EPS && kx != 0.0 && Abs(kx - p.y / a.y) >= EPS then false
      else true
  }

  /** A component near zero in `a` but not in `p` makes equalDir false. */
  lemma EqualDir2RejectsZeroMismatch(a: Vector2, p: Vector2)
    requires (Abs(a.x) < EPS && Abs(p.x) >= EPS) || (Abs(a.y) < EPS && Abs(p.y) >= EPS)
    ensures !EqualDir2(a, p)
  {
  }

  /**
   * projection (Vector2.cpp:25-33): the foot of the perpendicular, or
   * `rayPoint` (not `point`) when the direction is shorter than EPS.
   */
  function Projection2(rayDir: Vector2, rayPoint: Vector2, point: Vector2): (r: Vector2)
    ensures LengthSquared2(rayDir) <= EPS ==> r == rayPoint
    ensures LengthSquared2(rayDir) > EPS ==> Dot2(Sub2(point, r), rayDir) == 0.0
    ensures Cross2(Sub2(r, rayPoint), rayDir) == 0.0
  {
    var lsq := LengthSquared2(rayDir);
    if lsq > EPS then
      var dpi := Dot2(Sub2(point, rayPoint), rayDir) / lsq;
      var r := Add2(Scale2(rayDir, dpi), rayPoint);
      calc {
        Dot2(Sub2(point, r), rayDir);
        Dot2(Sub2(point, rayPoint), rayDir) - dpi * lsq;
        0.0;
      }
      assert Sub2(r, rayPoint) == Scale2(rayDir, dpi);
      assert (rayDir.x * dpi) * rayDir.y - (rayDir.y * dpi) * rayDir.x == 0.0;
      r
    else rayPoint
  }

  /** The out-parameters of a successful ray or line intersection. */
  datatype RayHit2 = RayHit2(point: Vector2, tA: real, tB: real)

  /** Both rays pass through the reported point at their reported parameters. */
  predicate Meets(h: RayHit2, pA: Vector2, dA: Vector2, pB: Vector2, dB: Vector2)
  {
    h.point == Add2(pA, Scale2(dA, h.tA)) && h.point == Add2(pB, Scale2(dB, h.tB))
  }

  /** The denominator of the solve that uses the y-slope of `dA`. */
  function SlopeDenominator(dA: Vector2, dB: Vector2): real
    requires dA.x != 0.0
  {
    dB.y - dB.x * (dA.y / dA.x)
  }

  /** The parameters on both lines, solved with the y-slope of `dA`. */
  function SolveWithSlope(pA: Vector2, dA: Vector2, pB: Vector2, dB: Vector2): (h: RayHit2)
    requires dA.x != 0.0 && SlopeDenominator(dA, dB) != 0.0
    ensures h.point == Add2(pA, Scale2(dA, h.tA)) && h.point == Add2(pB, Scale2(dB, h.tB))
  {
    var s := dA.y / dA.x;
    var den := SlopeDenominator(dA, dB);
    var x := pB.x - pA.x;
    var tB := (x * s + pA.y - pB.y) / den;
    var tA := (x + dB.x * tB) / dA.x;
    LinesMeet(pA, dA, pB, dB, s, den, x, tA, tB);
    RayHit2(Add2(pA, Scale2(dA, tA)), tA, tB)
  }

  /**
   * The unbounded solve shared by collisionRays and collisionLines.  When
   * |dB.x| <= EPS the y-slope of A is used (and A must not be vertical),
   * otherwise the y-slope of B with the roles of the rays exchanged; a
   * denominator within EPS of zero fails.
   */
  function SolveLines(pA: Vector2, dA: Vector2, pB: Vector2, dB: Vector2): (r: Option<RayHit2>)
    ensures Abs(dB.x) <= EPS && Abs(dA.x) <= EPS ==> r.None?
    ensures r.None? <==> CollisionLinesFails(pA, dA, pB, dB)
    ensures r.Some? ==> Meets(r.value, pA, dA, pB, dB)
  {
    if Abs(dB.x) <= EPS then
      if Abs(dA.x) <= EPS then None
      else if Abs(SlopeDenominator(dA, dB)) <= EPS then None
      else Some(SolveWithSlope(pA, dA, pB, dB))
    else
      if Abs(SlopeDenominator(dB, dA)) <= EPS then None
      else
        var h := SolveWithSlope(pB, dB, pA, dA);
        Some(RayHit2(h.point, h.tB, h.tA))
  }

  /** The algebra behind both branches: the second ray reaches the first one's point. */
  lemma LinesMeet(pA: Vector2, dA: Vector2, pB: Vector2, dB: Vector2,
                  s: real, den: real, x: real, tA: real, tB: real)
    requires dA.x != 0.0 && den != 0.0
    requires s == dA.y / dA.x && den == dB.y - dB.x * s && x == pB.x - pA.x
    requires tB == (x * s + pA.y - pB.y) / den && tA == (x + dB.x * tB) / dA.x
    ensures Add2(pA, Scale2(dA, tA)) == Add2(pB, Scale2(dB, tB))
  {
    assert dA.x * tA == x + dB.x * tB;
    assert tB * den == x * s + pA.y - pB.y;
    assert dA.y == s * dA.x;
    calc {
      pA.y + dA.y * tA;
      pA.y + s * (dA.x * tA);
      pA.y + s * (x + dB.x * tB);
      pA.y + s * x + (dB.y - den) * tB;
      pB.y + dB.y * tB;
    }
  }

  /**
   * collisionRays (Vector2.cpp:35-71): the solve above, accepted only when
   * both parameters lie within [-EPS, 1 + EPS].
   */
  function CollisionRays(pA: Vector2, dA: Vector2, pB: Vector2, dB: Vector2): (r: Option<RayHit2>)
    ensures Abs(dB.x) <= EPS && Abs(dA.x) <= EPS ==> r.None?
    ensures r.Some? ==> Meets(r.value, pA, dA, pB, dB)
    ensures r.Some? ==> -EPS <= r.value.tA <= 1.0 + EPS && -EPS <= r.value.tB <= 1.0 + EPS
  {
    match SolveLines(pA, dA, pB, dB)
    case None => None
    case Some(h) =>
      if Abs(dB.x) <= EPS then
        if h.tB < -EPS || h.tB > 1.0 + EPS then None
        else if h.tA < -EPS || h.tA > 1.0 + EPS then None
        else Some(h)
      else
        if h.tA < -EPS || h.tA > 1.0 + EPS then None
        else if h.tB < -EPS || h.tB > 1.0 + EPS then None
        else Some(h)
  }

  /**
   * collisionLines (Vector2.cpp:73-101): the same solve with no range check,
   * so it fails only on the near-zero denominators, and whenever it succeeds
   * with both parameters in range collisionRays succeeds with the same result.
   */
  function CollisionLines(pA: Vector2, dA: Vector2, pB: Vector2, dB: Vector2): (r: Option<RayHit2>)
    ensures r.Some? ==> Meets(r.value, pA, dA, pB, dB)
    ensures r.None? <==> CollisionLinesFails(pA, dA, pB, dB)
    ensures r.Some? && -EPS <= r.value.tA <= 1.0 + EPS && -EPS <= r.value.tB <= 1.0 + EPS
            ==> CollisionRays(pA, dA, pB, dB) == r
  {
    SolveLines(pA, dA, pB, dB)
  }

  /** The only ways collisionLines fails: the near-zero tests of Vector2.cpp:77-95. */
  predicate CollisionLinesFails(pA: Vector2, dA: Vector2, pB: Vector2, dB: Vector2)
  {
    if Abs(dB.x) <= EPS then Abs(dA.x) <= EPS || Abs(SlopeDenominator(dA, dB)) <= EPS
    else Abs(SlopeDenominator(dB, dA)) <= EPS
  }
}
