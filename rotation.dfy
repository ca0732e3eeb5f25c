/**
 * The body orientation (VectorMath/RotationMatrix.h): three axis vectors
 * stored inline, overwritten in place by setToIdentity and rotate.
 *
 * rotate needs std::sqrt and rotateAroundVector, whose numerics are not
 * modelled; both are passed in as function parameters, so the contracts
 * state the accept/reject decision and the re-orthogonalisation structure
 * for whatever those functions return.
 */
module Rotation {
  import opened Settings
  import opened Vector3Math

  /** The three axes of an identity matrix. */
  const IdentityAxes: seq<Vector3> :=
    [Vector3(1.0, 0.0, 0.0), Vector3(0.0, 1.0, 0.0), Vector3(0.0, 0.0, 1.0)]

  /** vectorToAxis (RotationMatrix.h:38-43): the coordinates of `v` in the frame `m`. */
  function VectorToAxis(m: seq<Vector3>, v: Vector3): (r: Vector3)
    requires |m| == 3
    ensures forall i :: 0 <= i < 3 ==> At(r, i) == Dot(v, m[i])
  {
    Vector3(Dot(v, m[0]), Dot(v, m[1]), Dot(v, m[2]))
  }

  /** vectorRotated (RotationMatrix.h:45-48): the frame applied to `v`. */
  function VectorRotated(m: seq<Vector3>, v: Vector3): Vector3
    requires |m| == 3
  {
    Add(Add(Scale(m[0], v.x), Scale(m[1], v.y)), Scale(m[2], v.z))
  }

  /** With identity axes, both maps leave every vector unchanged. */
  lemma IdentityMapsAreIdentity(v: Vector3)
    ensures VectorToAxis(IdentityAxes, v) == v
    ensures VectorRotated(IdentityAxes, v) == v
  {
  }

  /** vectorRotated is additive: it maps sums to sums. */
  lemma VectorRotatedAdditive(m: seq<Vector3>, a: Vector3, b: Vector3)
    requires |m| == 3
    ensures VectorRotated(m, Add(a, b)) == Add(VectorRotated(m, a), VectorRotated(m, b))
  {
    Distribute3(m[0].x, m[1].x, m[2].x, a, b);
    Distribute3(m[0].y, m[1].y, m[2].y, a, b);
    Distribute3(m[0].z, m[1].z, m[2].z, a, b);
  }

  /** vectorRotated is homogeneous: it maps a multiple of a vector to that multiple of its image. */
  lemma VectorRotatedHomogeneous(m: seq<Vector3>, v: Vector3, k: real)
    requires |m| == 3
    ensures VectorRotated(m, Scale(v, k)) == Scale(VectorRotated(m, v), k)
  {
    var w := Scale(v, k);
    assert w.x == v.x * k && w.y == v.y * k && w.z == v.z * k;
    Combined(m[0], m[1], m[2], v, k);
  }

  /** A combination of three axes commutes with scaling its coefficients. */
  lemma Combined(a: Vector3, b: Vector3, c: Vector3, v: Vector3, k: real)
    ensures Add(Add(Scale(a, v.x * k), Scale(b, v.y * k)), Scale(c, v.z * k))
         == Scale(Add(Add(Scale(a, v.x), Scale(b, v.y)), Scale(c, v.z)), k)
  {
    Homogeneous3(a.x, b.x, c.x, v, k);
    Homogeneous3(a.y, b.y, c.y, v, k);
    Homogeneous3(a.z, b.z, c.z, v, k);
  }

  /** One coordinate of a combination commutes with scaling. */
  lemma Homogeneous3(p: real, q: real, r: real, v: Vector3, k: real)
    ensures p * (v.x * k) + q * (v.y * k) + r * (v.z * k) == (p * v.x + q * v.y + r * v.z) * k
  {
  }

  /** One coordinate of vectorRotated distributes over a sum. */
  lemma Distribute3(p: real, q: real, r: real, a: Vector3, b: Vector3)
    ensures p * (a.x + b.x) + q * (a.y + b.y) + r * (a.z + b.z)
         == (p * a.x + q * a.y + r * a.z) + (p * b.x + q * b.y + r * b.z)
  {
  }

  /**
   * The second axis after rotate re-orthogonalises it: the rotated Y minus
   * its component along the new X, normalised with the supplied length.
   */
  function GramSchmidt(x: Vector3, y: Vector3, sqrt: real -> real): Vector3
  {
    var w := Sub(y, Scale(x, Dot(x, y)));
    Normalize(w, Length(w, sqrt)).v
  }

  /**
   * When the new X has unit length, the re-orthogonalised Y is orthogonal to
   * it whatever length normalize() divides by.
   */
  lemma GramSchmidtOrthogonal(x: Vector3, y: Vector3, sqrt: real -> real)
    requires LengthSquared(x) == 1.0
    ensures Dot(x, GramSchmidt(x, y, sqrt)) == 0.0
  {
    var w := Sub(y, Scale(x, Dot(x, y)));
    ResidualOrthogonal(y, x, Dot(x, y));
    DotSymmetric(y, x);
    DotSymmetric(w, x);
    NormalizedOrthogonal(w, x, Length(w, sqrt));
  }

  class RotationMatrix {
    /** m_axis[3]: X, Y and Z. */
    var m: seq<Vector3>

    ghost predicate Valid()
      reads this`m
    {
      |m| == 3
    }

    /** The default constructor calls setToIdentity (RotationMatrix.h:11-14). */
    constructor ()
      ensures Valid() && m == IdentityAxes
    {
      m := IdentityAxes;
    }

    /** setToIdentity (RotationMatrix.h:16-21). */
    method SetToIdentity()
      modifies this`m
      ensures Valid() && m == IdentityAxes
    {
      m := IdentityAxes;
    }

    /** operator[] (RotationMatrix.h:50-58): axis `n`. */
    function Axis(n: nat): (r: Vector3)
      reads this
      requires Valid() && n < 3
      ensures r == m[n]
    {
      m[n]
    }

    /**
     * rotate(angle) (RotationMatrix.h:60-73).  It accepts exactly when the
     * angle vector is longer than EPS; a rejected call leaves the axes as
     * they were.  An accepted call turns X and Y about the unit axis by the
     * angle's length, re-orthogonalises Y against X and sets Z to X x Y.
     */
    method Rotate(angle: Vector3, sqrt: real -> real, around: (Vector3, Vector3, real) -> Vector3)
      returns (ok: bool)
      requires Valid()
      modifies this`m
      ensures Valid()
      ensures ok <==> Abs(Length(angle, sqrt)) > EPS
      ensures !ok ==> m == old(m)
      ensures ok ==> m == Turned(old(m), Div(angle, Length(angle, sqrt)), Length(angle, sqrt), sqrt, around)
    {
      var length := Length(angle, sqrt);
      ok := Abs(length) > EPS;
      if ok {
        m := Turned(m, Div(angle, length), length, sqrt, around);
      }
    }

    /**
     * rotate(angle, dt) (RotationMatrix.h:75-89): the same decision on the
     * angle's length, but the turn is by length * dt.
     */
    method RotateDt(angle: Vector3, dt: real, sqrt: real -> real, around: (Vector3, Vector3, real) -> Vector3)
      returns (ok: bool)
      requires Valid()
      modifies this`m
      ensures Valid()
      ensures ok <==> Turns(angle, sqrt)
      ensures m == RotatedDt(old(m), angle, dt, sqrt, around)
    {
      ok := Turns(angle, sqrt);
      m := RotatedDt(m, angle, dt, sqrt, around);
    }
  }

  /** The test both rotate overloads make: the angle vector is longer than EPS. */
  predicate Turns(angle: Vector3, sqrt: real -> real)
  {
    Abs(Length(angle, sqrt)) > EPS
  }

  /**
   * The axes rotate(angle, dt) leaves: turned about the unit angle axis by
   * length * dt when the angle is accepted, untouched otherwise.
   */
  function RotatedDt(m: seq<Vector3>, angle: Vector3, dt: real, sqrt: real -> real,
                     around: (Vector3, Vector3, real) -> Vector3): (r: seq<Vector3>)
    requires |m| == 3
    ensures |r| == 3
    ensures !Turns(angle, sqrt) ==> r == m
  {
    var length := Length(angle, sqrt);
    if Abs(length) > EPS then Turned(m, Div(angle, length), length * dt, sqrt, around) else m
  }

  /**
   * The frame written by an accepted rotate: X turned about the unit angle
   * axis, Y turned and re-orthogonalised against X, and Z = X x Y.
   */
  function Turned(m: seq<Vector3>, baseAxis: Vector3, turn: real, sqrt: real -> real,
                  around: (Vector3, Vector3, real) -> Vector3): (r: seq<Vector3>)
    requires |m| == 3
    ensures |r| == 3
    ensures r[0] == around(m[0], baseAxis, turn)
    ensures r[1] == GramSchmidt(r[0], around(m[1], baseAxis, turn), sqrt)
    ensures r[2] == Cross(r[0], r[1])
  {
    var x := around(m[0], baseAxis, turn);
    var y := GramSchmidt(x, around(m[1], baseAxis, turn), sqrt);
    [x, y, Cross(x, y)]
  }

  /** After an accepted rotate the new Z axis is orthogonal to the new X and Y. */
  lemma TurnedOrthogonal(m: seq<Vector3>, baseAxis: Vector3, turn: real, sqrt: real -> real,
                         around: (Vector3, Vector3, real) -> Vector3)
    requires |m| == 3
    ensures var r := Turned(m, baseAxis, turn, sqrt, around);
      Dot(r[0], r[2]) == 0.0 && Dot(r[1], r[2]) == 0.0
  {
    var r := Turned(m, baseAxis, turn, sqrt, around);
    CrossOrthogonal(r[0], r[1]);
  }
}
