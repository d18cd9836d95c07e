/** Rays of src/ray.rs: an origin and a direction, walked along by a
    parameter t and carried through a 4x4 matrix. */
module Rays {
  import opened Vectors
  import opened Matrix
  import opened Transformations

  datatype Ray = Ray(origin: Tuple, direction: Tuple)

  /** `origin + t * direction`. The scalar product panics on a point, so the
      direction must not be one; the addition's own guard then never fires. */
  function Position(r: Ray, t: real): (p: Tuple)
    requires !IsPoint(r.direction)
    ensures IsPoint(r.origin) && IsVector(r.direction) ==> IsPoint(p)
    ensures p.w == r.origin.w + r.direction.w
  {
    Add(r.origin, ScaleLeft(t, r.direction))
  }

  /** Both components carried through `m`, each on its own. A matrix whose
      last row is (0, 0, 0, 1), as every transform factory builds, keeps the
      kind of both: a point origin stays a point, a vector direction a vector. */
  function Transform(r: Ray, m: M): (q: Ray)
    requires Is4x4(m)
    ensures Affine(m) ==> q.origin.w == r.origin.w && q.direction.w == r.direction.w
  {
    assert Affine(m) ==> MulTuple(m, r.origin).w == r.origin.w && MulTuple(m, r.direction).w == r.direction.w by {
      if Affine(m) {
        AffineKeepsW(m, r.origin);
        AffineKeepsW(m, r.direction);
      }
    }
    Ray(MulTuple(m, r.origin), MulTuple(m, r.direction))
  }

  // ---- Properties ----

  /** Position is linear in t along a vector direction: the offset from the
      origin is t times the direction, so t = 0 is the origin itself. */
  lemma PositionOffset(r: Ray, t: real)
    requires IsVector(r.direction)
    ensures Sub(Position(r, t), r.origin) == ScaleLeft(t, r.direction)
    ensures Position(r, 0.0) == r.origin
  {
  }

  /** Walking s and then t more is walking s + t. */
  lemma PositionAdditive(r: Ray, s: real, t: real)
    requires IsVector(r.direction)
    ensures Position(Ray(Position(r, s), r.direction), t) == Position(r, s + t)
  {
  }

  /** With a direction that is neither a point nor a vector (w outside {0, 1}),
      position(0) is not the origin: the w tags add up. */
  lemma PositionZeroNeedsVector(r: Ray)
    requires !IsPoint(r.direction)
    ensures Position(r, 0.0) == r.origin <==> IsVector(r.direction)
  {
  }

  lemma PositionExample()
    ensures Position(Ray(Point(2.0, 3.0, 4.0), Vector(1.0, 0.0, 0.0)), 2.5) == Point(4.5, 3.0, 4.0)
  {
    assert ScaleLeft(2.5, Vector(1.0, 0.0, 0.0)) == Vector(2.5, 0.0, 0.0);
  }

  lemma PositionBackwardsExample()
    ensures Position(Ray(Point(2.0, 3.0, 4.0), Vector(1.0, 0.0, 0.0)), -1.0) == Point(1.0, 3.0, 4.0)
  {
    assert ScaleLeft(-1.0, Vector(1.0, 0.0, 0.0)) == Vector(-1.0, 0.0, 0.0);
  }

  /** Transforming by the identity changes nothing. */
  lemma TransformIdentity(r: Ray)
    ensures Transform(r, Identity(4)) == r
  {
    MulTupleIdentity(r.origin);
    MulTupleIdentity(r.direction);
  }

  /** Transforming by B after A is transforming once by B * A. */
  lemma TransformCompose(r: Ray, a: M, b: M)
    requires Is4x4(a) && Is4x4(b)
    ensures Transform(Transform(r, a), b) == Transform(r, Mul(b, a))
  {
    MulTupleCompose(b, a, r.origin);
    MulTupleCompose(b, a, r.direction);
  }

  /** Transforming by a matrix and then by its inverse gives the ray back. */
  lemma TransformUndone(r: Ray, m: M, inv: M)
    requires IsInverse(m, inv)
    ensures Transform(Transform(r, m), inv) == r
  {
    InverseUndoes(m, inv, r.origin);
    InverseUndoes(m, inv, r.direction);
  }

  /** A translation moves a point origin and leaves a vector direction alone. */
  lemma TransformTranslation(r: Ray, x: real, y: real, z: real)
    requires IsPoint(r.origin) && IsVector(r.direction)
    ensures Transform(r, Translation(x, y, z))
         == Ray(Point(r.origin.x + x, r.origin.y + y, r.origin.z + z), r.direction)
  {
    TranslationMovesPoint(x, y, z, r.origin);
    TranslationKeepsVector(x, y, z, r.direction);
  }

  /** A scaling scales both origin and direction. */
  lemma TransformScaling(r: Ray, x: real, y: real, z: real)
    requires IsPoint(r.origin) && IsVector(r.direction)
    ensures Transform(r, Scaling(x, y, z))
         == Ray(Point(x * r.origin.x, y * r.origin.y, z * r.origin.z),
                Vector(x * r.direction.x, y * r.direction.y, z * r.direction.z))
  {
    ScalingAction(x, y, z, r.origin);
    ScalingAction(x, y, z, r.direction);
  }

  /** A transform whose last row keeps w commutes with walking along the
      ray: the transformed ray walks to the transformed point. */
  lemma TransformPosition(r: Ray, m: M, t: real)
    requires Is4x4(m) && Affine(m)
    requires IsPoint(r.origin) && IsVector(r.direction)
    ensures IsVector(Transform(r, m).direction)
    ensures Position(Transform(r, m), t) == MulTuple(m, Position(r, t))
  {
    AffineKeepsW(m, r.origin);
    AffineKeepsW(m, r.direction);
    MulTupleLinear(m, r.origin, r.direction, t);
    assert Position(r, t) == Combine(r.origin, r.direction, t);
    var q := Transform(r, m);
    assert Position(q, t) == Combine(q.origin, q.direction, t);
  }
}
