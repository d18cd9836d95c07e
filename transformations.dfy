/** The transform factories of src/transformations.rs: literal 4x4 matrices
    built through the matrix constructor. The cosine and sine that the
    rotations compute from an angle are taken as parameters. */
module Transformations {
  import opened Vectors
  import opened Matrix

  /** `M::new(rows).unwrap()` for four rows of four entries: the constructor
      cannot fail on such data, so the unwrap never panics. */
  function Build(rows: seq<seq<real>>): (m: M)
    requires |rows| == 4 && forall i :: 0 <= i < 4 ==> |rows[i]| == 4
    ensures Is4x4(m) && m.data == rows
    ensures New(rows) == Ok(m)
  {
    NewCheckedAgrees(rows);
    New(rows).value
  }

  function Translation(x: real, y: real, z: real): (m: M)
    ensures Is4x4(m) && Affine(m)
  {
    Build([[1.0, 0.0, 0.0, x],
           [0.0, 1.0, 0.0, y],
           [0.0, 0.0, 1.0, z],
           [0.0, 0.0, 0.0, 1.0]])
  }

  function Scaling(x: real, y: real, z: real): (m: M)
    ensures Is4x4(m) && Affine(m)
  {
    Build([[x, 0.0, 0.0, 0.0],
           [0.0, y, 0.0, 0.0],
           [0.0, 0.0, z, 0.0],
           [0.0, 0.0, 0.0, 1.0]])
  }

  /** Rotation about the x axis by the angle whose cosine is `c` and sine `s`. */
  function RotationX(c: real, s: real): (m: M)
    ensures Is4x4(m) && Affine(m)
  {
    Build([[1.0, 0.0, 0.0, 0.0],
           [0.0, c, -s, 0.0],
           [0.0, s, c, 0.0],
           [0.0, 0.0, 0.0, 1.0]])
  }

  function RotationY(c: real, s: real): (m: M)
    ensures Is4x4(m) && Affine(m)
  {
    Build([[c, 0.0, s, 0.0],
           [0.0, 1.0, 0.0, 0.0],
           [-s, 0.0, c, 0.0],
           [0.0, 0.0, 0.0, 1.0]])
  }

  function RotationZ(c: real, s: real): (m: M)
    ensures Is4x4(m) && Affine(m)
  {
    Build([[c, -s, 0.0, 0.0],
           [s, c, 0.0, 0.0],
           [0.0, 0.0, 1.0, 0.0],
           [0.0, 0.0, 0.0, 1.0]])
  }

  function Shearing(xy: real, xz: real, yx: real, yz: real, zx: real, zy: real): (m: M)
    ensures Is4x4(m) && Affine(m)
  {
    Build([[1.0, xy, xz, 0.0],
           [yx, 1.0, yz, 0.0],
           [zx, zy, 1.0, 0.0],
           [0.0, 0.0, 0.0, 1.0]])
  }

  // ---- Action on tuples ----

  /** A translation moves a tuple by (x, y, z) times its w: points move,
      vectors do not. */
  lemma TranslationAction(x: real, y: real, z: real, t: Tuple)
    ensures MulTuple(Translation(x, y, z), t) == Tuple(t.x + x * t.w, t.y + y * t.w, t.z + z * t.w, t.w)
  {
    MulTupleEntries(Translation(x, y, z), t);
  }

  lemma TranslationMovesPoint(x: real, y: real, z: real, p: Tuple)
    requires IsPoint(p)
    ensures MulTuple(Translation(x, y, z), p) == Point(p.x + x, p.y + y, p.z + z)
  {
    TranslationAction(x, y, z, p);
  }

  lemma TranslationKeepsVector(x: real, y: real, z: real, v: Tuple)
    requires IsVector(v)
    ensures MulTuple(Translation(x, y, z), v) == v
  {
    TranslationAction(x, y, z, v);
  }

  /** A scaling multiplies each coordinate of points and vectors alike. */
  lemma ScalingAction(x: real, y: real, z: real, t: Tuple)
    ensures MulTuple(Scaling(x, y, z), t) == Tuple(x * t.x, y * t.y, z * t.z, t.w)
  {
    MulTupleEntries(Scaling(x, y, z), t);
  }

  lemma ShearingAction(xy: real, xz: real, yx: real, yz: real, zx: real, zy: real, t: Tuple)
    ensures MulTuple(Shearing(xy, xz, yx, yz, zx, zy), t)
         == Tuple(t.x + xy * t.y + xz * t.z, yx * t.x + t.y + yz * t.z, zx * t.x + zy * t.y + t.z, t.w)
  {
    MulTupleEntries(Shearing(xy, xz, yx, yz, zx, zy), t);
  }

  lemma RotationXAction(c: real, s: real, t: Tuple)
    ensures MulTuple(RotationX(c, s), t) == Tuple(t.x, c * t.y - s * t.z, s * t.y + c * t.z, t.w)
  {
    MulTupleEntries(RotationX(c, s), t);
  }

  lemma RotationYAction(c: real, s: real, t: Tuple)
    ensures MulTuple(RotationY(c, s), t) == Tuple(c * t.x + s * t.z, t.y, c * t.z - s * t.x, t.w)
  {
    MulTupleEntries(RotationY(c, s), t);
  }

  lemma RotationZAction(c: real, s: real, t: Tuple)
    ensures MulTuple(RotationZ(c, s), t) == Tuple(c * t.x - s * t.y, s * t.x + c * t.y, t.z, t.w)
  {
    MulTupleEntries(RotationZ(c, s), t);
  }

  /** (c*u - s*v)^2 + (s*u + c*v)^2 == u^2 + v^2 when c^2 + s^2 == 1. */
  lemma PlaneRotationLength(c: real, s: real, u: real, v: real)
    requires c * c + s * s == 1.0
    ensures (c * u - s * v) * (c * u - s * v) + (s * u + c * v) * (s * u + c * v) == u * u + v * v
  {
    assert (c * u - s * v) * (c * u - s * v) + (s * u + c * v) * (s * u + c * v)
        == (c * c + s * s) * (u * u + v * v);
  }

  /** A rotation about x keeps the length of (x, y, z). */
  lemma RotationXKeepsLength(c: real, s: real, t: Tuple)
    requires c * c + s * s == 1.0
    ensures SqLength(MulTuple(RotationX(c, s), t)) == SqLength(t)
  {
    RotationXAction(c, s, t);
    PlaneRotationLength(c, s, t.y, t.z);
  }

  // ---- Inverses ----

  lemma TranslationInverse(x: real, y: real, z: real)
    ensures IsInverse(Translation(x, y, z), Translation(-x, -y, -z))
  {
    var m, n := Translation(x, y, z), Translation(-x, -y, -z);
    forall j | 0 <= j < 4
      ensures MulTuple(m, MulTuple(n, Basis(j))) == Basis(j)
      ensures MulTuple(n, MulTuple(m, Basis(j))) == Basis(j)
    {
      TranslationAction(-x, -y, -z, Basis(j));
      TranslationAction(x, y, z, MulTuple(n, Basis(j)));
      TranslationAction(x, y, z, Basis(j));
      TranslationAction(-x, -y, -z, MulTuple(m, Basis(j)));
    }
    InverseByAction(m, n);
  }

  lemma ScalingInverse(x: real, y: real, z: real)
    requires x != 0.0 && y != 0.0 && z != 0.0
    ensures IsInverse(Scaling(x, y, z), Scaling(1.0 / x, 1.0 / y, 1.0 / z))
  {
    var m, n := Scaling(x, y, z), Scaling(1.0 / x, 1.0 / y, 1.0 / z);
    forall j | 0 <= j < 4
      ensures MulTuple(m, MulTuple(n, Basis(j))) == Basis(j)
      ensures MulTuple(n, MulTuple(m, Basis(j))) == Basis(j)
    {
      ScalingAction(1.0 / x, 1.0 / y, 1.0 / z, Basis(j));
      ScalingAction(x, y, z, MulTuple(n, Basis(j)));
      ScalingAction(x, y, z, Basis(j));
      ScalingAction(1.0 / x, 1.0 / y, 1.0 / z, MulTuple(m, Basis(j)));
    }
    InverseByAction(m, n);
  }

  /** Whatever inverse the matrix library returns for a translation, it is
      the opposite translation, and applying it undoes the translation. */
  lemma TranslationUndone(x: real, y: real, z: real, inv: M, t: Tuple)
    requires IsInverse(Translation(x, y, z), inv)
    ensures inv == Translation(-x, -y, -z)
    ensures MulTuple(inv, MulTuple(Translation(x, y, z), t)) == t
  {
    TranslationInverse(x, y, z);
    InverseUnique(Translation(x, y, z), inv, Translation(-x, -y, -z));
    InverseUndoes(Translation(x, y, z), inv, t);
  }

  lemma ScalingUndone(x: real, y: real, z: real, inv: M, t: Tuple)
    requires x != 0.0 && y != 0.0 && z != 0.0
    requires IsInverse(Scaling(x, y, z), inv)
    ensures inv == Scaling(1.0 / x, 1.0 / y, 1.0 / z)
    ensures MulTuple(inv, MulTuple(Scaling(x, y, z), t)) == t
  {
    ScalingInverse(x, y, z);
    InverseUnique(Scaling(x, y, z), inv, Scaling(1.0 / x, 1.0 / y, 1.0 / z));
    InverseUndoes(Scaling(x, y, z), inv, t);
  }

  /** Applying A, then B, then C one at a time equals applying C * B * A once. */
  lemma ChainedTransforms(a: M, b: M, c: M, p: Tuple)
    requires Is4x4(a) && Is4x4(b) && Is4x4(c)
    ensures MulTuple(Mul(Mul(c, b), a), p) == MulTuple(c, MulTuple(b, MulTuple(a, p)))
  {
    MulTupleCompose(Mul(c, b), a, p);
    MulTupleCompose(c, b, MulTuple(a, p));
  }

  // ---- The values pinned by the source's tests ----

  lemma TranslationExample()
    ensures MulTuple(Translation(5.0, -3.0, 2.0), Point(-3.0, 4.0, 5.0)) == Point(2.0, 1.0, 7.0)
  {
    TranslationMovesPoint(5.0, -3.0, 2.0, Point(-3.0, 4.0, 5.0));
  }

  lemma TranslationInverseExample(inv: M)
    requires IsInverse(Translation(5.0, -3.0, 2.0), inv)
    ensures MulTuple(inv, Point(2.0, 1.0, 7.0)) == Point(-3.0, 4.0, 5.0)
  {
    TranslationExample();
    TranslationUndone(5.0, -3.0, 2.0, inv, Point(-3.0, 4.0, 5.0));
  }

  lemma ScalingInverseExample(inv: M)
    requires IsInverse(Scaling(2.0, 3.0, 4.0), inv)
    ensures MulTuple(inv, Vector(-4.0, 6.0, 8.0)) == Vector(-2.0, 2.0, 2.0)
  {
    ScalingAction(2.0, 3.0, 4.0, Vector(-2.0, 2.0, 2.0));
    ScalingUndone(2.0, 3.0, 4.0, inv, Vector(-2.0, 2.0, 2.0));
  }

  lemma ReflectionExample()
    ensures MulTuple(Scaling(-1.0, 1.0, 1.0), Vector(2.0, 3.0, 4.0)) == Vector(-2.0, 3.0, 4.0)
  {
    ScalingAction(-1.0, 1.0, 1.0, Vector(2.0, 3.0, 4.0));
  }

  lemma ShearingExample()
    ensures MulTuple(Shearing(1.0, 0.0, 0.0, 0.0, 0.0, 0.0), Vector(2.0, 3.0, 4.0)) == Vector(5.0, 3.0, 4.0)
  {
    ShearingAction(1.0, 0.0, 0.0, 0.0, 0.0, 0.0, Vector(2.0, 3.0, 4.0));
  }

  /** Quarter turns (cosine 0, sine 1) about each axis. */
  lemma QuarterTurnExamples()
    ensures MulTuple(RotationX(0.0, 1.0), Point(0.0, 1.0, 0.0)) == Point(0.0, 0.0, 1.0)
    ensures MulTuple(RotationY(0.0, 1.0), Point(0.0, 0.0, 1.0)) == Point(1.0, 0.0, 0.0)
    ensures MulTuple(RotationZ(0.0, 1.0), Point(0.0, 1.0, 0.0)) == Point(-1.0, 0.0, 0.0)
  {
    RotationXAction(0.0, 1.0, Point(0.0, 1.0, 0.0));
    RotationYAction(0.0, 1.0, Point(0.0, 0.0, 1.0));
    RotationZAction(0.0, 1.0, Point(0.0, 1.0, 0.0));
  }

  /** Rotate a quarter turn about x, scale by 5, translate by (10, 5, 7),
      one at a time. */
  lemma SequenceSteps()
    ensures MulTuple(RotationX(0.0, 1.0), Point(1.0, 0.0, 1.0)) == Point(1.0, -1.0, 0.0)
    ensures MulTuple(Scaling(5.0, 5.0, 5.0), Point(1.0, -1.0, 0.0)) == Point(5.0, -5.0, 0.0)
    ensures MulTuple(Translation(10.0, 5.0, 7.0), Point(5.0, -5.0, 0.0)) == Point(15.0, 0.0, 7.0)
  {
    RotationXAction(0.0, 1.0, Point(1.0, 0.0, 1.0));
    ScalingAction(5.0, 5.0, 5.0, Point(1.0, -1.0, 0.0));
    TranslationMovesPoint(10.0, 5.0, 7.0, Point(5.0, -5.0, 0.0));
  }

  /** ... and the same with the product of the three applied once. */
  lemma SequenceExample()
    ensures MulTuple(Mul(Mul(Translation(10.0, 5.0, 7.0), Scaling(5.0, 5.0, 5.0)), RotationX(0.0, 1.0)),
                     Point(1.0, 0.0, 1.0))
         == Point(15.0, 0.0, 7.0)
  {
    SequenceSteps();
    ChainedTransforms(RotationX(0.0, 1.0), Scaling(5.0, 5.0, 5.0), Translation(10.0, 5.0, 7.0), Point(1.0, 0.0, 1.0));
  }
}
