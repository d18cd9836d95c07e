/** Homogeneous 4-tuples (x, y, z, w) of src/vectors.rs, over exact reals.
    The tag w is 1 for a point and 0 for a vector; the source's runtime
    panics (point + point, scaling a point, crossing two points) become
    preconditions. */
module Vectors {

  datatype Tuple = Tuple(x: real, y: real, z: real, w: real)

  predicate IsPoint(t: Tuple) { t.w == 1.0 }
  predicate IsVector(t: Tuple) { t.w == 0.0 }

  /** True when `r` is a square root of `x`: the value a float `sqrt`
      returns, taken as a parameter since the model has no real square root. */
  predicate IsSqrt(x: real, r: real) { r >= 0.0 && r * r == x }

  /** Only zero squares to zero, so the root of 0 is 0. */
  lemma SquareZero(r: real)
    ensures r * r == 0.0 <==> r == 0.0
  {
    if r != 0.0 {
      var q := 1.0 / r;
      assert r * q == 1.0;
      assert (r * r) * (q * q) == (r * q) * (r * q);
    }
  }

  function Point(x: real, y: real, z: real): (p: Tuple)
    ensures IsPoint(p) && p.x == x && p.y == y && p.z == z
  {
    Tuple(x, y, z, 1.0)
  }

  function Vector(x: real, y: real, z: real): (v: Tuple)
    ensures IsVector(v) && v.x == x && v.y == y && v.z == z
  {
    Tuple(x, y, z, 0.0)
  }

  /** The squared Euclidean length of (x, y, z); w is ignored. */
  function SqLength(t: Tuple): real
  {
    t.x * t.x + t.y * t.y + t.z * t.z
  }

  /** Divides x, y, z by the magnitude `m` (supplied: the float square root
      of SqLength(t)); w is kept. */
  function Normalize(t: Tuple, m: real): (n: Tuple)
    requires m > 0.0 && IsSqrt(SqLength(t), m)
    ensures n.w == t.w
  {
    Tuple(t.x / m, t.y / m, t.z / m, t.w)
  }

  /** The full four-component dot product, w included; when either operand
      is a vector the w term vanishes and it is the familiar 3-D product. */
  function Dot(a: Tuple, b: Tuple): (d: real)
    ensures IsVector(a) || IsVector(b) ==> d == a.x * b.x + a.y * b.y + a.z * b.z
  {
    a.x * b.x + a.y * b.y + a.z * b.z + a.w * b.w
  }

  function Cross(a: Tuple, b: Tuple): (c: Tuple)
    requires !(IsPoint(a) && IsPoint(b))
    ensures IsVector(c)
  {
    Tuple(a.y * b.z - a.z * b.y, a.z * b.x - a.x * b.z, a.x * b.y - a.y * b.x, 0.0)
  }

  /** Component-wise sum, w included; two points cannot be added. */
  function Add(a: Tuple, b: Tuple): (s: Tuple)
    requires !(IsPoint(a) && IsPoint(b))
    ensures s.w == a.w + b.w
    ensures IsVector(a) && IsVector(b) ==> IsVector(s)
    ensures IsVector(a) && IsPoint(b) ==> IsPoint(s)
    ensures IsPoint(a) && IsVector(b) ==> IsPoint(s)
  {
    Tuple(a.x + b.x, a.y + b.y, a.z + b.z, a.w + b.w)
  }

  /** Component-wise difference, w included; never rejected. */
  function Sub(a: Tuple, b: Tuple): (d: Tuple)
    ensures d.w == a.w - b.w
  {
    Tuple(a.x - b.x, a.y - b.y, a.z - b.z, a.w - b.w)
  }

  /** Negates x, y and z and keeps w. */
  function Neg(a: Tuple): (n: Tuple)
    ensures n.w == a.w
  {
    Tuple(-a.x, -a.y, -a.z, a.w)
  }

  /** `s * a`: scales x, y, z and keeps w; a point cannot be scaled. */
  function ScaleLeft(s: real, a: Tuple): (r: Tuple)
    requires !IsPoint(a)
    ensures r.w == a.w
  {
    Tuple(s * a.x, s * a.y, s * a.z, a.w)
  }

  /** `a * s`: as ScaleLeft, with the scalar on the right. */
  function ScaleRight(a: Tuple, s: real): (r: Tuple)
    requires !IsPoint(a)
    ensures r.w == a.w
  {
    Tuple(a.x * s, a.y * s, a.z * s, a.w)
  }

  /** `a / s`: divides x, y, z and keeps w; a point cannot be divided.
      Division by zero (an infinity or NaN in floats) is excluded. */
  function Div(a: Tuple, s: real): (r: Tuple)
    requires !IsPoint(a) && s != 0.0
    ensures r.w == a.w
  {
    Tuple(a.x / s, a.y / s, a.z / s, a.w)
  }

  // ---- Properties ----

  /** Adding two tuples is rejected exactly when both are points; a vector
      plus a point is the point moved by the vector. */
  lemma AddPointVector(v: Tuple, p: Tuple)
    requires IsVector(v) && IsPoint(p)
    ensures Add(v, p) == Add(p, v) == Point(p.x + v.x, p.y + v.y, p.z + v.z)
  {
  }

  /** How w flows through subtraction: point - point is a vector,
      point - vector is a point, vector - vector is a vector, but
      vector - point has w = -1, which is neither. */
  lemma SubKinds(a: Tuple, b: Tuple)
    ensures IsPoint(a) && IsPoint(b) ==> IsVector(Sub(a, b))
    ensures IsPoint(a) && IsVector(b) ==> IsPoint(Sub(a, b))
    ensures IsVector(a) && IsVector(b) ==> IsVector(Sub(a, b))
    ensures IsVector(a) && IsPoint(b) ==> Sub(a, b).w == -1.0
  {
  }

  /** Subtracting then adding back `b` restores `a` whenever the addition is allowed. */
  lemma SubAddRoundTrip(a: Tuple, b: Tuple)
    requires !(IsPoint(Sub(a, b)) && IsPoint(b))
    ensures Add(Sub(a, b), b) == a
  {
  }

  /** -v + v and v - v are the zero vector for a vector v. */
  lemma NegCancels(v: Tuple)
    requires IsVector(v)
    ensures Add(Neg(v), v) == Vector(0.0, 0.0, 0.0)
    ensures Sub(v, v) == Vector(0.0, 0.0, 0.0)
  {
  }

  /** Negation is its own inverse. */
  lemma NegInvolution(a: Tuple)
    ensures Neg(Neg(a)) == a
  {
  }

  /** Scaling from the left and from the right agree. */
  lemma ScaleCommutes(s: real, a: Tuple)
    requires !IsPoint(a)
    ensures ScaleLeft(s, a) == ScaleRight(a, s)
  {
  }

  /** Dividing by s undoes scaling by s. */
  lemma DivUndoesScale(a: Tuple, s: real)
    requires !IsPoint(a) && s != 0.0
    ensures Div(ScaleRight(a, s), s) == a
  {
  }

  /** The dot product is symmetric, and a tuple's product with itself is
      never negative. */
  lemma DotSymmetric(a: Tuple, b: Tuple)
    ensures Dot(a, b) == Dot(b, a)
  {
  }

  lemma DotSelfNonNegative(t: Tuple)
    ensures Dot(t, t) >= 0.0
  {
    assert t.x * t.x >= 0.0 && t.y * t.y >= 0.0 && t.z * t.z >= 0.0 && t.w * t.w >= 0.0;
  }

  /** The cross product is orthogonal to both operands and anti-commutative. */
  lemma CrossOrthogonal(a: Tuple, b: Tuple)
    requires !(IsPoint(a) && IsPoint(b))
    ensures Dot(Cross(a, b), a) == 0.0 && Dot(Cross(a, b), b) == 0.0
    ensures Cross(b, a) == Neg(Cross(a, b))
  {
  }

  /** Normalising keeps w, so a vector stays a vector and a point a point. */
  lemma NormalizeKeepsKind(t: Tuple, m: real)
    requires m > 0.0 && IsSqrt(SqLength(t), m)
    ensures IsVector(Normalize(t, m)) <==> IsVector(t)
    ensures IsPoint(Normalize(t, m)) <==> IsPoint(t)
  {
  }

  /** Normalising only rescales: the magnitude times the result gives the
      input back, so the direction is kept. */
  lemma NormalizeScalesBack(t: Tuple, m: real)
    requires m > 0.0 && IsSqrt(SqLength(t), m)
    ensures var n := Normalize(t, m);
      m * n.x == t.x && m * n.y == t.y && m * n.z == t.z && n.w == t.w
  {
  }

  /** A normalised tuple has length 1. */
  lemma UnitLength(t: Tuple, m: real)
    requires m > 0.0 && IsSqrt(SqLength(t), m)
    ensures SqLength(Normalize(t, m)) == 1.0
  {
    var n := Normalize(t, m);
    assert n.x * m == t.x && n.y * m == t.y && n.z * m == t.z;
    calc {
      SqLength(n) * (m * m);
      (n.x * m) * (n.x * m) + (n.y * m) * (n.y * m) + (n.z * m) * (n.z * m);
      SqLength(t);
      m * m;
    }
  }

  lemma AddExample1()
    ensures Add(Vector(1.0, 2.0, 3.0), Vector(2.0, 3.0, 5.0)) == Vector(3.0, 5.0, 8.0)
  {
  }
  lemma AddExample2()
    ensures Add(Vector(1.0, 2.0, 3.0), Point(2.0, 3.0, 5.0)) == Point(3.0, 5.0, 8.0)
  {
  }
  lemma SubExample()
    ensures Sub(Vector(1.0, 2.0, 3.0), Vector(2.0, 3.0, 5.0)) == Vector(-1.0, -1.0, -2.0)
  {
  }

  /** The scalings pinned by the source's tests. */
  lemma ScaleExamples()
    ensures ScaleLeft(3.0, Vector(1.0, 2.0, 3.0)) == Vector(3.0, 6.0, 9.0)
    ensures ScaleRight(Vector(1.0, 2.0, 3.0), 3.0) == Vector(3.0, 6.0, 9.0)
    ensures Div(Vector(3.0, 6.0, 9.0), 3.0) == Vector(1.0, 2.0, 3.0)
  {
  }

  /** The products pinned by the source's tests. */
  lemma ProductExamples()
    ensures Dot(Vector(1.0, 2.0, 3.0), Vector(2.0, 3.0, 4.0)) == 20.0
    ensures Cross(Vector(1.0, 2.0, 3.0), Vector(2.0, 3.0, 4.0)) == Vector(-1.0, 2.0, -1.0)
  {
  }
}
