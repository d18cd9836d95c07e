/** The unit sphere of src/geometries.rs. A sphere keeps its transform, the
    transform's inverse and the inverse's transpose side by side; only
    `SetTransform` writes them, so they stay consistent (`Valid`). A ray is
    intersected in object space, where the sphere is the unit sphere at the
    origin, by solving a quadratic in t. The float square root is supplied
    as a parameter characterised by IsSqrt. The sphere's id (a random UUID
    in the source) is a number chosen by the caller. */
module Geometries {
  import opened Vectors
  import opened Matrix
  import opened Transformations
  import opened Rays
  import opened Intersections

  const Origin := Point(0.0, 0.0, 0.0)

  /** The quadratic a t^2 + b t + c of a ray against the unit sphere. */
  function SphereToRay(r: Ray): Tuple { Sub(r.origin, Origin) }
  function QuadA(r: Ray): real { Dot(r.direction, r.direction) }
  function QuadB(r: Ray): real { 2.0 * Dot(r.direction, SphereToRay(r)) }
  function QuadC(r: Ray): real { Dot(SphereToRay(r), SphereToRay(r)) - 1.0 }
  function Discriminant(r: Ray): real { QuadB(r) * QuadB(r) - 4.0 * QuadA(r) * QuadC(r) }

  /** The quadratic formula as `intersects` applies it: nothing when the
      discriminant is negative, otherwise t1 = (-b - root) / 2a and
      t2 = (-b + root) / 2a, both tagged with the sphere's id. The two
      coincide exactly when the root, and so the discriminant, is zero: the
      tangent case. */
  function Solve(id: nat, a: real, b: real, c: real, root: real): (xs: seq<Intersection>)
    requires a > 0.0
    requires b * b - 4.0 * a * c >= 0.0 ==> IsSqrt(b * b - 4.0 * a * c, root)
    ensures |xs| == 0 <==> b * b - 4.0 * a * c < 0.0
    ensures |xs| != 0 ==> |xs| == 2 && xs[0].objectId == id && xs[1].objectId == id
    ensures |xs| == 2 ==> xs[0].t <= xs[1].t
    ensures |xs| == 2 ==> (xs[0].t == xs[1].t <==> root == 0.0)
    ensures |xs| == 2 ==> (xs[0].t == xs[1].t <==> b * b - 4.0 * a * c == 0.0)
  {
    if b * b - 4.0 * a * c < 0.0 then []
    else
      OrderedRoots(a, b, root);
      SquareZero(root);
      [Intersection(id, (-b - root) / (2.0 * a)), Intersection(id, (-b + root) / (2.0 * a))]
  }

  /** The intersection rule in object space: the ray's quadratic solved. A
      zero direction (a == 0, a division by zero in the source) is excluded. */
  function Intersect(id: nat, r: Ray, root: real): (xs: seq<Intersection>)
    requires QuadA(r) != 0.0
    requires Discriminant(r) >= 0.0 ==> IsSqrt(Discriminant(r), root)
    ensures |xs| == 0 <==> Discriminant(r) < 0.0
    ensures |xs| != 0 ==> |xs| == 2 && xs[0].objectId == id && xs[1].objectId == id
    ensures |xs| == 2 ==> xs[0].t <= xs[1].t
    ensures |xs| == 2 ==> (xs[0].t == xs[1].t <==> root == 0.0)
    ensures |xs| == 2 ==> (xs[0].t == xs[1].t <==> Discriminant(r) == 0.0)
  {
    DotSelfNonNegative(r.direction);
    Solve(id, QuadA(r), QuadB(r), QuadC(r), root)
  }

  class Sphere {
    const id: nat
    var transform: M
    var transformInv: M
    var transformInvT: M

    /** The three matrices agree: the second is the inverse of the first and
        the third is the transpose of the second. */
    ghost predicate Valid()
      reads this
    {
      IsInverse(transform, transformInv) && transformInvT == Transpose(transformInv)
    }

    /** `Sphere::new`: all three matrices are the 4x4 identity. */
    constructor(id: nat)
      ensures Valid() && this.id == id
      ensures transform == Identity(4) && transformInv == Identity(4) && transformInvT == Identity(4)
    {
      this.id := id;
      transform := Identity(4);
      transformInv := Identity(4);
      transformInvT := Identity(4);
      new;
      IdentityInverse();
      TransposeIdentity(4);
    }

    /** `set_transform`: stores m, its inverse, and the inverse's transpose.
        The inverse's code is not part of this model; any matrix satisfying
        IsInverse is taken, and it is unique (Matrix.InverseUnique). */
    method SetTransform(m: M)
      requires Invertible(m)
      modifies this
      ensures Valid()
      ensures transform == m && IsInverse(m, transformInv)
      ensures transformInvT == Transpose(transformInv)
    {
      var inv :| IsInverse(m, inv);
      transform := m;
      transformInv := inv;
      transformInvT := Transpose(inv);
    }

    /** The ray carried into object space by the inverse transform; the
        transform carries it back to the world ray. */
    function TransformedRay(ray: Ray): (q: Ray)
      reads this
      requires Valid()
      ensures Transform(q, transform) == ray
    {
      TransformUndone(ray, transformInv, transform);
      Transform(ray, transformInv)
    }

    /** `intersects`: the object-space rule applied to the transformed ray;
        `root` is the square root of that ray's discriminant. */
    function Intersects(ray: Ray, root: real): (xs: seq<Intersection>)
      reads this
      requires Valid()
      requires QuadA(TransformedRay(ray)) != 0.0
      requires Discriminant(TransformedRay(ray)) >= 0.0 ==> IsSqrt(Discriminant(TransformedRay(ray)), root)
      ensures |xs| == 0 <==> Discriminant(TransformedRay(ray)) < 0.0
      ensures |xs| != 0 ==> |xs| == 2 && xs[0].objectId == id && xs[1].objectId == id
      ensures |xs| == 2 ==> xs[0].t <= xs[1].t
    {
      Intersect(id, TransformedRay(ray), root)
    }

    /** The world-space normal at p before normalisation: p taken into
        object space, measured from the origin, carried back by the
        inverse-transpose, and its w forced to 0. */
    function WorldNormal(p: Tuple): (n: Tuple)
      reads this
      requires Valid()
      ensures IsVector(n)
    {
      var objectNormal := Sub(MulTuple(transformInv, p), Origin);
      var worldNormal := MulTuple(transformInvT, objectNormal);
      Tuple(worldNormal.x, worldNormal.y, worldNormal.z, 0.0)
    }

    /** `normal`: the world normal divided by its magnitude `mag`. */
    function Normal(p: Tuple, mag: real): (n: Tuple)
      reads this
      requires Valid()
      requires mag > 0.0 && IsSqrt(SqLength(WorldNormal(p)), mag)
      ensures IsVector(n)
      ensures ScaleLeft(mag, n) == WorldNormal(p)
    {
      NormalizeScalesBack(WorldNormal(p), mag);
      Normalize(WorldNormal(p), mag)
    }
  }

  // ---- Arithmetic helpers ----

  lemma OrderedRoots(a: real, b: real, root: real)
    requires a > 0.0 && root >= 0.0
    ensures (-b - root) / (2.0 * a) <= (-b + root) / (2.0 * a)
    ensures (-b - root) / (2.0 * a) == (-b + root) / (2.0 * a) <==> root == 0.0
  {
    var d := 2.0 * a;
    var t1, t2 := (-b - root) / d, (-b + root) / d;
    assert t1 * d == -b - root && t2 * d == -b + root;
    assert (t2 - t1) * d == 2.0 * root;
  }

  /** Both quadratic-formula values solve the quadratic. */
  lemma QuadraticRoot(a: real, b: real, c: real, root: real, sign: real)
    requires a != 0.0 && root * root == b * b - 4.0 * a * c && (sign == 1.0 || sign == -1.0)
    ensures var t := (-b + sign * root) / (2.0 * a); a * t * t + b * t + c == 0.0
  {
    var t := (-b + sign * root) / (2.0 * a);
    var u := 2.0 * a * t;
    assert u == -b + sign * root;
    assert sign * sign == 1.0;
    assert u * u == b * b - 2.0 * sign * b * root + root * root;
    assert 4.0 * a * (a * t * t + b * t + c) == u * u + 2.0 * b * u + 4.0 * a * c;
    assert 4.0 * a * (a * t * t + b * t + c) == 0.0;
  }

  /** |o + t d|^2 - 1 is the sphere's quadratic for a point o and vector d. */
  lemma SqLengthAlong(ox: real, oy: real, oz: real, dx: real, dy: real, dz: real, t: real)
    ensures (ox + t * dx) * (ox + t * dx) + (oy + t * dy) * (oy + t * dy) + (oz + t * dz) * (oz + t * dz) - 1.0
         == (dx * dx + dy * dy + dz * dz) * t * t + 2.0 * (dx * ox + dy * oy + dz * oz) * t
            + (ox * ox + oy * oy + oz * oz - 1.0)
  {
  }

  // ---- What the intersection rule promises ----

  /** Both values Solve returns are roots of a t^2 + b t + c. */
  lemma SolveRoots(id: nat, a: real, b: real, c: real, root: real)
    requires a > 0.0
    requires b * b - 4.0 * a * c >= 0.0 ==> IsSqrt(b * b - 4.0 * a * c, root)
    ensures forall x :: x in Solve(id, a, b, c, root) ==> a * x.t * x.t + b * x.t + c == 0.0
  {
    var xs := Solve(id, a, b, c, root);
    if b * b - 4.0 * a * c >= 0.0 {
      QuadraticRoot(a, b, c, root, -1.0);
      QuadraticRoot(a, b, c, root, 1.0);
      assert xs[0].t == (-b + -1.0 * root) / (2.0 * a);
      assert xs[1].t == (-b + 1.0 * root) / (2.0 * a);
    }
  }

  /** The ray's quadratic written out in coordinates. */
  lemma QuadCoordinates(r: Ray)
    requires IsPoint(r.origin) && IsVector(r.direction)
    ensures var o, d := r.origin, r.direction;
      QuadA(r) == d.x * d.x + d.y * d.y + d.z * d.z
      && QuadB(r) == 2.0 * (d.x * o.x + d.y * o.y + d.z * o.z)
      && QuadC(r) == o.x * o.x + o.y * o.y + o.z * o.z - 1.0
  {
    var o := r.origin;
    assert SphereToRay(r) == Vector(o.x, o.y, o.z);
  }

  /** The squared length of a point along the ray, in coordinates. */
  lemma PositionSqLength(r: Ray, t: real)
    requires IsPoint(r.origin) && IsVector(r.direction)
    ensures var o, d := r.origin, r.direction;
      SqLength(Position(r, t))
      == (o.x + t * d.x) * (o.x + t * d.x) + (o.y + t * d.y) * (o.y + t * d.y) + (o.z + t * d.z) * (o.z + t * d.z)
  {
    var o, d := r.origin, r.direction;
    assert Position(r, t) == Tuple(o.x + t * d.x, o.y + t * d.y, o.z + t * d.z, 1.0);
  }

  /** For a point origin and a vector direction, the ray's quadratic at t
      is the squared distance of Position(r, t) from the centre, minus 1:
      its roots are exactly where the ray meets the unit sphere. */
  lemma QuadraticIsDistance(r: Ray, t: real)
    requires IsPoint(r.origin) && IsVector(r.direction)
    ensures QuadA(r) * t * t + QuadB(r) * t + QuadC(r) == SqLength(Position(r, t)) - 1.0
  {
    var o, d := r.origin, r.direction;
    QuadCoordinates(r);
    SqLengthAlong(o.x, o.y, o.z, d.x, d.y, d.z, t);
    PositionSqLength(r, t);
  }

  /** Hence a root of the ray's quadratic is a parameter at which the ray
      is on the unit sphere. */
  lemma RootOnSphere(r: Ray, t: real)
    requires IsPoint(r.origin) && IsVector(r.direction)
    requires QuadA(r) * t * t + QuadB(r) * t + QuadC(r) == 0.0
    ensures SqLength(Position(r, t)) == 1.0
  {
    QuadraticIsDistance(r, t);
  }

  /** Each hit of the intersection rule is on the unit sphere. */
  lemma IntersectOnSphere(id: nat, r: Ray, root: real)
    requires QuadA(r) != 0.0
    requires Discriminant(r) >= 0.0 ==> IsSqrt(Discriminant(r), root)
    requires IsPoint(r.origin) && IsVector(r.direction)
    ensures forall x :: x in Intersect(id, r, root) ==> SqLength(Position(r, x.t)) == 1.0
  {
    var a, b, c := QuadA(r), QuadB(r), QuadC(r);
    DotSelfNonNegative(r.direction);
    var xs := Solve(id, a, b, c, root);
    assert Intersect(id, r, root) == xs;
    SolveRoots(id, a, b, c, root);
    forall x | x in xs
      ensures SqLength(Position(r, x.t)) == 1.0
    {
      RootOnSphere(r, x.t);
    }
  }

  /** The source's sphere tests shoot a ray along +z from (0, y0, z0): its
      quadratic is t^2 + 2 z0 t + (y0^2 + z0^2 - 1). */
  predicate QuadraticAlongZ(r: Ray, y0: real, z0: real)
  {
    QuadA(r) == 1.0 && QuadB(r) == 2.0 * z0 && QuadC(r) == y0 * y0 + z0 * z0 - 1.0
  }

  lemma AlongZ(y0: real, z0: real)
    ensures QuadraticAlongZ(Ray(Point(0.0, y0, z0), Vector(0.0, 0.0, 1.0)), y0, z0)
  {
    var r := Ray(Point(0.0, y0, z0), Vector(0.0, 0.0, 1.0));
    QuadCoordinates(r);
    ZAxisCoefficients(r.direction.x, r.direction.y, r.direction.z, r.origin.x, r.origin.y, r.origin.z);
  }

  lemma ZAxisCoefficients(dx: real, dy: real, dz: real, ox: real, oy: real, oz: real)
    requires dx == 0.0 && dy == 0.0 && dz == 1.0 && ox == 0.0
    ensures dx * dx + dy * dy + dz * dz == 1.0
    ensures 2.0 * (dx * ox + dy * oy + dz * oz) == 2.0 * oz
    ensures ox * ox + oy * oy + oz * oz - 1.0 == oy * oy + oz * oz - 1.0
  {
  }

  /** Intersecting a ray is solving its quadratic: whatever the coefficients
      are known to be, Intersect returns what Solve returns on them. */
  lemma IntersectIsSolve(id: nat, r: Ray, root: real, a: real, b: real, c: real)
    requires QuadA(r) == a && QuadB(r) == b && QuadC(r) == c && a > 0.0
    requires b * b - 4.0 * a * c >= 0.0 ==> IsSqrt(b * b - 4.0 * a * c, root)
    ensures Discriminant(r) == b * b - 4.0 * a * c
    ensures Intersect(id, r, root) == Solve(id, a, b, c, root)
  {
  }

  /** The five intersection tests. Each holds for every ray with the test
      ray's quadratic, and AlongZ shows the test ray has it: through the
      centre from z0 = -5, tangent at y0 = 1, missing at y0 = 2, from inside
      at the origin, and with the sphere behind at z0 = 5. */
  lemma ThroughCentreExample(r: Ray)
    requires QuadraticAlongZ(r, 0.0, -5.0)
    ensures Intersect(9, r, 2.0) == [Intersection(9, 4.0), Intersection(9, 6.0)]
  {
    IntersectIsSolve(9, r, 2.0, 1.0, -10.0, 24.0);
    assert Solve(9, 1.0, -10.0, 24.0, 2.0) == [Intersection(9, 4.0), Intersection(9, 6.0)];
  }

  lemma TangentExample(r: Ray)
    requires QuadraticAlongZ(r, 1.0, -5.0)
    ensures Intersect(9, r, 0.0) == [Intersection(9, 5.0), Intersection(9, 5.0)]
  {
    IntersectIsSolve(9, r, 0.0, 1.0, -10.0, 25.0);
    assert Solve(9, 1.0, -10.0, 25.0, 0.0) == [Intersection(9, 5.0), Intersection(9, 5.0)];
  }

  lemma MissExample(r: Ray)
    requires QuadraticAlongZ(r, 2.0, -5.0)
    ensures Intersect(9, r, 0.0) == []
  {
    IntersectIsSolve(9, r, 0.0, 1.0, -10.0, 28.0);
  }

  lemma FromInsideExample(r: Ray)
    requires QuadraticAlongZ(r, 0.0, 0.0)
    ensures Intersect(9, r, 2.0) == [Intersection(9, -1.0), Intersection(9, 1.0)]
  {
    IntersectIsSolve(9, r, 2.0, 1.0, 0.0, -1.0);
    assert Solve(9, 1.0, 0.0, -1.0, 2.0) == [Intersection(9, -1.0), Intersection(9, 1.0)];
  }

  lemma BehindExample(r: Ray)
    requires QuadraticAlongZ(r, 0.0, 5.0)
    ensures Intersect(9, r, 2.0) == [Intersection(9, -6.0), Intersection(9, -4.0)]
  {
    IntersectIsSolve(9, r, 2.0, 1.0, 10.0, 24.0);
    assert Solve(9, 1.0, 10.0, 24.0, 2.0) == [Intersection(9, -6.0), Intersection(9, -4.0)];
  }

  // ---- What the sphere's state promises ----

  /** The inverse-transpose is the inverse of the transpose, so the normal
      matrix is consistent with the transform too. */
  lemma ValidNormalMatrix(s: Sphere)
    requires s.Valid()
    ensures IsInverse(Transpose(s.transform), s.transformInvT)
  {
    InverseTranspose(s.transform, s.transformInv);
  }

  /** A sphere whose transform is the identity works in world space directly. */
  lemma IdentitySphere(s: Sphere, ray: Ray)
    requires s.Valid() && s.transform == Identity(4)
    ensures s.transformInv == Identity(4) && s.transformInvT == Identity(4)
    ensures s.TransformedRay(ray) == ray
  {
    IdentityInverse();
    InverseUnique(Identity(4), s.transformInv, Identity(4));
    TransposeIdentity(4);
    TransformIdentity(ray);
  }

  /** The hits of a transformed sphere lie on it: taken back into object
      space they are on the unit sphere. */
  lemma IntersectsOnSphere(s: Sphere, ray: Ray, root: real)
    requires s.Valid() && Affine(s.transform)
    requires IsPoint(ray.origin) && IsVector(ray.direction)
    requires QuadA(s.TransformedRay(ray)) != 0.0
    requires Discriminant(s.TransformedRay(ray)) >= 0.0 ==> IsSqrt(Discriminant(s.TransformedRay(ray)), root)
    ensures forall x :: x in s.Intersects(ray, root) ==>
              SqLength(MulTuple(s.transformInv, Position(ray, x.t))) == 1.0
  {
    var obj := s.TransformedRay(ray);
    AffineInverse(s.transform, s.transformInv);
    AffineKeepsW(s.transformInv, ray.origin);
    AffineKeepsW(s.transformInv, ray.direction);
    IntersectOnSphere(s.id, obj, root);
    forall x | x in s.Intersects(ray, root)
      ensures SqLength(MulTuple(s.transformInv, Position(ray, x.t))) == 1.0
    {
      TransformPosition(ray, s.transformInv, x.t);
    }
  }

  /** The normal has length 1. */
  lemma NormalUnit(s: Sphere, p: Tuple, mag: real)
    requires s.Valid()
    requires mag > 0.0 && IsSqrt(SqLength(s.WorldNormal(p)), mag)
    ensures SqLength(s.Normal(p, mag)) == 1.0
  {
    UnitLength(s.WorldNormal(p), mag);
  }

  /** On the untransformed sphere the normal at a point of the surface is
      the point's own position vector. */
  lemma UnitSphereNormal(s: Sphere, p: Tuple)
    requires s.Valid() && s.transform == Identity(4)
    requires IsPoint(p) && SqLength(p) == 1.0
    ensures IsSqrt(SqLength(s.WorldNormal(p)), 1.0) && s.Normal(p, 1.0) == Vector(p.x, p.y, p.z)
  {
    IdentitySphere(s, Ray(p, p));
    MulTupleIdentity(p);
    MulTupleIdentity(Sub(p, Origin));
    assert s.WorldNormal(p) == Vector(p.x, p.y, p.z);
  }

  lemma AxisNormalExample(s: Sphere)
    requires s.Valid() && s.transform == Identity(4)
    ensures IsSqrt(SqLength(s.WorldNormal(Point(0.0, 0.0, 1.0))), 1.0)
         && s.Normal(Point(0.0, 0.0, 1.0), 1.0) == Vector(0.0, 0.0, 1.0)
  {
    UnitSphereNormal(s, Point(0.0, 0.0, 1.0));
  }

  /** On a sphere translated by (x, y, z) the normal direction at p is the
      offset of p from the sphere's centre. */
  lemma TranslatedSphereNormal(s: Sphere, x: real, y: real, z: real, p: Tuple)
    requires s.Valid() && s.transform == Translation(x, y, z)
    requires IsPoint(p)
    ensures s.WorldNormal(p) == Vector(p.x - x, p.y - y, p.z - z)
  {
    TranslationUndone(x, y, z, s.transformInv, p);
    var inv := Translation(-x, -y, -z);
    TranslationMovesPoint(-x, -y, -z, p);
    var v := Sub(MulTuple(inv, p), Origin);
    assert v == Vector(p.x - x, p.y - y, p.z - z);
    var tr := Transpose(inv);
    MulTupleEntries(tr, v);
    assert tr.data[0][0] == 1.0 && tr.data[0][1] == 0.0 && tr.data[0][2] == 0.0;
    assert tr.data[1][0] == 0.0 && tr.data[1][1] == 1.0 && tr.data[1][2] == 0.0;
    assert tr.data[2][0] == 0.0 && tr.data[2][1] == 0.0 && tr.data[2][2] == 1.0;
  }

  /** The translated-sphere normal pinned by the source's tests, with k the
      positive square root of 1/2. */
  lemma TranslatedNormalExample(s: Sphere, k: real)
    requires s.Valid() && s.transform == Translation(0.0, 1.0, 0.0)
    requires k > 0.0 && k * k == 0.5
    ensures IsSqrt(SqLength(s.WorldNormal(Point(0.0, 1.0 + k, -k))), 1.0)
         && s.Normal(Point(0.0, 1.0 + k, -k), 1.0) == Vector(0.0, k, -k)
  {
    TranslatedSphereNormal(s, 0.0, 1.0, 0.0, Point(0.0, 1.0 + k, -k));
  }
}
