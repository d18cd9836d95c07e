# paprskomet core, modelled in Dafny

This project models the core of paprskomet, a small tutorial ray tracer. It covers:

- the homogeneous tuple algebra. A `Tuple` carries a `w` tag that is 1 for a point and 0 for a vector. The source's guards become preconditions: they reject point + point, scaling or dividing a point, and crossing two points.
- the colour algebra.
- the matrix constructor `M::new`, with its two error cases.
- the 4x4 transform factories: translation, scaling, the three rotations and shearing.
- rays: their parametric position, and how a matrix transforms them.
- the sphere. It is a class whose three matrix fields are kept consistent. It has a quadratic intersection rule and a surface normal.
- hit selection: keep the intersections with t >= 0, sort them stably by t, and take the first.
- the canvas framebuffer: writes into a 2-D buffer with a y-flip, and writes relative to the canvas centre.

Floating-point numbers become exact `real`s, and the epsilon comparison becomes exact equality. The source calls functions whose code is not part of this model, and these become parameters:

- Square roots come in through `Vectors.IsSqrt`: `r >= 0` and `r * r == x`.
- Cosine and sine come in as two reals.
- `M::inverse` is characterised by `Matrix.IsInverse`: both products are the identity.

Matrix multiplication, transposition and the identity are not in src/matrix.rs. They are defined here by the usual row-by-column rules.

`hit` is both a function on sequences (`HitOf`) and a method (`Hit`). The method filters the input into an array and sorts it in place by insertion. The sort is proved equal to a functional insertion sort, which is a permutation ordered by t. Its first element is the earliest input of least t, which is what the stable `sort_by` puts first. `Canvas` is a class over an `array2` of colours, and its methods state the whole new buffer.

## Model

| member | source | states |
|---|---|---|
| Vectors.Point | src/vectors.rs:33-40 | the result is a point (w = 1) holding x, y, z as given |
| Vectors.Vector | src/vectors.rs:41-48 | the result is a vector (w = 0) holding x, y, z as given |
| Vectors.Add | src/vectors.rs:99-114 | point + point is refused; the sum's w is the sum of the w's, so vector + vector is a vector and vector + point or point + vector is a point |
| Vectors.AddPointVector | src/vectors.rs:99-114 | vector + point and point + vector are the same point, moved by the vector |
| Vectors.Sub | src/vectors.rs:116-131 | subtraction is never refused and subtracts w too |
| Vectors.SubKinds | src/vectors.rs:116-131 | point - point is a vector; point - vector is a point; vector - vector is a vector; vector - point has w = -1 |
| Vectors.SubAddRoundTrip | src/vectors.rs:99-131 | adding b back after subtracting it returns the original tuple, whenever that addition is allowed |
| Vectors.Neg | src/vectors.rs:133-139 | negation keeps w |
| Vectors.NegInvolution | src/vectors.rs:133-139 | negating twice gives the tuple back |
| Vectors.NegCancels | src/vectors.rs:133-139 | for a vector v, -v + v and v - v are the zero vector (test at lines 261-268) |
| Vectors.ScaleLeft | src/vectors.rs:141-156 | scaling a point is refused; the result keeps w |
| Vectors.ScaleRight | src/vectors.rs:158-173 | scaling a point is refused; the result keeps w |
| Vectors.ScaleCommutes | src/vectors.rs:141-173 | s * v equals v * s |
| Vectors.Div | src/vectors.rs:175-190 | dividing a point is refused; the result keeps w |
| Vectors.DivUndoesScale | src/vectors.rs:158-190 | (v * s) / s == v for s != 0 |
| Vectors.Dot | src/vectors.rs:65-74 | when either operand is a vector the w term drops out, leaving the 3-D dot product |
| Vectors.DotSymmetric | src/vectors.rs:65-74 | the dot product is symmetric |
| Vectors.DotSelfNonNegative | src/vectors.rs:65-74 | a tuple's dot product with itself is never negative |
| Vectors.Cross | src/vectors.rs:76-87 | crossing two points is refused; the result is always a vector |
| Vectors.CrossOrthogonal | src/vectors.rs:76-87 | the cross product is orthogonal to both inputs, and swapping the inputs negates it |
| Vectors.Normalize | src/vectors.rs:55-63 | normalising keeps w |
| Vectors.NormalizeKeepsKind | src/vectors.rs:55-63 | a normalised vector is a vector and a normalised point a point, and only those |
| Vectors.NormalizeScalesBack | src/vectors.rs:50-63 | multiplying the normalised tuple by the magnitude gives the original x, y, z and w |
| Vectors.UnitLength | src/vectors.rs:50-63 | a normalised tuple has length 1 (test at lines 309-313) |
| Vectors.AddExample1 | src/vectors.rs:212-220 | (1,2,3,0) + (2,3,5,0) = (3,5,8,0) |
| Vectors.AddExample2 | src/vectors.rs:222-230 | vector (1,2,3) + point (2,3,5) = point (3,5,8) |
| Vectors.SubExample | src/vectors.rs:243-251 | (1,2,3,0) - (2,3,5,0) = (-1,-1,-2,0) |
| Vectors.ScaleExamples | src/vectors.rs:270-297 | 3 * (1,2,3) = (1,2,3) * 3 = (3,6,9), and (3,6,9) / 3 = (1,2,3) |
| Vectors.ProductExamples | src/vectors.rs:315-328 | (1,2,3,0) . (2,3,4,0) = 20 and (1,2,3) x (2,3,4) = (-1,2,-1) |
| Colors.Dot | src/colors.rs:31-35 | a colour's dot product with itself is never negative |
| Colors.Add | src/colors.rs:47-57 | subtracting c from a + c gives a back |
| Colors.Sub | src/colors.rs:59-69 | a - c is black exactly when a and c are equal |
| Colors.Neg | src/colors.rs:73-83 | -a + a is black |
| Colors.ScaleLeft | src/colors.rs:84-94 | for s != 0, dividing s * a by s gives a back |
| Colors.ScaleRight | src/colors.rs:97-107 | a * s equals s * a |
| Colors.Div | src/colors.rs:112-122 | each channel of a / s, multiplied by s, gives a's channel back |
| Colors.Equal | src/colors.rs:41-45 | two colours are equal exactly when all three channels are equal |
| Colors.SubUndoesAdd | src/colors.rs:47-69 | adding and subtracting the same colour are inverse operations |
| Colors.SelfCancels | src/colors.rs:59-83 | a - a and -a + a are black (test at lines 171-178) |
| Colors.SubIsAddNeg | src/colors.rs:59-83 | a - c == a + (-c) |
| Colors.ScaleCommutes | src/colors.rs:86-109 | s * a equals a * s |
| Colors.DivUndoesScale | src/colors.rs:86-122 | (a * s) / s == a for s != 0 |
| Colors.DotSymmetric | src/colors.rs:31-35 | the dot product is symmetric and a . a >= 0 |
| Colors.AddExample | src/colors.rs:142-150 | (1,2,3) + (2,3,5) = (3,5,8) |
| Colors.SubExample | src/colors.rs:153-161 | (1,2,3) - (2,3,5) = (-1,-1,-2) |
| Colors.ScaleExample | src/colors.rs:182-189 | 3 * (1,2,3) = (3,6,9) |
| Colors.DivExample | src/colors.rs:192-198 | (3,6,9) / 3 = (1,2,3) |
| Colors.DotExample | src/colors.rs:215-220 | (1,2,3) . (2,3,4) = 20 |
| Matrix.New | src/matrix.rs:11-30 | Err exactly when there is no row or the first row is empty, with the source's message. On success the data is stored unchanged, rows = number of rows, columns = length of the first row, and both are >= 1 |
| Matrix.NewChecked | src/matrix.rs:12 | the validation the comment describes: Ok exactly for non-empty data whose rows all have the first row's length, and then the matrix is rectangular |
| Matrix.NewCheckedAgrees | src/matrix.rs:12-29 | on rectangular data the two validations give the same result |
| Matrix.NewAcceptsRagged | src/matrix.rs:12-29 | as written, `new` accepts the ragged rows [[1,2],[3]], which the checked version rejects |
| Matrix.NewAcceptsLarge | src/matrix.rs:12-29 | there is no size bound: `new` accepts a 5x5 matrix, though the transforms only ever build 4x4 ones |
| Matrix.AffineKeepsW | src/transformations.rs:8 | a matrix whose last row is (0,0,0,1) keeps a tuple's w |
| Matrix.MulTupleIdentity | src/geometries.rs:18-20 | the identity matrix leaves every tuple unchanged |
| Matrix.MulTupleCompose | src/transformations.rs:236-254 | applying a product to a tuple is applying its factors one after the other |
| Matrix.InverseUndoes | src/transformations.rs:91-102 | an inverse undoes its matrix on every tuple, in both orders |
| Matrix.InverseUnique | src/geometries.rs:26 | a matrix has at most one inverse |
| Matrix.InverseTranspose | src/geometries.rs:27 | the transpose of the inverse is the inverse of the transpose |
| Matrix.TransposeOfProduct | src/geometries.rs:27 | the transpose of a product is the product of the transposes in reverse order |
| Matrix.IdentityInverse | src/geometries.rs:18-20 | the 4x4 identity is its own inverse |
| Matrix.MulIdentityRight | src/geometries.rs:18-20 | m * I == m |
| Matrix.AffineInverse | src/geometries.rs:24-28 | the inverse of a matrix with last row (0,0,0,1) has that last row too |
| Matrix.MulTupleLinear | src/ray.rs:15-24 | multiplying o + t * d by a matrix gives m * o + t * (m * d) |
| Transformations.Build | src/transformations.rs:4-10 | four rows of four entries always pass `M::new`, so `unwrap` never panics; the result is 4x4 with the given rows |
| Transformations.Translation | src/transformations.rs:3-11 | a 4x4 matrix whose last row is (0,0,0,1) |
| Transformations.Scaling | src/transformations.rs:13-21 | a 4x4 matrix whose last row is (0,0,0,1) |
| Transformations.RotationX | src/transformations.rs:23-31 | a 4x4 matrix whose last row is (0,0,0,1) |
| Transformations.RotationY | src/transformations.rs:33-41 | a 4x4 matrix whose last row is (0,0,0,1) |
| Transformations.RotationZ | src/transformations.rs:43-51 | a 4x4 matrix whose last row is (0,0,0,1) |
| Transformations.Shearing | src/transformations.rs:53-68 | a 4x4 matrix whose last row is (0,0,0,1) |
| Transformations.TranslationAction | src/transformations.rs:3-11 | a translation adds (x, y, z) times w to a tuple and keeps w |
| Transformations.TranslationMovesPoint | src/transformations.rs:3-11 | a translation moves a point by (x, y, z) |
| Transformations.TranslationKeepsVector | src/transformations.rs:3-11 | a translation leaves a vector unchanged (test at lines 104-112) |
| Transformations.ScalingAction | src/transformations.rs:13-21 | scaling multiplies each coordinate and keeps w |
| Transformations.ShearingAction | src/transformations.rs:53-68 | each coordinate gains the other two times its shear factors |
| Transformations.RotationXAction | src/transformations.rs:23-31 | rotation about x mixes y and z by cos and sin; it keeps x and w |
| Transformations.RotationYAction | src/transformations.rs:33-41 | rotation about y mixes z and x by cos and sin; it keeps y and w |
| Transformations.RotationZAction | src/transformations.rs:43-51 | rotation about z mixes x and y by cos and sin; it keeps z and w |
| Transformations.PlaneRotationLength | src/transformations.rs:26-27 | when cos^2 + sin^2 = 1, a plane rotation keeps the squared length |
| Transformations.RotationXKeepsLength | src/transformations.rs:23-31 | when cos^2 + sin^2 = 1, rotation about x keeps a tuple's squared length |
| Transformations.TranslationInverse | src/transformations.rs:91-102 | translation(-x,-y,-z) is the inverse of translation(x,y,z) |
| Transformations.ScalingInverse | src/transformations.rs:133-142 | scaling(1/x,1/y,1/z) is the inverse of scaling(x,y,z) for non-zero factors |
| Transformations.TranslationUndone | src/transformations.rs:91-102 | any inverse of a translation is the opposite translation and undoes it |
| Transformations.ScalingUndone | src/transformations.rs:133-142 | any inverse of a scaling is the reciprocal scaling and undoes it |
| Transformations.ChainedTransforms | src/transformations.rs:236-254 | applying A, then B, then C equals applying C * B * A once |
| Transformations.TranslationExample | src/transformations.rs:80-89 | translation(5,-3,2) maps point (-3,4,5) to (2,1,7) |
| Transformations.TranslationInverseExample | src/transformations.rs:91-102 | the inverse of translation(5,-3,2) maps (2,1,7) back to (-3,4,5) |
| Transformations.ScalingInverseExample | src/transformations.rs:133-142 | the inverse of scaling(2,3,4) maps vector (-4,6,8) to (-2,2,2) |
| Transformations.ReflectionExample | src/transformations.rs:144-150 | scaling(-1,1,1) reflects x |
| Transformations.ShearingExample | src/transformations.rs:225-234 | shearing(1,0,0,0,0,0) maps (2,3,4) to (5,3,4) |
| Transformations.QuarterTurnExamples | src/transformations.rs:152-223 | quarter turns about x, y and z move the unit points as the tests expect |
| Transformations.SequenceSteps | src/transformations.rs:236-254 | the three single steps of the chained test |
| Transformations.SequenceExample | src/transformations.rs:236-254 | the chained product maps (1,0,1) to (15,0,7) |
| Rays.Position | src/ray.rs:15-17 | a direction that is a point is refused; w of the result is the sum of the w's, so a point origin and a vector direction give a point |
| Rays.PositionOffset | src/ray.rs:15-17 | position(t) - origin == t * direction, and position(0) is the origin |
| Rays.PositionAdditive | src/ray.rs:15-17 | moving by s, then by t, is moving by s + t |
| Rays.PositionZeroNeedsVector | src/ray.rs:15-17 | position(0) is the origin exactly when the direction is a vector |
| Rays.PositionExample | src/ray.rs:35-45 | (2,3,4) along (1,0,0) at t = 2.5 is (4.5,3,4) |
| Rays.PositionBackwardsExample | src/ray.rs:35-45 | (2,3,4) along (1,0,0) at t = -1 is (1,3,4) |
| Rays.Transform | src/ray.rs:19-24 | a matrix with last row (0,0,0,1) keeps the w of both origin and direction, so a point origin stays a point and a vector direction a vector |
| Rays.TransformIdentity | src/ray.rs:19-24 | transforming by the identity changes nothing |
| Rays.TransformCompose | src/ray.rs:19-24 | transforming by a, then by b, is transforming by b * a |
| Rays.TransformUndone | src/ray.rs:19-24 | transforming by a matrix and then by its inverse returns the ray |
| Rays.TransformTranslation | src/ray.rs:19-24 | a translation moves the origin and leaves the direction unchanged |
| Rays.TransformScaling | src/ray.rs:19-24 | a scaling scales both origin and direction |
| Rays.TransformPosition | src/ray.rs:15-24 | under an affine matrix the transformed ray's positions are the transformed positions |
| Intersections.Forward | src/intersections.rs:10 | keeps exactly the intersections with t >= 0 |
| Intersections.Insert | src/intersections.rs:12 | insertion adds the element once and keeps all others |
| Intersections.InsertKeepsSorted | src/intersections.rs:12 | inserting into a sorted sequence keeps it sorted |
| Intersections.InsertionSorted | src/intersections.rs:12 | sorting is a permutation |
| Intersections.InsertionSortedIsSorted | src/intersections.rs:12 | the sort orders by t |
| Intersections.SortedHead | src/intersections.rs:12-13 | the first sorted element is the earliest one with the least t, which is what a stable sort puts first |
| Intersections.FirstMinIndex | src/intersections.rs:12-13 | the index of the first element whose t is least |
| Intersections.HitOf | src/intersections.rs:9-14 | a hit is an input element with t >= 0 |
| Intersections.HitNone | src/intersections.rs:9-14 | no hit exactly when every t is negative |
| Intersections.HitIsNearest | src/intersections.rs:10-13 | the hit is an unchanged input element with t >= 0, and no input with t >= 0 has a smaller t |
| Intersections.HitEarliest | src/intersections.rs:12-13 | among inputs with the least non-negative t, the hit is the earliest |
| Intersections.HitExample | src/intersections.rs:22-36 | for t = 5, 2, -1 the hit has t = 2 |
| Intersections.InsertInto | src/intersections.rs:12 | one insertion step in place: the prefix becomes the functional insertion of the next element, and the rest of the array is unchanged |
| Intersections.SortByT | src/intersections.rs:12 | the in-place sort leaves the functional insertion sort of the old contents |
| Intersections.Hit | src/intersections.rs:9-14 | returns HitOf: None exactly when no t >= 0; otherwise an input element with t >= 0 and the least such t |
| Geometries.Solve | src/geometries.rs:42-59 | empty exactly when the discriminant is negative; otherwise two intersections tagged with the sphere's id, with t1 <= t2, and t1 == t2 exactly when the root is 0, which is exactly when the discriminant is 0 (a tangent ray) |
| Geometries.SolveRoots | src/geometries.rs:47-48 | each returned t solves a t^2 + b t + c = 0 |
| Geometries.Intersect | src/geometries.rs:35-59 | the same miss, two-hit and order guarantees, for the coefficients computed from a ray; the two t's are equal exactly when the ray's discriminant is 0 |
| Geometries.QuadraticIsDistance | src/geometries.rs:37-40 | the quadratic at t equals the squared distance of position(t) from the centre, minus 1 |
| Geometries.RootOnSphere | src/geometries.rs:37-48 | a root of the quadratic is a point on the unit sphere |
| Geometries.IntersectOnSphere | src/geometries.rs:34-59 | every returned t lies on the unit sphere |
| Geometries.AlongZ | src/geometries.rs:80-140 | for origin (0, y0, z0) and direction (0,0,1), a = 1, b = 2 z0 and c = y0^2 + z0^2 - 1 |
| Geometries.IntersectIsSolve | src/geometries.rs:37-59 | Intersect on a ray is Solve on the ray's coefficients, whatever they are known to be |
| Geometries.ThroughCentreExample | src/geometries.rs:80-91 | any ray with the quadratic of the ray from (0,0,-5) along z (AlongZ shows that ray has it) is hit at t = 4, 6 |
| Geometries.TangentExample | src/geometries.rs:93-104 | any ray with the quadratic of the ray from (0,1,-5) along z is hit twice at t = 5 |
| Geometries.MissExample | src/geometries.rs:106-114 | any ray with the quadratic of the ray from (0,2,-5) along z misses |
| Geometries.FromInsideExample | src/geometries.rs:116-127 | any ray with the quadratic of the ray from the centre along z is hit at t = -1, 1 |
| Geometries.BehindExample | src/geometries.rs:129-140 | any ray with the quadratic of the ray from (0,0,5) along z is hit at t = -6, -4 |
| Geometries.Sphere.constructor | src/geometries.rs:15-22 | all three matrices start as the 4x4 identity |
| Geometries.Sphere.SetTransform | src/geometries.rs:24-28 | the transform becomes m, the stored inverse is an inverse of m, and the third field is its transpose |
| Geometries.Sphere.TransformedRay | src/geometries.rs:30-32 | the ray taken into object space; the transform takes it back to the world ray |
| Geometries.Sphere.Intersects | src/geometries.rs:34-60 | the ray is first taken through the stored inverse; then misses, two tagged hits and t1 <= t2 as for Intersect |
| Geometries.Sphere.WorldNormal | src/geometries.rs:62-66 | the world normal always has w = 0 |
| Geometries.Sphere.Normal | src/geometries.rs:62-68 | the normal has w = 0, and scaling it by the magnitude gives the world normal back |
| Geometries.NormalUnit | src/geometries.rs:62-68 | the normal has length 1 |
| Geometries.ValidNormalMatrix | src/geometries.rs:24-28 | the third field inverts the transpose of the transform |
| Geometries.IdentitySphere | src/geometries.rs:15-32 | with the identity transform, the stored matrices are identities and rays are not changed |
| Geometries.IntersectsOnSphere | src/geometries.rs:30-59 | on a sphere whose transform has last row (0,0,0,1), every hit taken into object space lies on the unit sphere |
| Geometries.UnitSphereNormal | src/geometries.rs:62-68 | on an untransformed sphere the normal at a surface point p is the vector p (tests at lines 151-174) |
| Geometries.AxisNormalExample | src/geometries.rs:151-168 | the normal at (0,0,1) is (0,0,1) |
| Geometries.TranslatedSphereNormal | src/geometries.rs:62-66 | on a translated sphere the world normal is p minus the centre |
| Geometries.TranslatedNormalExample | src/geometries.rs:176-186 | on the sphere moved up by 1, the normal at (0, 1 + k, -k) with k^2 = 1/2 is (0, k, -k) |
| Canvases.AsUsize | src/canvas.rs:57-58 | `as usize` leaves a value in [0, 2^64) alone and maps a negative value to value + 2^64 |
| Canvases.WriteAsWritten | src/canvas.rs:35-42 | the guard and indexing exactly as written |
| Canvases.AsWrittenColumnPanics | src/canvas.rs:35-42 | x == width passes the guard and indexes past the row |
| Canvases.AsWrittenRowPanics | src/canvas.rs:35-42 | y == height passes the guard and height - y - 1 underflows |
| Canvases.AsWrittenDiffersOnlyOnBoundary | src/canvas.rs:35-42 | as written, a write panics exactly when x == width or y == height (within the guard), and agrees with the corrected rule everywhere else |
| Canvases.WriteTarget | src/canvas.rs:35-42 | the corrected rule never panics, stores exactly when x < width and y < height, and then only inside the buffer |
| Canvases.WriteTargetInjective | src/canvas.rs:41-42 | distinct in-range coordinates land in distinct cells |
| Canvases.WriteTargetInverse | src/canvas.rs:41-42 | the cell gives back x = column and y = height - 1 - row |
| Canvases.BottomRow | src/canvas.rs:41 | y = 0 is the last row of the buffer |
| Canvases.OriginTarget | src/canvas.rs:53-58 | with the corrected guard a centred write never panics, and a stored cell lies inside the buffer |
| Canvases.OriginTargetRange | src/canvas.rs:53-60 | a centred write lands exactly when -(w/2) <= x < w - w/2 and the same for y, and then in row h - (h/2 + y) - 1, column w/2 + x; a negative shifted coordinate is ignored |
| Canvases.OriginExample | src/canvas.rs:53-60 | on a 30x30 canvas, (0,0) is row 14, column 15, and x = -16 is ignored |
| Canvases.AsWrittenOriginPanics | src/canvas.rs:35-60 | as written, `write_origin(15, 0)` on a 30x30 canvas reaches column 30 and panics; the corrected rule ignores it |
| Canvases.Canvas.constructor | src/canvas.rs:14-23 | height rows of width pixels, all black (test at lines 100-104) |
| Canvases.Canvas.Write | src/canvas.rs:25-43 | the target cell gets the colour and every other pixel keeps its old colour; an out-of-range write changes nothing |
| Canvases.Canvas.WriteOrigin | src/canvas.rs:45-61 | the same as Write, at the cell the centred coordinates address |

## Left out

- IEEE floating point: rounding, NaN, and the epsilon comparison `float_compare`, whose code is not part of this model. All arithmetic is exact over `real`. The `partial_cmp(..).unwrap()` in `hit` (src/intersections.rs:12) panics on NaN, and `real` has no NaN.
- Square roots, cosine and sine are parameters. The source computes them.
- `Color::black()` is not part of this model. `Colors.Black` takes its value to be (0, 0, 0).
- Vectors.Div: division by zero is excluded by `s != 0`. In floats it gives infinities or NaN instead of a panic.
- Colors.Div: division by zero is excluded by `s != 0`, for the same reason.
- Vectors.Normalize: the zero tuple (magnitude 0, a division by zero giving NaN) is excluded by `m > 0`.
- Geometries.Sphere.Normal: a zero world normal (at the sphere's object-space centre, where normalising gives NaN) is excluded by `mag > 0`.
- Geometries.ThroughCentreExample, Geometries.TangentExample, Geometries.MissExample, Geometries.FromInsideExample, Geometries.BehindExample: each is stated for every ray with the test ray's quadratic. AlongZ shows the test ray has that quadratic. A single lemma on the literal ray runs out of solver resources.
- Geometries.Intersect: a zero-length direction (a = 0, a division by zero in the source) is excluded by a precondition.
- `Tuple::magnitude`, `Color::magnitude` and `Color::normalize` (src/vectors.rs:50-53, src/colors.rs:16-29) compute square roots. The magnitude comes in as a parameter checked by `IsSqrt`, and `Color::magnitude` and `Color::normalize` are not modelled.
- Geometries.Sphere.SetTransform: `M::inverse` is taken to exist. A singular matrix, which the source's inverse would have to handle, is excluded by `Invertible(m)`.
- The matrix library's inverse itself is not modelled; `IsInverse` characterises it.
- The sphere's `Uuid` is a caller-chosen natural number. Uniqueness of ids is random in the source and not modelled.
- Canvases.Canvas.WriteOrigin: it goes through the corrected guard. A centred write whose shifted coordinate equals the width or height is ignored, where the source panics (Canvases.AsWrittenOriginPanics shows one).
- Canvases.Canvas.WriteOrigin: in debug builds `mid + x` panics on isize overflow. The model takes release-mode wrapping, which gives the same usize as the exact sum modulo 2^64.
- Canvases.Canvas.constructor: widths or heights above isize::MAX cannot be allocated and are excluded by a precondition.
- Canvases.Canvas.Write: it models the corrected guard, see Findings. The as-written guard is `Canvases.WriteAsWritten`.
- `write_point` (src/canvas.rs:63-68) truncates floats to integers, and `to_ppm`/`write_ppm` (src/canvas.rs:70-92) format strings and write files. These are not modelled.
- src/lights.rs, src/materials.rs, src/scenes.rs, src/projectile.rs, src/main.rs and src/types.rs are not part of this model. They hold lighting, records, demo drivers and an older copy of the tuple constructors.
- Some tests are not turned into properties:
  - src/colors.rs:129-133 expects the blue channel of (1,2,3) to be 2.
  - The ray tests at src/ray.rs:47-65 assert nothing.

## Findings

| source | as written | input that shows it | evidently intended | confidence | as-written member | corrected member |
|---|---|---|---|---|---|---|
| src/canvas.rs:35,41-42 | the guard `x > width \|\| y > height` lets x == width and y == height through | on a 30x30 canvas, write(30, 0) indexes column 30 of a 30-pixel row; write(0, 30) computes 30 - 30 - 1 in usize, which underflows. Both panic, and so does write_origin(15, 0), which calls write(30, 15) | out-of-range writes are silently ignored (`>=`) | high, not executed | Canvases.AsWrittenColumnPanics, Canvases.AsWrittenRowPanics, Canvases.AsWrittenOriginPanics | Canvases.Canvas.Write, Canvases.Canvas.WriteOrigin |
| src/matrix.rs:12-29 | only the first row's length is checked | [[1,2],[3]] is accepted | every row has the same length, as the comment at line 12 says | high, not executed | Matrix.NewAcceptsRagged | Matrix.NewChecked |
