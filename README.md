# geopro-js: the homogeneous-transform algebra, in Dafny

This project models the core of geopro-js, a small TypeScript library of 3D geometry. It also proves properties of that model.

A 4×4 matrix is stored column-major: four columns of four reals, so `M[col][row]`. Points (w = 1) and free vectors (w = 0) are homogeneous tuples.

- `matrixMultiply` is a nested loop that overwrites a 4×4 result. It is modelled as a method over a 4×4 array. The model proves it equal to `Mul`, which is defined column by column: column `c` of `matrixMultiply(t1, t2)` is `t2` applied to column `c` of `t1`, so the product means "`t1` first, then `t2`".
- A `Transform` keeps a direct matrix and its inverse. Its factories are translation, rotation about X/Y/Z and scale. `inverte` and `byInverting` swap the pair, and `composeWith` multiplies the two direct matrices one way and the two inverses the other.
  - The central invariant is `Valid`: direct × inverse = inverse × direct = identity.
  - Every factory establishes `Valid`, and `composeWith` and `compose` preserve it.
- `compose(t1, ..., tn)` is a left fold of `composeWith` that starts from the identity.
- A `Frame` is built by `from2Vectors` from an origin and two vectors. Its accessors read the columns back, and `mapPoint`, `mapVector` and `mapUnitVector` apply the frame's inverse matrix.
- A `Project` is a fixed perspective matrix. It keeps no inverse and composes with direct matrices only.
- `Point` divides by w. `Vector` and `UnitVector` provide componentwise arithmetic, tolerance equality (`precision = 1e-5`), and dot and cross products.

Inputs that are transcendental become parameters:
- a rotation takes its cosine and sine `(c, s)`;
- `UnitVector.fromVector` takes the length `l > 0` with `l * l` equal to the squared length;
- the field-of-view scale `1 / tan(fov / 2)` of `Project` becomes `s`.

Some helpers are imported by `src/frame.ts` but are not part of this model's sources: `matrixVectorMultiply`, `invertAffineOrtogonalMatrix`, `Point.coordinates` and the `fromCoordinates` functions. They are fields of a `Frames.Helpers` value passed as a parameter, and each lemma states what it assumes of them as a ghost predicate:
- `MultipliesAsApply`: the multiply is `Apply`;
- `InvertsAsOrthogonal`: the inverter transposes the axes and negates the rotated origin;
- `PointCoordinatesCopy`, `VectorCoordinatesCopy` and `UnitVectorCoordinatesCopy`: the coordinate accessors and `fromCoordinates` copy the tuple.

Composition order follows the code. `this.composeWith(t)` stores `matrixMultiply(t.direct, this.direct)` (src/transform.ts:50), which applies `t` first and `this` second. So `compose(t1, ..., tn)` maps `v` to `t1(t2(...tn(v)))`. The doc comments at src/transform.ts:43-44 and src/project.ts:37 ("resM = t.M · this.M") read it the other way round; the library's tests cannot tell the two readings apart.

## Model

| member | source | states |
|---|---|---|
| Types.CoordsExtensionality | src/types.ts:2 | a tuple is exactly its four components: equal iff every `c[i]` agrees |
| Types.MatrixExtensionality | src/types.ts:4-8 | a matrix is exactly its sixteen entries `M[col][row]`, indices 0..3: equal iff every entry agrees |
| Math.PrecisionTests | src/math.ts:4 | the strict-tolerance test and the "some component at or beyond precision" test are exact negations; the tolerance equality is reflexive and symmetric |
| Math.IdentityMatrix | src/math.ts:14-19 | entry `[col][row]` of the initial `res` is 1 iff `col == row`, else 0 |
| Math.Transpose | src/transform.ts:83-138 | entry `[col][row]` of the transpose is entry `[row][col]`, the relation between each rotation's two matrices |
| Math.Apply | src/math.ts:24-28 | the tuple `Σ_k v[k]·m[k]`: the loop body's sum with one column of `t1` fixed; its laws are Math.ApplyCombination, Math.ApplyPlus and Math.ApplyTimes |
| Math.Mul | src/math.ts:13-32 | the product column by column: column `c` is `t2` applied to column `c` of `t1`; Math.MatrixMultiply computes it and Math.ApplyMul gives its meaning |
| Math.MatrixMultiply | src/math.ts:13-32 | after the two loops every `res[col][row]` is `Σ_k t1[col][k]·t2[k][row]`; the result equals `Mul(t1, t2)`; the invariants say visited entries hold the sum and the rest still hold the identity |
| Math.MulEntries | src/math.ts:24-28 | every entry of `Mul(t1, t2)` is the sum the loop body writes |
| Math.MulEntryAt | src/math.ts:24-28 | entry `[col][row]` of `Mul(t1, t2)` is the loop's sum at that entry |
| Math.MulColumn | src/math.ts:24-28 | column `col` of the product is `t2` applied to column `col` of `t1` |
| Math.ApplyCombination | src/types.ts:4 | `Apply(m, v)` is the combination of the columns of `m` weighted by x, y, z and w |
| Math.ApplyMul | src/math.ts:13-32 | applying `Mul(t1, t2)` is applying `t1`, then `t2` |
| Math.ApplyIdentity | src/math.ts:14-19 | the identity leaves every tuple unchanged |
| Math.MulIdentity | src/math.ts:14-19 | the identity is a left and a right unit of the multiply |
| Math.MulAssociative | src/math.ts:13-32 | the multiply is associative |
| Math.ApplyPlus | src/math.ts:24-28 | `Apply` distributes over a sum of tuples |
| Math.ApplyTimes | src/math.ts:24-28 | `Apply` commutes with a scalar factor |
| Math.DotSymmetric | src/math.ts:24-28 | the four-component dot product is symmetric |
| Math.DotPlus | src/math.ts:24-28 | the dot product distributes over a sum in its first argument |
| Math.DotTimes | src/math.ts:24-28 | a scalar factor comes out of the dot product |
| Math.Pow10 | src/math.ts:7 | `10^p` is at least 1 |
| Math.RoundHalfUp | src/math.ts:8 | `Math.round(x)` is the integer `k` with `k - 1/2 <= x < k + 1/2` |
| Math.Round | src/math.ts:6-9 | `Math.round(n·10^p) / 10^p`; Math.RoundIsNearest and Math.RoundIdempotent state what it promises |
| Math.RoundIsNearest | src/math.ts:6-9 | `round(p, n)` is within half a unit of the p-th decimal digit of `n`, halves rounded up |
| Math.RoundIdempotent | src/math.ts:6-9 | rounding a rounded number to the same digits changes nothing |
| Math.RoundExamples | src/math.ts:6-9 | `round(2)` sends 0.004 to 0 and 0.006 to 0.01 |
| Math.Round4 | src/math.ts:11 | `round4(n)` is within 0.00005 of `n` |
| Transforms.Transform.Valid | src/transform.ts:9-11 | the invariant the two private matrices are built to keep: direct × inverse and inverse × direct are both the identity |
| Transforms.Transform.Direct | src/transform.ts:30-32 | `direct(row, col)` is the stored `_direct[col][row]`; Transforms.DirectReadsColumns shows the swap on a translation |
| Transforms.Transform.Inverse | src/transform.ts:34-36 | `inverse(row, col)` is the stored `_inverse[col][row]`; Transforms.DirectReadsColumns shows it on a translation |
| Transforms.Transform.Inverte | src/transform.ts:38-40 | the result's direct matrix is this inverse and its inverse is this direct; it keeps the pair invariant |
| Transforms.Transform.AsGeoMatrix | src/transform.ts:9 | a transform seen as a `GeoMatrix` carries both of its matrices |
| Transforms.Identity | src/transform.ts:13-21 | `direct(r, c)` and `inverse(r, c)` are 1 iff `r == c`, else 0 |
| Transforms.IdentityValid | src/transform.ts:13-21 | the identity keeps the pair invariant |
| Transforms.DirectReadsColumns | src/transform.ts:30-36 | `direct(row, col)` reads `_direct[col][row]`: the translation appears at rows 0-2 of column 3, and its negation in the inverse |
| Transforms.InverteInvolution | src/transform.ts:38-40 | `byInverting` is the same swap as `inverte`, and swapping twice restores both matrices |
| Transforms.ByInverting | src/transform.ts:62-64 | `byInverting(t)` is `t.inverte()`, and it is valid whenever `t` is |
| Transforms.RoundTrip | src/transform.ts:9-11 | for a valid transform the inverse undoes the direct matrix on every tuple, and the other way round |
| Transforms.Transform.ComposeWith | src/transform.ts:47-53 | the direct matrix is `matrixMultiply(t.direct, this.direct)` and the inverse `matrixMultiply(this.inverse, t.inverse)`, for an argument that carries an inverse; its meaning is in Transforms.ComposeWithApply and Transforms.ComposeWithValid |
| Transforms.ComposeWithApply | src/transform.ts:47-53 | the composed direct matrix applies `t`, then `this`; the composed inverse applies `this.inverse`, then `t.inverse` |
| Transforms.ComposeWithIdentity | src/transform.ts:47-53 | the identity is a unit of `composeWith` on both sides |
| Transforms.ComposeWithValid | src/transform.ts:47-53 | `composeWith` keeps the pair invariant when both operands keep it |
| Transforms.FromTranslation | src/transform.ts:66-81 | the literal pair with `(tx, ty, tz)` in column 3 of the direct matrix and its negation in the inverse; its meaning is in Transforms.FromTranslationValid and Transforms.FromTranslationAction |
| Transforms.FromTranslationValid | src/transform.ts:66-81 | every translation keeps the pair invariant |
| Transforms.FromTranslationAction | src/transform.ts:66-81 | the direct matrix adds `w·(tx, ty, tz)`, and the inverse subtracts it |
| Transforms.FromScale | src/transform.ts:140-155 | the diagonal pair `(sx, sy, sz, 1)` and `(1/sx, 1/sy, 1/sz, 1)`, for nonzero factors; its meaning is in Transforms.FromScaleValid and Transforms.FromScaleAction |
| Transforms.FromScaleValid | src/transform.ts:140-155 | every scale with nonzero factors keeps the pair invariant |
| Transforms.FromScaleAction | src/transform.ts:140-155 | the direct matrix multiplies each coordinate by its factor and leaves `w` alone |
| Transforms.ScaleExample | tests/scale.test.ts:5-19 | scale 2 sends (1, 2, 4) to (2, 4, 8), and its inverse sends (1, 2, 4) to (0.5, 1, 2) |
| Transforms.FromRotationX | src/transform.ts:83-100 | the inverse matrix is the transpose of the direct one |
| Transforms.FromRotationY | src/transform.ts:102-119 | the inverse matrix is the transpose of the direct one |
| Transforms.FromRotationZ | src/transform.ts:121-138 | the inverse matrix is the transpose of the direct one |
| Transforms.FromRotationXValid | src/transform.ts:83-100 | with `c² + s² = 1` the rotation keeps the pair invariant |
| Transforms.FromRotationYValid | src/transform.ts:102-119 | with `c² + s² = 1` the rotation keeps the pair invariant |
| Transforms.FromRotationZValid | src/transform.ts:121-138 | with `c² + s² = 1` the rotation keeps the pair invariant |
| Transforms.FromRotationXAction | src/transform.ts:83-100 | the image of `(x, y, z, w)` is `(x, c·y - s·z, s·y + c·z, w)` |
| Transforms.FromRotationYAction | src/transform.ts:102-119 | the image of `(x, y, z, w)` is `(c·x + s·z, y, c·z - s·x, w)` |
| Transforms.FromRotationZAction | src/transform.ts:121-138 | the image of `(x, y, z, w)` is `(c·x + s·y, c·y - s·x, z, w)` |
| Transforms.QuarterTurns | tests/rotations.test.ts:13-20 | with `(c, s) = (0, 1)` the rotations and the X inverse permute and negate the coordinates as the tests expect, e.g. X sends (0, 0, 1) to (0, -1, 0) |
| Transforms.NegativeQuarterTurns | tests/rotations.test.ts:4-11 | with `(c, s) = (0, -1)` each quarter turn goes the other way, e.g. X sends (0, 0, 1) to (0, 1, 0) |
| Transforms.ComposeTranslations | tests/compose.test.ts:4-12 | composing two translations gives the translation by the sum of the offsets |
| Transforms.ComposeRotationsX | tests/compose.test.ts:24-34 | composing two X rotations gives the X rotation by the cosine and sine of the summed angle |
| Operations.Map | src/operations.ts:9-11 | `map(t, o)` hands `t` to the object's own `o.map(t)`; Operations.MapCurried relates it to the curried form |
| Operations.MapOf | src/operations.ts:9-11 | the curried `map(t)`, waiting for the object; Operations.MapCurried |
| Operations.Reduce | src/operations.ts:18-21 | the fold `acc.composeWith(ts[0]).composeWith(ts[1])...`; Operations.ReduceSnoc, Operations.ReduceApply and Operations.ReduceInverse state what it computes |
| Operations.Compose | src/operations.ts:17-21 | the fold started from a new identity; Operations.ComposeApply, Operations.ComposeValid and Operations.ComposeInverse state what it computes |
| Operations.InvertedReversed | tests/compose.test.ts:84-92 | the inverses of `t1..tn` in the opposite order: element `k` is `t(n-1-k)` inverted |
| Operations.MapCurried | src/operations.ts:9-11 | `map(t)(o)`, `map(t, o)` and `o.map(t)` are the same value |
| Operations.ComposeEmpty | src/operations.ts:17-21 | `compose()` has identity direct and inverse matrices |
| Operations.ComposeSingle | src/operations.ts:17-21 | `compose(t)` is `t` |
| Operations.ReduceSnoc | src/operations.ts:18-21 | folding one more transform is one more `composeWith` |
| Operations.ComposeSnoc | src/operations.ts:17-21 | `compose(t1..tn, t)` is `compose(t1..tn).composeWith(t)`: a left fold |
| Operations.ComposeValid | src/operations.ts:17-21 | if every argument keeps the pair invariant, so does the composition |
| Operations.ReduceApply | src/operations.ts:18-21 | the fold applies the elements last first, then the start value |
| Operations.ComposeApply | src/operations.ts:17-21 | `compose(t1..tn)` maps `v` to `t1(t2(...tn(v)))` |
| Operations.ComposeTwoApply | src/operations.ts:17-21 | `compose(t1, t2)` applies `t2` first |
| Operations.ReduceInverse | src/operations.ts:18-21 | the folded inverse is the start's inverse times the inverse of the composition of the rest |
| Operations.ComposeInverse | tests/compose.test.ts:75-98 | the inverse of `compose(t1..tn)` is the direct matrix of `compose(tn⁻¹..t1⁻¹)` |
| Points.NewPoint | src/point.ts:6-8 | for `w != 0` the getters times `w` give back x, y and z, and the stored w is 1 |
| Points.NewPointDefault | src/point.ts:6-12 | with the default `w = 1` the getters return the inputs |
| Points.NewPointScaleInvariant | src/point.ts:7 | scaling all four inputs by a nonzero factor gives the same point |
| Vectors.NewVector | src/vector.ts:10-12 | `new Vector(x, y, z)` stores `(x, y, z, 0)`; Vectors.NewVectorCoordinates |
| Vectors.Vector.Coordinates | src/vector.ts:18 | `coordinates` has w = 0 and rebuilds the same vector |
| Vectors.NewVectorCoordinates | src/vector.ts:10-18 | `new Vector(x, y, z)` has coordinates (x, y, z, 0) and getters x, y, z |
| Vectors.Vector.MultiplyBy | src/vector.ts:27-29 | every component times `s`; Vectors.MultiplyByLaws and UnitVectors.ScaledSquaredLength state its laws |
| Vectors.MultiplyByLaws | src/vector.ts:27-29 | multiplying by 1 changes nothing, and two factors multiply |
| Vectors.MultiplyByExample | tests/vector.test.ts:45-51 | (10, 1, 2) times 10 is (100, 10, 20) |
| Vectors.Equals | src/vector.ts:31-35 | every component differs by less than the tolerance; Vectors.EqualsLaws |
| Vectors.NotEquals | src/vector.ts:37-41 | some component differs by at least the tolerance; Vectors.EqualsLaws proves it the negation of `equals` |
| Vectors.EqualsLaws | src/vector.ts:31-41 | `notEquals` is exactly `!equals`; `equals` is reflexive and symmetric |
| Vectors.EqualsExamples | tests/vector.test.ts:17-29 | a difference of 1e-6 is equal, one of 1e-3 is not and is `notEquals` |
| Vectors.FromPoints | src/vector.ts:47-49 | `p2 + fromPoints(p1, p2) = p1` componentwise |
| Vectors.FromPointsLaws | src/vector.ts:47-49 | swapping the points negates the vector; a point to itself is zero |
| Vectors.FromPointsExample | tests/vector.test.ts:36-43 | (10, 12, 15) - (5, 2, 10) = (5, 10, 5) |
| Vectors.DotProduct | src/vector.ts:65-67 | `x1·x2 + y1·y2 + z1·z2`; Vectors.DotProductSymmetric and Vectors.DotProductAxes |
| Vectors.DotProductSymmetric | src/vector.ts:65-67 | the dot product is symmetric |
| Vectors.DotProductAxes | tests/vector.test.ts:84-94 | distinct unit axes have dot product 0 |
| Vectors.SquaredLength | src/vector.ts:20-25 | the square of `length` is non-negative and zero exactly for the zero vector |
| Vectors.SquaredLengthOf | src/vector.ts:20-25 | the squared length of `new Vector(x, y, z)` is `x² + y² + z²` |
| Vectors.Cross | src/vector.ts:57-63 | the written cross product on tuples, y component `b.z·b.x - a.x·b.z`; Vectors.CrossAsWritten and Vectors.RightHandCross compare it with the right-hand one |
| Vectors.CrossProduct | src/vector.ts:57-63 | `Vector.crossProduct` as written, through Vectors.Cross |
| Vectors.RightHandCrossProduct | src/vector.ts:57-63 | `Vector.crossProduct` with the right-hand y component; Vectors.RightHandCrossLaws |
| Vectors.RightHandCross | src/vector.ts:57-63 | the right-hand cross product agrees with the written one in x and z |
| Vectors.CrossProductExample | tests/vector.test.ts:76-82 | X × Y = Z, which the written formula gets right |
| Vectors.CrossAsWritten | src/vector.ts:60 | as written, Z × X is the zero vector; the right-hand product gives Y |
| Vectors.RightHandCrossLaws | src/vector.ts:57-63 | the right-hand cross product is orthogonal to both factors and anticommutative |
| Vectors.RightHandCrossLength | src/vector.ts:57-63 | Lagrange's identity: `|a × b|² = |a|²|b|² - (a·b)²` |
| Vectors.Add | src/vector.ts:51-55 | `Vector.add(...vs)` as written, the fold from the zero vector; Vectors.AddAsWritten |
| Vectors.AddCorrected | src/vector.ts:51-55 | the same fold with `acc.y + v.y` in y; Vectors.AddCorrectedSums |
| Vectors.AddFromSnoc | src/vector.ts:51-55 | one more step of the written fold adds x, and adds z into both y and z |
| Vectors.AddCorrectedFromSnoc | src/vector.ts:51-55 | one more step of the corrected fold adds the vector componentwise |
| Vectors.AddAsWritten | src/vector.ts:53 | as written, `add` returns (Σx, Σz, Σz) |
| Vectors.AddCorrectedSums | src/vector.ts:51-55 | the corrected `add` returns (Σx, Σy, Σz) |
| Vectors.AddCounterexample | src/vector.ts:53 | `add((0, 1, 0))` is (0, 0, 0) as written and (0, 1, 0) corrected |
| Vectors.AddExample | tests/vector.test.ts:53-62 | the test's four vectors sum to zero either way |
| UnitVectors.UnitVector.Coordinates | src/unitvector.ts:30 | `coordinates` copies the tuple, and `fromCoords` turns it back into the same unit vector |
| UnitVectors.UnitVector.AsVector | src/unitvector.ts:26-28 | the same x, y and z as a `Vector` |
| UnitVectors.UnitVector.Length | src/unitvector.ts:32 | the `length` getter: 1 whatever the stored components; UnitVectors.LengthOfFromVector and UnitVectors.LengthOfCrossProduct say when that is true |
| UnitVectors.Default | src/unitvector.ts:22-24 | the private constructor is (1, 0, 0, 0) |
| UnitVectors.DefaultNorm | src/unitvector.ts:22-24 | the default unit vector has norm 1 |
| UnitVectors.FromCoords | src/unitvector.ts:9-13 | `fromCoords` stores the given components unchanged |
| UnitVectors.FromVector | src/unitvector.ts:15-20 | each component times the length `l` gives back the component of `v` |
| UnitVectors.FromVectorNorm | src/unitvector.ts:15-20 | `fromVector` gives norm 1 |
| UnitVectors.FromVectorScaleInvariant | src/unitvector.ts:15-20 | `fromVector` of a positive multiple of `v` is `fromVector(v)` |
| UnitVectors.ScaledLength | src/unitvector.ts:15-20 | the length of `f·v` is `f` times the length of `v` |
| UnitVectors.ScaledSquaredLength | src/vector.ts:27-29 | `multiplyBy(f)` scales the squared length by `f²` |
| UnitVectors.FromVectorScaled | src/unitvector.ts:15-20 | dividing `f·v` by `f·l` is dividing `v` by `l` |
| UnitVectors.LengthOfFromVector | src/unitvector.ts:32 | the `length` getter's 1 is the true length of a unit vector from `fromVector` |
| UnitVectors.FromVectorEqualsExample | tests/unitvector.test.ts:25-30 | `fromVector` of (1, 1, 1) and of (10984, 10984, 10984) are `equals` and not `notEquals` |
| UnitVectors.FromVectorExampleX | tests/unitvector.test.ts:20-23 | `fromVector((1, 0, 0))` has coordinates (1, 0, 0, 0) |
| UnitVectors.FromVectorExampleZ | tests/unitvector.test.ts:6-18 | `fromVector((0, 0, 100))` is (0, 0, 1) |
| UnitVectors.Equals | src/unitvector.ts:34-38 | every component differs by less than the tolerance; UnitVectors.EqualsLaws |
| UnitVectors.NotEquals | src/unitvector.ts:40-44 | some component differs by at least the tolerance; UnitVectors.EqualsLaws proves it the negation of `equals` |
| UnitVectors.EqualsLaws | src/unitvector.ts:34-44 | `notEquals` is exactly `!equals`; `equals` is reflexive and symmetric |
| UnitVectors.Parallel | src/unitvector.ts:46-50 | `parallel` as written: each `abs(v1.c) - abs(v2.c)` below the tolerance, with no outer absolute value; UnitVectors.ParallelOneSided and UnitVectors.ParallelAsymmetric |
| UnitVectors.ParallelCorrected | src/unitvector.ts:46-50 | `parallel` with the absolute value of each difference; UnitVectors.ParallelLaws |
| UnitVectors.ParallelLaws | src/unitvector.ts:46-50 | both forms are reflexive and see through a sign change; the corrected one is symmetric and implies the written one both ways |
| UnitVectors.ParallelOneSided | src/unitvector.ts:46-50 | the written `parallel` holds iff no component of `v1` exceeds that of `v2` by the tolerance, in absolute value |
| UnitVectors.ParallelAsymmetric | src/unitvector.ts:47-49 | two unit vectors 0.004 apart in x: the written `parallel` holds one way only; the corrected one fails both ways |
| UnitVectors.ParallelAsymmetricAt | src/unitvector.ts:47-49 | the same comparison on the two tuples |
| UnitVectors.UnitY | src/unitvector.ts:15-20 | `fromVector((0, 1, 0))` is (0, 1, 0, 0) |
| UnitVectors.NearUnitY | src/unitvector.ts:15-20 | `fromVector((1000, 249999, 0))` is (1000, 249999, 0, 0) / 250001 |
| UnitVectors.VectorParallel | src/vector.ts:43-45 | `Vector.parallel`: the written unit-vector test on both vectors normalised, with their lengths as parameters |
| UnitVectors.VectorParallelExample | tests/vector.test.ts:64-68 | `Vector.parallel((10, 10, 10), (-100, -100, -100))` holds |
| UnitVectors.CrossProduct | src/unitvector.ts:52-59 | the stored tuple is the written cross product, not renormalised |
| UnitVectors.RightHandCrossProduct | src/unitvector.ts:52-59 | the stored tuple is the right-hand cross product |
| UnitVectors.RightHandCrossProductLength | src/unitvector.ts:52-59 | for two norm-1 unit vectors the right-hand product has squared length `1 - (v1·v2)²`: norm 1 only when they are orthogonal |
| UnitVectors.LengthOfCrossProduct | src/unitvector.ts:32 | the cross product of the default with itself has true length 0 while `length` answers 1 |
| UnitVectors.DotProduct | src/unitvector.ts:61-63 | `x1·x2 + y1·y2 + z1·z2`; UnitVectors.DotProductLaws |
| UnitVectors.DotProductLaws | src/unitvector.ts:61-63 | the dot product is symmetric and equals the tuple dot product |
| UnitVectors.DotSquaredLength | src/unitvector.ts:61-63 | a w = 0 tuple dotted with itself is its squared length |
| Frames.Identity | src/frame.ts:19-27 | the constructor's direct and inverse matrices are the identity |
| Frames.Frame.I | src/frame.ts:45 | `i` is column 0 of the direct matrix |
| Frames.Frame.J | src/frame.ts:46 | `j` is column 1 of the direct matrix |
| Frames.Frame.K | src/frame.ts:47 | `k` is column 2 of the direct matrix |
| Frames.Frame.Origin | src/frame.ts:49 | `origin` is column 3 of the direct matrix |
| Frames.Frame.Inverte | src/frame.ts:52-54 | the result's matrices are this frame's, swapped |
| Frames.Frame.MapPoint | src/frame.ts:56-60 | under the helper contracts, the mapped point's tuple is the inverse matrix times `p`, whenever that product has w = 1 |
| Frames.Frame.MapVector | src/frame.ts:62-66 | under the helper contracts, the mapped vector's tuple is the inverse matrix times `v`, whenever that product has w = 0 |
| Frames.Frame.MapUnitVector | src/frame.ts:68-72 | under the helper contracts, the mapped unit vector's tuple is the inverse matrix times `u`, whenever that product has w = 0; it is not renormalised |
| Frames.InverteInvolution | src/frame.ts:52-54 | inverting twice restores the frame; inverting changes it iff the two matrices differ |
| Frames.MapsReadInverseOnly | src/frame.ts:56-72 | two frames with the same inverse map every point, vector and unit vector alike, whatever their direct matrices |
| Frames.IdentityMaps | src/frame.ts:19-27 | the identity frame maps every point, vector and unit vector to itself |
| Frames.MapPointRoundTrip | src/frame.ts:56-60 | for an affine frame with direct × inverse = identity, the inverted frame maps by the direct matrix, and `mapPoint` undoes it |
| Frames.MapVectorRoundTrip | src/frame.ts:62-66 | the same round trip for `mapVector` |
| Frames.MapUnitVectorRoundTrip | src/frame.ts:68-72 | the same round trip for `mapUnitVector` |
| Frames.AffineKeepsW | src/frame.ts:40 | a matrix whose last row is (0, 0, 0, 1) keeps `w` |
| Frames.ApplyOrthoInverse | src/frame.ts:41 | the assumed inverse maps `v` to the dot products of the axes with `v` minus those with the origin |
| Frames.OrthoInversePair | src/frame.ts:41 | for an affine matrix, direct × assumed inverse = identity iff the three axes are orthonormal |
| Frames.FromAxes | src/frame.ts:40-41 | direct columns `i`, `j`, `k` and `o`, and `invertAffineOrtogonalMatrix` of that as the inverse; Frames.FromAxesInversePair |
| Frames.FromTwoVectors | src/frame.ts:36-43 | `from2Vectors` as written: `k` is `v1` made unit, `j = k × unit(v2)` and `i = j × k` with the written cross product; Frames.AxisAlignedFrameAsWritten and Frames.WrittenAxesInversePair |
| Frames.FromTwoVectorsRightHanded | src/frame.ts:36-43 | `from2Vectors` with the right-hand cross product and nothing else changed; Frames.RightHandedFrameInversePair |
| Frames.FromTwoVectorsCorrected | src/frame.ts:36-43 | `from2Vectors` with the right-hand cross product and `j` made unit; Frames.CorrectedFrameInversePair |
| Frames.FromAxesInversePair | src/frame.ts:40-43 | the frame built on axes i, j, k and origin o is affine; its inverse is the assumed one; direct × inverse = identity iff i, j, k are orthonormal |
| Frames.FromAxesAccessors | src/frame.ts:40-49 | the frame's `origin` is `o` and its `k` is `k` |
| Frames.DotFromVector | src/unitvector.ts:15-20 | a dot product with `fromVector(v)`, times the length, is the dot product with `v` |
| Frames.RightHandedFrameOrthonormal | src/frame.ts:36-43 | with the right-hand cross product, the axes are orthonormal iff `v1 · v2 = 0` |
| Frames.RightHandedFrameInversePair | src/frame.ts:36-43 | with the right-hand cross product, direct × inverse = identity iff `v1 · v2 = 0` |
| Frames.RightHandedFrameTest | tests/frame.test.ts:14-36 | with the right-hand cross product, `v1 = (0, 0, 1)` and `v2 = (s, c, 0)` give direct × inverse = identity |
| Frames.FrameTestAsWritten | tests/frame.test.ts:14-36 | as written, `v1` along +z and `v2` in the xy plane give direct × inverse = identity only if `v2` has no x component, which the test's `(sin 45°, cos 45°, 0)` has |
| Frames.UnitAlongZ | src/unitvector.ts:15-20 | a vector along +z becomes (0, 0, 1) |
| Frames.WrittenAxesInversePair | src/frame.ts:38-39 | with the written cross product and `k = (0, 0, 1)`, an xy-plane unit `u2` gives an inverse pair only if its x is 0 |
| Frames.WrittenAxes | src/unitvector.ts:55 | with `k = (0, 0, 1)` and `u2` in the xy plane, the written products are `j = (-u2.y, 0, 0)` and `i = (0, u2.y, 0)` |
| Frames.AxisAlignedUnits | tests/frame.test.ts:38-42 | `v1` along +z and `v2` along +x become (0, 0, 1) and (1, 0, 0) |
| Frames.AxisAlignedFrameAsWritten | tests/frame.test.ts:38-50 | as written, the axis-aligned frame has zero columns i and j, so it is not the identity |
| Frames.AxisAlignedMapPointAsWritten | tests/frame.test.ts:52-61 | as written, the axis-aligned frame maps every point `p` to (0, 0, p.z - o.z) |
| Frames.AxisAlignedFrameCorrected | src/frame.ts:36-43 | with the corrected builder, the axis-aligned frame has the standard axes and origin `o` |
| Frames.AxisAlignedFrameAtOrigin | tests/frame.test.ts:38-50 | with the corrected builder, the axis-aligned frame at the origin has identity direct and inverse matrices |
| Frames.AxisAlignedMapPointCorrected | tests/frame.test.ts:52-61 | with the corrected builder, the axis-aligned frame maps `p` to `p - o`, e.g. (11, 11, 11) to (1, 1, 1) for `o = (10, 10, 10)` |
| Frames.AxisAlignedJ | src/unitvector.ts:15-20 | `fromVector((0, 1, 0))` is (0, 1, 0) |
| Frames.RightHandAxes | src/unitvector.ts:52-59 | right-hand Z × X = Y and Y × Z = X |
| Frames.StandardAxes | src/frame.ts:40 | the standard axes give the direct matrix with the identity's columns 0-2 and column 3 `o` |
| Frames.StandardOrthoInverse | src/frame.ts:41 | for standard axes the assumed inverse negates the origin column |
| Frames.DotStandardAxes | src/frame.ts:41 | dotting a standard axis picks one coordinate |
| Frames.IdentityDirect | src/frame.ts:41 | the assumed inverse of the identity matrix is the identity |
| Frames.CorrectedFrameOrthonormal | src/frame.ts:36-43 | normalising `j` makes the axes orthonormal for every pair of independent vectors |
| Frames.CorrectedFrameInversePair | src/frame.ts:36-43 | the corrected frame is affine, direct × inverse = identity, its `origin` is `o` and its `k` is `v1` normalised |
| Projections.Project.Direct | src/project.ts:31-33 | `direct(row, col)` is the stored `_direct[col][row]`; Projections.ConstructorEntries |
| Projections.Project.ComposeWith | src/project.ts:40-45 | `matrixMultiply(t.direct, this.direct)` as a new projection; Projections.ComposeWithApply and Projections.ComposeWithIgnoresInverse |
| Projections.FromMatrices | src/project.ts:88-92 | a projection on the first matrix; the second is dropped |
| Projections.NewProject | src/project.ts:17-25 | the constructor's matrix, the projection on XY; Projections.ConstructorIsProjectOnXY and Projections.ProjectOnXYRay |
| Projections.FromProjectOnXY | src/project.ts:55-64 | the XY literal; Projections.ProjectOnXYApply |
| Projections.FromProjectOnXZ | src/project.ts:66-75 | the XZ literal; Projections.ProjectOnXZApply |
| Projections.FromProjectOnYZ | src/project.ts:77-86 | the YZ literal; Projections.ProjectOnYZApply |
| Projections.Project.AsGeoMatrix | src/project.ts:9 | a projection seen as a `GeoMatrix` carries only its direct matrix |
| Projections.ConstructorIsProjectOnXY | src/project.ts:17-25 | the constructor and `fromProjectOnXY` build the same projection, for any view distance |
| Projections.ViewDistIgnored | src/project.ts:55-86 | none of the three builders reads the view distance |
| Projections.ConstructorEntries | src/project.ts:31-33 | read through `direct(row, col)`, the constructor's matrix is `diag(s, s)`, 1 at rows 2 and 3 of column 2, and 0 elsewhere |
| Projections.ProjectOnXYApply | src/project.ts:55-64 | the XY projection sends `v` to `(s·x, s·y, z, z)`: the output w is the input z |
| Projections.ProjectOnXZApply | src/project.ts:66-75 | the XZ projection sends `v` to `(s·x, y, s·z, y)` |
| Projections.ProjectOnYZApply | src/project.ts:77-86 | the YZ projection sends `v` to `(x, s·y, s·z, x)` |
| Projections.ProjectionsIgnoreW | src/project.ts:19-24 | all the projections have a zero column 3 |
| Projections.IgnoresW | src/project.ts:23 | a matrix with a zero column 3 gives the same image whatever the `w` of its argument |
| Projections.RayScaling | src/project.ts:19-24 | with a zero column 3, the image of `(f·x, f·y, f·z, w1)` is `f` times the image of `(x, y, z, w2)` |
| Projections.RayImagesCoincide | src/project.ts:19-24 | with a zero column 3, `p` and `f·p` (`f != 0`) become the same point after division by w |
| Projections.ProjectOnXYPoint | src/project.ts:17-25 | a point at depth `z != 0` lands at `(s·x/z, s·y/z, 1)` |
| Projections.ProjectOnXYRay | tests/project.test.ts:4-11 | the constructor's projection sends `p` (depth `!= 0`) and `f·p` to the same point |
| Projections.TestPointsCoincide | tests/project.test.ts:4-11 | (0, 2, 2) and (0, 20, 20) project to the same point under every matrix with a zero column 3 that gives the first a nonzero w |
| Projections.ComposeWithApply | src/project.ts:40-45 | `composeWith(t)` applies `t` first, then the projection |
| Projections.ComposeWithIgnoresInverse | src/project.ts:40-45 | `composeWith` reads only the argument's direct matrix, and its result carries no inverse |
| Projections.ComposeWithIdentity | src/project.ts:40-45 | composing with the identity gives the projection back |

## Left out

- Floating point: all arithmetic is exact over `real`. There is no IEEE rounding, NaN or infinity. A zero scale factor, a zero `w` in the `Point` constructor and a zero-length vector in `fromVector` are preconditions instead.
- `Math.cos`, `Math.sin`, `Math.tan`, `Math.sqrt` and `Math.acos` are not modelled: their results are parameters constrained algebraically. `Vector.length`, `UnitVector.angleBetween` (src/unitvector.ts:65-67) and the square roots in `Vector.parallel` go no further than that.
- Tests whose expected values need irrational square roots are not restated, among them the "non parallel" test at tests/vector.test.ts:70-74. The 45° tests of tests/frame.test.ts:14-36 are stated for any `(s, c)` instead.
- ramda: `clone` is value copy, `curry` is an ordinary function with a curried form (`Operations.MapOf`), and `reduce` is a recursive fold.
- The helpers that src/frame.ts imports but that are not part of this model have contracts only: `matrixVectorMultiply`, `invertAffineOrtogonalMatrix`, `Point.coordinates` and `fromCoordinates`. The same goes for the objects' own `map` methods, which `Operations.Map` takes as a parameter. `matrixEqual`, `Point.equals`, `Point.relative` and `Frame.composeWith`, used by the tests, are not part of this model.
- Test naming drift is not behaviour and is not modelled: `invert()` and `inverse()` in the tests versus `inverte` in the source, and `directMatrix` or `direct()` on a `Frame`.
- `Project`'s `_fov` field and its private `fovScale` getter (src/project.ts:11, 47-49) are never used by any builder: the scale comes in as `s`.
- `Frames.FrameTestAsWritten`: states only the direction "identity implies `v2` has no x component" for `v1` along +z and `v2` in the xy plane, not the general as-written frame.
- The frame tests at tests/frame.test.ts:64-274 (negative or rotated axes, relative points, translated frames) rely on `matrixEqual`, `Point.relative` and `Frame.composeWith`, which are not part of this model. Only the round trips of `mapPoint`, `mapVector` and `mapUnitVector` are proved.
- Transforms.Transform.ComposeWith: requires an argument that carries an inverse matrix. In the source, an argument without an `inverseMatrix` getter, such as a `Project` or a `Frame`, leaves `im2` undefined (src/transform.ts:49), and `matrixMultiply` then throws a TypeError on it (src/math.ts:25). The model does not model that error.
- A `Frame` as the argument of `composeWith` or `compose` is not modelled. The source `Frame` keeps both matrices private and has no `directMatrix` or `inverseMatrix` getter (src/frame.ts:8-74). So `compose(frameIn0, translate)` at tests/frame.test.ts:262 reads `undefined` for the frame's matrices.
- `map(frame, p)` in tests/frame.test.ts:52-61 calls `p.map(frame)`, and `Point.map` is not part of this model. Frames.AxisAlignedMapPointAsWritten and Frames.AxisAlignedMapPointCorrected take it to be `frame.mapPoint(p)`.
- The inverse × direct order for frames is not proved: `invertAffineOrtogonalMatrix` is trusted for direct × inverse only, which is what the tests check.
- The concrete project test fixes `fov = π/2`. The model proves it for every scale `s`, and for every matrix with a zero column 3 (`Projections.TestPointsCoincide`).

## Findings

| source | as written | input that shows it | evidently intended | confidence | as-written member | corrected member |
|---|---|---|---|---|---|---|
| src/vector.ts:60, src/unitvector.ts:55 | the y component of `crossProduct` is `v2.z*v2.x - v1.x*v2.z` | `(0, 0, 1) × (1, 0, 0)` gives (0, 0, 0) instead of (0, 1, 0) | `v1.z*v2.x - v1.x*v2.z`: orthogonal to both factors and anticommutative | high, not executed | Vectors.CrossAsWritten | Vectors.RightHandCrossLaws |
| src/vector.ts:53 | `add` writes `acc.z+v.z` into y | `add((0, 1, 0))` gives (0, 0, 0) | `acc.y+v.y`: the componentwise sum | high, not executed | Vectors.AddCounterexample | Vectors.AddCorrectedSums |
| src/unitvector.ts:47-49 | `parallel` tests `abs(v1.c) - abs(v2.c) < precision`, with no outer absolute value | (0, 1, 0) and (1000, 249999, 0)/250001: parallel one way, not the other | the absolute value of the difference: a symmetric test | medium, not executed | UnitVectors.ParallelAsymmetric | UnitVectors.ParallelLaws |
| src/frame.ts:38-39 | `from2Vectors` builds j and i with the written cross product | `v1 = (0, 0, 1)`, `v2 = (1, 0, 0)` give zero columns i and j, where tests/frame.test.ts:38-50 expects the identity frame | the right-hand cross product: the axis-aligned frame at the origin is the identity | high, not executed | Frames.AxisAlignedFrameAsWritten | Frames.AxisAlignedFrameAtOrigin |
| src/frame.ts:38 | `j = k × unit(v2)` is not normalised, even with a right-hand cross product | `v1 = (0, 0, 1)`, `v2 = (3, 0, 4)`: `j` has length 3/5, so direct × inverse is not the identity | normalise `j`, so that any `v2` in the x half-space gives an orthonormal frame | medium, not executed | Frames.RightHandedFrameInversePair | Frames.CorrectedFrameInversePair |
