/**
 * A frame of reference: an origin and three axes i, j, k, kept as the
 * columns of a direct matrix (frame to global) beside an inverse matrix
 * (global to frame).
 *
 * The frame code leans on functions whose bodies are not part of this
 * model: `matrixVectorMultiply`, `invertAffineOrtogonalMatrix`,
 * `Point.coordinates` and the `fromCoordinates` factories. They are the
 * fields of a `Helpers` value passed in, and lemmas that need to know what
 * they do say so in their preconditions, one named contract each.
 */
module Frames {
  import opened Types
  import opened Math
  import opened Points
  import opened Vectors
  import UV = UnitVectors

  /** The functions the frame code calls but this model does not define. */
  datatype Helpers = Helpers(
    matrixVectorMultiply: (Matrix, HCoords) -> HCoords,
    invertAffineOrtogonalMatrix: Matrix -> Matrix,
    pointCoordinates: Point -> HCoords,
    pointFromCoordinates: HCoords -> Point,
    vectorFromCoordinates: HCoords -> Vector,
    unitVectorFromCoordinates: HCoords -> UV.UnitVector)

  /** Contract: `matrixVectorMultiply(m, v)` is the tuple `m * v`. */
  ghost predicate MultipliesAsApply(h: Helpers)
  {
    forall m: Matrix, v: HCoords :: h.matrixVectorMultiply(m, v) == Apply(m, v)
  }

  /** Contract: `invertAffineOrtogonalMatrix` transposes the axes and negates the rotated origin. */
  ghost predicate InvertsAsOrthogonal(h: Helpers)
  {
    forall d: Matrix :: h.invertAffineOrtogonalMatrix(d) == OrthoInverse(d)
  }

  /** Contract: `Point.coordinates` returns the stored tuple and `Point.fromCoordinates` stores it back. */
  ghost predicate PointCoordinatesCopy(h: Helpers)
  {
    (forall p: Point :: h.pointCoordinates(p) == p.coord)
    && (forall c: PCoords :: h.pointFromCoordinates(c) == Point(c))
  }

  /** Contract: `Vector.fromCoordinates` stores a tuple with w = 0 as it is. */
  ghost predicate VectorCoordinatesCopy(h: Helpers)
  {
    forall c: VCoords :: h.vectorFromCoordinates(c) == Vector(c)
  }

  /** Contract: `UnitVector.fromCoordinates` stores a tuple with w = 0 as it is. */
  ghost predicate UnitVectorCoordinatesCopy(h: Helpers)
  {
    forall c: VCoords :: h.unitVectorFromCoordinates(c) == UV.UnitVector(c)
  }

  /** A frame: `directMatrix` maps frame coordinates to global ones, `inverseMatrix` back. */
  datatype Frame = Frame(directMatrix: Matrix, inverseMatrix: Matrix)
  {
    /** The `i` axis: column 0 of the direct matrix. */
    function I(h: Helpers): (v: Vector)
      requires VectorCoordinatesCopy(h) && directMatrix.c0.w == 0.0
      ensures v.coord == directMatrix.c0
    {
      h.vectorFromCoordinates(directMatrix.c0)
    }

    /** The `j` axis: column 1 of the direct matrix. */
    function J(h: Helpers): (v: Vector)
      requires VectorCoordinatesCopy(h) && directMatrix.c1.w == 0.0
      ensures v.coord == directMatrix.c1
    {
      h.vectorFromCoordinates(directMatrix.c1)
    }

    /** The `k` axis: column 2 of the direct matrix. */
    function K(h: Helpers): (v: Vector)
      requires VectorCoordinatesCopy(h) && directMatrix.c2.w == 0.0
      ensures v.coord == directMatrix.c2
    {
      h.vectorFromCoordinates(directMatrix.c2)
    }

    /** The `origin`: column 3 of the direct matrix. */
    function Origin(h: Helpers): (p: Point)
      requires PointCoordinatesCopy(h) && directMatrix.c3.w == 1.0
      ensures p.coord == directMatrix.c3
    {
      h.pointFromCoordinates(directMatrix.c3)
    }

    /** `inverte`: the frame with direct and inverse swapped. */
    function Inverte(): (f: Frame)
      ensures f.directMatrix == inverseMatrix && f.inverseMatrix == directMatrix
    {
      Frame(inverseMatrix, directMatrix)
    }

    /** `mapPoint(p)`: the point in this frame's coordinates, through the inverse matrix only. */
    function MapPoint(h: Helpers, p: Point): (q: Point)
      ensures MultipliesAsApply(h) && PointCoordinatesCopy(h) && Apply(inverseMatrix, p.coord).w == 1.0
              ==> q.coord == Apply(inverseMatrix, p.coord)
    {
      h.pointFromCoordinates(h.matrixVectorMultiply(inverseMatrix, h.pointCoordinates(p)))
    }

    /** `mapVector(v)`: the vector in this frame's coordinates, through the inverse matrix only. */
    function MapVector(h: Helpers, v: Vector): (r: Vector)
      ensures MultipliesAsApply(h) && VectorCoordinatesCopy(h) && Apply(inverseMatrix, v.coord).w == 0.0
              ==> r.coord == Apply(inverseMatrix, v.coord)
    {
      h.vectorFromCoordinates(h.matrixVectorMultiply(inverseMatrix, v.Coordinates()))
    }

    /** `mapUnitVector(u)`: the unit vector in this frame's coordinates, through the inverse matrix only. */
    function MapUnitVector(h: Helpers, u: UV.UnitVector): (r: UV.UnitVector)
      ensures MultipliesAsApply(h) && UnitVectorCoordinatesCopy(h) && Apply(inverseMatrix, u.coord).w == 0.0
              ==> r.coord == Apply(inverseMatrix, u.coord)
    {
      h.unitVectorFromCoordinates(h.matrixVectorMultiply(inverseMatrix, u.Coordinates()))
    }
  }

  /** The constructor: the global frame, with identity direct and inverse matrices. */
  function Identity(): (f: Frame)
    ensures f.directMatrix == IdentityMatrix() && f.inverseMatrix == IdentityMatrix()
  {
    Frame(IdentityMatrix(), IdentityMatrix())
  }

  /** Three axis columns with w = 0 and an origin column with w = 1. */
  predicate Affine(d: Matrix)
  {
    d.c0.w == 0.0 && d.c1.w == 0.0 && d.c2.w == 0.0 && d.c3.w == 1.0
  }

  /** Three tuples of norm 1, pairwise orthogonal. */
  predicate Orthonormal(a: HCoords, b: HCoords, c: HCoords)
  {
    Dot(a, a) == 1.0 && Dot(b, b) == 1.0 && Dot(c, c) == 1.0
    && Dot(a, b) == 0.0 && Dot(a, c) == 0.0 && Dot(b, c) == 0.0
  }

  /**
   * The inverse of an affine matrix whose axes are orthonormal: the axes
   * transposed, and the origin rotated back and negated.
   */
  function OrthoInverse(d: Matrix): Matrix
  {
    Matrix(HCoords(d.c0.x, d.c1.x, d.c2.x, 0.0),
           HCoords(d.c0.y, d.c1.y, d.c2.y, 0.0),
           HCoords(d.c0.z, d.c1.z, d.c2.z, 0.0),
           HCoords(-Dot(d.c0, d.c3), -Dot(d.c1, d.c3), -Dot(d.c2, d.c3), 1.0))
  }

  /** What `OrthoInverse(d)` does to a tuple: the dot product with each axis, less w times the axis's offset. */
  lemma ApplyOrthoInverse(d: Matrix, v: HCoords)
    requires Affine(d)
    ensures Apply(OrthoInverse(d), v) ==
            HCoords(Dot(v, d.c0) - v.w * Dot(d.c0, d.c3),
                    Dot(v, d.c1) - v.w * Dot(d.c1, d.c3),
                    Dot(v, d.c2) - v.w * Dot(d.c2, d.c3),
                    v.w)
  {
    assert v.w * d.c0.w == 0.0 && v.w * d.c1.w == 0.0 && v.w * d.c2.w == 0.0;
  }

  /**
   * Mapping by an affine matrix and then by its `OrthoInverse` gives every
   * tuple back exactly when the axes are orthonormal.
   */
  lemma {:induction false} OrthoInversePair(d: Matrix)
    requires Affine(d)
    ensures Mul(d, OrthoInverse(d)) == IdentityMatrix() <==> Orthonormal(d.c0, d.c1, d.c2)
  {
    var q := OrthoInverse(d);
    ApplyOrthoInverse(d, d.c0);
    ApplyOrthoInverse(d, d.c1);
    ApplyOrthoInverse(d, d.c2);
    ApplyOrthoInverse(d, d.c3);
    DotSymmetric(d.c0, d.c1);
    DotSymmetric(d.c0, d.c2);
    DotSymmetric(d.c1, d.c2);
    DotSymmetric(d.c0, d.c3);
    DotSymmetric(d.c1, d.c3);
    DotSymmetric(d.c2, d.c3);
    assert Mul(d, q) == Matrix(Apply(q, d.c0), Apply(q, d.c1), Apply(q, d.c2), Apply(q, d.c3));
  }

  /** The frame with axes `i`, `j`, `k` and origin `o` as direct columns, and `invertAffineOrtogonalMatrix` of that as inverse. */
  function FromAxes(h: Helpers, i: UV.UnitVector, j: UV.UnitVector, k: UV.UnitVector, o: Point): Frame
  {
    var direct := Matrix(i.Coordinates(), j.Coordinates(), k.Coordinates(), h.pointCoordinates(o));
    Frame(direct, h.invertAffineOrtogonalMatrix(direct))
  }

  /**
   * `from2Vectors(o, v1, v2)` as written, with `l1` and `l2` the lengths of
   * `v1` and `v2`: `k` is `v1` made unit, `j` the cross product of `k` and the
   * unit `v2`, `i` the cross product of `j` and `k`.
   */
  function FromTwoVectors(h: Helpers, o: Point, v1: Vector, l1: real, v2: Vector, l2: real): Frame
    requires l1 > 0.0 && Product(l1, l1) == SquaredLength(v1)
    requires l2 > 0.0 && Product(l2, l2) == SquaredLength(v2)
  {
    var k := UV.FromVector(v1, l1);
    var j := UV.CrossProduct(k, UV.FromVector(v2, l2));
    FromAxes(h, UV.CrossProduct(j, k), j, k, o)
  }

  /** `from2Vectors` with the right-hand cross product in place of the written one, and nothing else changed. */
  function FromTwoVectorsRightHanded(h: Helpers, o: Point, v1: Vector, l1: real, v2: Vector, l2: real): Frame
    requires l1 > 0.0 && Product(l1, l1) == SquaredLength(v1)
    requires l2 > 0.0 && Product(l2, l2) == SquaredLength(v2)
  {
    var k := UV.FromVector(v1, l1);
    var j := UV.RightHandCrossProduct(k, UV.FromVector(v2, l2));
    FromAxes(h, UV.RightHandCrossProduct(j, k), j, k, o)
  }

  /** The `j` axis before normalising: the right-hand cross product of the unit `v1` and the unit `v2`. */
  function RawJ(v1: Vector, l1: real, v2: Vector, l2: real): VCoords
    requires l1 > 0.0 && Product(l1, l1) == SquaredLength(v1)
    requires l2 > 0.0 && Product(l2, l2) == SquaredLength(v2)
  {
    RightHandCross(UV.FromVector(v1, l1).coord, UV.FromVector(v2, l2).coord)
  }

  /**
   * `from2Vectors` corrected: the right-hand cross product, and `j` made unit
   * (`lj` is the length of `RawJ`, positive when `v1` and `v2` are independent).
   */
  function FromTwoVectorsCorrected(h: Helpers, o: Point, v1: Vector, l1: real, v2: Vector, l2: real, lj: real): Frame
    requires l1 > 0.0 && Product(l1, l1) == SquaredLength(v1)
    requires l2 > 0.0 && Product(l2, l2) == SquaredLength(v2)
    requires lj > 0.0 && Product(lj, lj) == SquaredLength(Vector(RawJ(v1, l1, v2, l2)))
  {
    var k := UV.FromVector(v1, l1);
    var j := UV.FromVector(Vector(RawJ(v1, l1, v2, l2)), lj);
    FromAxes(h, UV.RightHandCrossProduct(j, k), j, k, o)
  }

  /**
   * A frame built from axes whose inverse comes from `invertAffineOrtogonalMatrix`
   * undoes its direct matrix exactly when the axes are orthonormal; its
   * origin is `o` and its `k` axis is the given `k`.
   */
  lemma FromAxesInversePair(h: Helpers, i: UV.UnitVector, j: UV.UnitVector, k: UV.UnitVector, o: Point)
    requires InvertsAsOrthogonal(h) && PointCoordinatesCopy(h)
    ensures Affine(FromAxes(h, i, j, k, o).directMatrix)
    ensures FromAxes(h, i, j, k, o).inverseMatrix == OrthoInverse(FromAxes(h, i, j, k, o).directMatrix)
    ensures var f := FromAxes(h, i, j, k, o);
            Mul(f.directMatrix, f.inverseMatrix) == IdentityMatrix() <==> Orthonormal(i.coord, j.coord, k.coord)
  {
    OrthoInversePair(FromAxes(h, i, j, k, o).directMatrix);
  }

  /** The origin and `k` axis of a frame built from axes are the given origin and `k`. */
  lemma FromAxesAccessors(h: Helpers, i: UV.UnitVector, j: UV.UnitVector, k: UV.UnitVector, o: Point)
    requires PointCoordinatesCopy(h) && VectorCoordinatesCopy(h)
    ensures FromAxes(h, i, j, k, o).Origin(h) == o
    ensures FromAxes(h, i, j, k, o).K(h) == k.AsVector()
  {
  }

  /** Dividing a tuple by `l` divides its dot product with any other tuple by `l`. */
  lemma DotFromVector(v: Vector, l: real, c: HCoords)
    requires l > 0.0 && Product(l, l) == SquaredLength(v)
    ensures Dot(UV.FromVector(v, l).coord, c) * l == Dot(v.coord, c)
  {
    var u := UV.FromVector(v, l);
    assert Dot(u.coord, c) * l == (u.X() * l) * c.x + (u.Y() * l) * c.y + (u.Z() * l) * c.z;
  }

  /** The corrected construction always yields orthonormal axes. */
  lemma CorrectedFrameOrthonormal(v1: Vector, l1: real, v2: Vector, l2: real, lj: real)
    requires l1 > 0.0 && Product(l1, l1) == SquaredLength(v1)
    requires l2 > 0.0 && Product(l2, l2) == SquaredLength(v2)
    requires lj > 0.0 && Product(lj, lj) == SquaredLength(Vector(RawJ(v1, l1, v2, l2)))
    ensures var k := UV.FromVector(v1, l1);
            var j := UV.FromVector(Vector(RawJ(v1, l1, v2, l2)), lj);
            Orthonormal(UV.RightHandCrossProduct(j, k).coord, j.coord, k.coord)
  {
    var k := UV.FromVector(v1, l1);
    var u2 := UV.FromVector(v2, l2);
    var j0 := RawJ(v1, l1, v2, l2);
    var j := UV.FromVector(Vector(j0), lj);
    var i := UV.RightHandCrossProduct(j, k).coord;
    UV.FromVectorNorm(v1, l1);
    UV.DotSquaredLength(k.coord);
    UV.FromVectorNorm(Vector(j0), lj);
    UV.DotSquaredLength(j.coord);
    RightHandCrossLaws(k.coord, u2.coord);
    DotFromVector(Vector(j0), lj, k.coord);
    assert Dot(j.coord, k.coord) == 0.0;
    RightHandCrossLaws(j.coord, k.coord);
    RightHandCrossLength(j.coord, k.coord);
  }

  /** With the cross product fixed but `j` left as it is, the axes are orthonormal exactly when `v1` and `v2` are orthogonal. */
  lemma RightHandedFrameOrthonormal(v1: Vector, l1: real, v2: Vector, l2: real)
    requires l1 > 0.0 && Product(l1, l1) == SquaredLength(v1)
    requires l2 > 0.0 && Product(l2, l2) == SquaredLength(v2)
    ensures var k := UV.FromVector(v1, l1);
            var j := UV.RightHandCrossProduct(k, UV.FromVector(v2, l2));
            Orthonormal(UV.RightHandCrossProduct(j, k).coord, j.coord, k.coord) <==> Dot(v1.coord, v2.coord) == 0.0
  {
    var k := UV.FromVector(v1, l1);
    var u2 := UV.FromVector(v2, l2);
    var j := UV.RightHandCrossProduct(k, u2);
    var i := UV.RightHandCrossProduct(j, k).coord;
    UV.FromVectorNorm(v1, l1);
    UV.DotSquaredLength(k.coord);
    UV.FromVectorNorm(v2, l2);
    UV.DotSquaredLength(u2.coord);
    var d := Dot(k.coord, u2.coord);
    RightHandCrossLength(k.coord, u2.coord);
    RightHandCrossLaws(k.coord, u2.coord);
    RightHandCrossLaws(j.coord, k.coord);
    RightHandCrossLength(j.coord, k.coord);
    assert Dot(j.coord, j.coord) == 1.0 - Product(d, d);
    assert Dot(i, i) == Dot(j.coord, j.coord);
    SquareSign(d);
    DotFromVector(v1, l1, u2.coord);
    DotSymmetric(v1.coord, u2.coord);
    DotFromVector(v2, l2, v1.coord);
    DotSymmetric(v2.coord, v1.coord);
    assert Dot(v1.coord, v2.coord) == (d * l1) * l2;
    if d != 0.0 {
      if d > 0.0 {
        ProductPositive(d, l1);
        ProductPositive(d * l1, l2);
      } else {
        ProductPositive(-d, l1);
        ProductPositive(-d * l1, l2);
      }
    }
  }

  /** The corrected frame: its direct matrix times its inverse is the identity, its origin is `o` and its `k` axis is `v1` made unit. */
  lemma CorrectedFrameInversePair(h: Helpers, o: Point, v1: Vector, l1: real, v2: Vector, l2: real, lj: real)
    requires InvertsAsOrthogonal(h) && PointCoordinatesCopy(h) && VectorCoordinatesCopy(h)
    requires l1 > 0.0 && Product(l1, l1) == SquaredLength(v1)
    requires l2 > 0.0 && Product(l2, l2) == SquaredLength(v2)
    requires lj > 0.0 && Product(lj, lj) == SquaredLength(Vector(RawJ(v1, l1, v2, l2)))
    ensures var f := FromTwoVectorsCorrected(h, o, v1, l1, v2, l2, lj);
            Affine(f.directMatrix) && Mul(f.directMatrix, f.inverseMatrix) == IdentityMatrix()
            && f.Origin(h) == o && f.K(h) == UV.FromVector(v1, l1).AsVector()
  {
    var k := UV.FromVector(v1, l1);
    var j := UV.FromVector(Vector(RawJ(v1, l1, v2, l2)), lj);
    CorrectedFrameOrthonormal(v1, l1, v2, l2, lj);
    FromAxesInversePair(h, UV.RightHandCrossProduct(j, k), j, k, o);
    FromAxesAccessors(h, UV.RightHandCrossProduct(j, k), j, k, o);
  }

  /** With only the cross product fixed, direct times inverse is the identity exactly when `v1` and `v2` are orthogonal. */
  lemma RightHandedFrameInversePair(h: Helpers, o: Point, v1: Vector, l1: real, v2: Vector, l2: real)
    requires InvertsAsOrthogonal(h) && PointCoordinatesCopy(h)
    requires l1 > 0.0 && Product(l1, l1) == SquaredLength(v1)
    requires l2 > 0.0 && Product(l2, l2) == SquaredLength(v2)
    ensures var f := FromTwoVectorsRightHanded(h, o, v1, l1, v2, l2);
            Mul(f.directMatrix, f.inverseMatrix) == IdentityMatrix() <==> Dot(v1.coord, v2.coord) == 0.0
  {
    var k := UV.FromVector(v1, l1);
    var j := UV.RightHandCrossProduct(k, UV.FromVector(v2, l2));
    RightHandedFrameOrthonormal(v1, l1, v2, l2);
    FromAxesInversePair(h, UV.RightHandCrossProduct(j, k), j, k, o);
  }

  /**
   * The first frame test: `v1 = (0, 0, 1)` and `v2 = (sin a, cos a, 0)` are
   * orthogonal, so the right-handed frame's direct times inverse is the identity.
   */
  lemma RightHandedFrameTest(h: Helpers, o: Point, s: real, c: real, l1: real, l2: real)
    requires InvertsAsOrthogonal(h) && PointCoordinatesCopy(h)
    requires l1 > 0.0 && Product(l1, l1) == SquaredLength(NewVector(0.0, 0.0, 1.0))
    requires l2 > 0.0 && Product(l2, l2) == SquaredLength(NewVector(s, c, 0.0))
    ensures var f := FromTwoVectorsRightHanded(h, o, NewVector(0.0, 0.0, 1.0), l1, NewVector(s, c, 0.0), l2);
            Mul(f.directMatrix, f.inverseMatrix) == IdentityMatrix()
  {
    RightHandedFrameInversePair(h, o, NewVector(0.0, 0.0, 1.0), l1, NewVector(s, c, 0.0), l2);
  }

  /**
   * The same test as written: with `v1` along z and `v2` in the xy plane the written cross
   * product gives `j = (-y, 0, 0)` and `i = (0, y, 0)`, where `y` is the y
   * component of the unit `v2`, so direct times inverse is the identity only
   * when `v2` has no x component; the test's `(sin 45, cos 45, 0)` has one.
   */
  lemma FrameTestAsWritten(h: Helpers, o: Point, v1: Vector, l1: real, v2: Vector, l2: real)
    requires InvertsAsOrthogonal(h) && PointCoordinatesCopy(h)
    requires v1.X() == 0.0 && v1.Y() == 0.0 && v1.Z() > 0.0 && l1 > 0.0 && Product(l1, l1) == SquaredLength(v1)
    requires v2.Z() == 0.0 && l2 > 0.0 && Product(l2, l2) == SquaredLength(v2)
    ensures var f := FromTwoVectors(h, o, v1, l1, v2, l2);
            Mul(f.directMatrix, f.inverseMatrix) == IdentityMatrix() ==> v2.X() == 0.0
  {
    var k := UV.FromVector(v1, l1);
    var u2 := UV.FromVector(v2, l2);
    assert k.coord == HCoords(0.0, 0.0, 1.0, 0.0) by {
      UnitAlongZ(v1, l1);
    }
    assert SquaredLength(u2.AsVector()) == 1.0 by {
      UV.FromVectorNorm(v2, l2);
    }
    assert u2.X() == 0.0 ==> v2.X() == 0.0 by {
      DivTimes(v2.X(), l2);
    }
    WrittenAxesInversePair(h, o, k, u2);
  }

  /** A vector along the positive z axis has the unit vector (0, 0, 1). */
  lemma UnitAlongZ(v: Vector, l: real)
    requires v.X() == 0.0 && v.Y() == 0.0 && v.Z() > 0.0 && l > 0.0 && Product(l, l) == SquaredLength(v)
    ensures UV.FromVector(v, l).coord == HCoords(0.0, 0.0, 1.0, 0.0)
  {
    assert SquaredLength(v) == Product(v.Z(), v.Z());
    UV.SquareRootUnique(l, v.Z());
    assert v.Z() / l == 1.0 && 0.0 / l == 0.0;
  }

  /** The written axes for `k = (0, 0, 1)` and a unit `u2` in the xy plane are orthonormal only if `u2` has no x component. */
  lemma WrittenAxesInversePair(h: Helpers, o: Point, k: UV.UnitVector, u2: UV.UnitVector)
    requires InvertsAsOrthogonal(h) && PointCoordinatesCopy(h)
    requires k.coord == HCoords(0.0, 0.0, 1.0, 0.0) && u2.Z() == 0.0 && SquaredLength(u2.AsVector()) == 1.0
    ensures var j := UV.CrossProduct(k, u2);
            var f := FromAxes(h, UV.CrossProduct(j, k), j, k, o);
            Mul(f.directMatrix, f.inverseMatrix) == IdentityMatrix() ==> u2.X() == 0.0
  {
    var j := UV.CrossProduct(k, u2);
    var i := UV.CrossProduct(j, k);
    WrittenAxes(k, u2);
    FromAxesInversePair(h, i, j, k, o);
    if Orthonormal(i.coord, j.coord, k.coord) {
      assert Dot(i.coord, i.coord) == Product(u2.Y(), u2.Y());
      SquareSign(u2.X());
    }
  }

  /** The written cross products for `k = (0, 0, 1)` and a unit `u2` in the xy plane. */
  lemma WrittenAxes(k: UV.UnitVector, u2: UV.UnitVector)
    requires k.coord == HCoords(0.0, 0.0, 1.0, 0.0) && u2.Z() == 0.0
    ensures UV.CrossProduct(k, u2).coord == HCoords(-u2.Y(), 0.0, 0.0, 0.0)
    ensures UV.CrossProduct(UV.CrossProduct(k, u2), k).coord == HCoords(0.0, u2.Y(), 0.0, 0.0)
  {
  }

  /** `v1` along the positive z axis and `v2` along the positive x axis, as in the axis-aligned frame tests. */
  predicate AxisAligned(v1: Vector, v2: Vector)
  {
    v1.X() == 0.0 && v1.Y() == 0.0 && v1.Z() > 0.0 && v2.X() > 0.0 && v2.Y() == 0.0 && v2.Z() == 0.0
  }

  /** For axis-aligned vectors the unit vectors are the z and x axes. */
  lemma AxisAlignedUnits(v1: Vector, l1: real, v2: Vector, l2: real)
    requires AxisAligned(v1, v2)
    requires l1 > 0.0 && Product(l1, l1) == SquaredLength(v1)
    requires l2 > 0.0 && Product(l2, l2) == SquaredLength(v2)
    ensures UV.FromVector(v1, l1).coord == HCoords(0.0, 0.0, 1.0, 0.0)
    ensures UV.FromVector(v2, l2).coord == HCoords(1.0, 0.0, 0.0, 0.0)
  {
    SquareSign(0.0);
    UV.SquareRootUnique(l1, v1.Z());
    UV.SquareRootUnique(l2, v2.X());
    assert v1.Z() / l1 == 1.0 && 0.0 / l1 == 0.0;
    assert v2.X() / l2 == 1.0 && 0.0 / l2 == 0.0;
  }

  /**
   * The axis-aligned frame test as written: the written cross product of z
   * and x is zero, so the `i` and `j` columns are zero and the direct matrix
   * is not the identity, whatever the origin.
   */
  lemma AxisAlignedFrameAsWritten(h: Helpers, o: Point, v1: Vector, l1: real, v2: Vector, l2: real)
    requires AxisAligned(v1, v2)
    requires l1 > 0.0 && Product(l1, l1) == SquaredLength(v1)
    requires l2 > 0.0 && Product(l2, l2) == SquaredLength(v2)
    ensures var f := FromTwoVectors(h, o, v1, l1, v2, l2);
            f.directMatrix.c0 == HCoords(0.0, 0.0, 0.0, 0.0) && f.directMatrix.c1 == HCoords(0.0, 0.0, 0.0, 0.0)
            && f.directMatrix != IdentityMatrix()
  {
    AxisAlignedUnits(v1, l1, v2, l2);
  }

  /**
   * The axis-aligned frame test as written maps a point `p` to
   * `(0, 0, p.z - o.z)`: the point (11, 11, 11) in the frame at (10, 10, 10)
   * comes out as (0, 0, 1), not (1, 1, 1).
   */
  lemma AxisAlignedMapPointAsWritten(h: Helpers, o: Point, v1: Vector, l1: real, v2: Vector, l2: real, p: Point)
    requires MultipliesAsApply(h) && InvertsAsOrthogonal(h) && PointCoordinatesCopy(h)
    requires AxisAligned(v1, v2)
    requires l1 > 0.0 && Product(l1, l1) == SquaredLength(v1)
    requires l2 > 0.0 && Product(l2, l2) == SquaredLength(v2)
    ensures FromTwoVectors(h, o, v1, l1, v2, l2).MapPoint(h, p).coord == HCoords(0.0, 0.0, p.Z() - o.Z(), 1.0)
  {
    var f := FromTwoVectors(h, o, v1, l1, v2, l2);
    AxisAlignedFrameAsWritten(h, o, v1, l1, v2, l2);
    ApplyOrthoInverse(f.directMatrix, p.coord);
  }

  /** The axis-aligned frame test, corrected: the axes are x, y and z, so the direct matrix is the identity moved to `o`. */
  lemma AxisAlignedFrameCorrected(h: Helpers, o: Point, v1: Vector, l1: real, v2: Vector, l2: real, lj: real)
    requires PointCoordinatesCopy(h)
    requires AxisAligned(v1, v2)
    requires l1 > 0.0 && Product(l1, l1) == SquaredLength(v1)
    requires l2 > 0.0 && Product(l2, l2) == SquaredLength(v2)
    requires lj > 0.0 && Product(lj, lj) == SquaredLength(Vector(RawJ(v1, l1, v2, l2)))
    ensures FromTwoVectorsCorrected(h, o, v1, l1, v2, l2, lj).directMatrix
            == Matrix(HCoords(1.0, 0.0, 0.0, 0.0), HCoords(0.0, 1.0, 0.0, 0.0), HCoords(0.0, 0.0, 1.0, 0.0), o.coord)
  {
    AxisAlignedUnits(v1, l1, v2, l2);
    var k := UV.FromVector(v1, l1);
    var j := UV.FromVector(Vector(RawJ(v1, l1, v2, l2)), lj);
    RightHandAxes(k.coord, UV.FromVector(v2, l2).coord);
    AxisAlignedJ(RawJ(v1, l1, v2, l2), lj);
    RightHandAxes(j.coord, k.coord);
    StandardAxes(h, o, UV.RightHandCrossProduct(j, k), j, k);
  }

  /** The right-hand cross products z x x = y and y x z = x. */
  lemma RightHandAxes(a: HCoords, b: HCoords)
    ensures a == HCoords(0.0, 0.0, 1.0, 0.0) && b == HCoords(1.0, 0.0, 0.0, 0.0) ==> RightHandCross(a, b) == HCoords(0.0, 1.0, 0.0, 0.0)
    ensures a == HCoords(0.0, 1.0, 0.0, 0.0) && b == HCoords(0.0, 0.0, 1.0, 0.0) ==> RightHandCross(a, b) == HCoords(1.0, 0.0, 0.0, 0.0)
  {
  }

  /** The corrected axis-aligned frame at the global origin is the identity, direct and inverse, as the axis-aligned test requires. */
  lemma AxisAlignedFrameAtOrigin(h: Helpers, o: Point, v1: Vector, l1: real, v2: Vector, l2: real, lj: real)
    requires InvertsAsOrthogonal(h) && PointCoordinatesCopy(h)
    requires o.coord == HCoords(0.0, 0.0, 0.0, 1.0) && AxisAligned(v1, v2)
    requires l1 > 0.0 && Product(l1, l1) == SquaredLength(v1)
    requires l2 > 0.0 && Product(l2, l2) == SquaredLength(v2)
    requires lj > 0.0 && Product(lj, lj) == SquaredLength(Vector(RawJ(v1, l1, v2, l2)))
    ensures FromTwoVectorsCorrected(h, o, v1, l1, v2, l2, lj).directMatrix == IdentityMatrix()
    ensures FromTwoVectorsCorrected(h, o, v1, l1, v2, l2, lj).inverseMatrix == IdentityMatrix()
  {
    var f := FromTwoVectorsCorrected(h, o, v1, l1, v2, l2, lj);
    AxisAlignedFrameCorrected(h, o, v1, l1, v2, l2, lj);
    IdentityDirect(h, f, f.directMatrix);
  }

  /** A frame built on the x, y and z axes has the identity moved to `o` as direct matrix. */
  lemma StandardAxes(h: Helpers, o: Point, i: UV.UnitVector, j: UV.UnitVector, k: UV.UnitVector)
    requires PointCoordinatesCopy(h)
    requires i.coord == HCoords(1.0, 0.0, 0.0, 0.0) && j.coord == HCoords(0.0, 1.0, 0.0, 0.0) && k.coord == HCoords(0.0, 0.0, 1.0, 0.0)
    ensures FromAxes(h, i, j, k, o).directMatrix
            == Matrix(HCoords(1.0, 0.0, 0.0, 0.0), HCoords(0.0, 1.0, 0.0, 0.0), HCoords(0.0, 0.0, 1.0, 0.0), o.coord)
  {
  }

  /** A frame whose direct matrix is the identity has the identity as inverse too. */
  lemma IdentityDirect(h: Helpers, f: Frame, d: Matrix)
    requires InvertsAsOrthogonal(h)
    requires d == IdentityMatrix() && f.inverseMatrix == h.invertAffineOrtogonalMatrix(d)
    ensures f.inverseMatrix == IdentityMatrix()
  {
    StandardOrthoInverse(d);
  }

  /** On the x, y and z axes `OrthoInverse` is the translation by minus the origin. */
  lemma StandardOrthoInverse(d: Matrix)
    requires d.c0 == HCoords(1.0, 0.0, 0.0, 0.0)
    requires d.c1 == HCoords(0.0, 1.0, 0.0, 0.0)
    requires d.c2 == HCoords(0.0, 0.0, 1.0, 0.0)
    ensures OrthoInverse(d) == Matrix(d.c0, d.c1, d.c2, HCoords(-d.c3.x, -d.c3.y, -d.c3.z, 1.0))
  {
    DotStandardAxes(d.c3);
  }

  /** The dot product with an axis picks out one component. */
  lemma DotStandardAxes(o: HCoords)
    ensures Dot(HCoords(1.0, 0.0, 0.0, 0.0), o) == o.x
    ensures Dot(HCoords(0.0, 1.0, 0.0, 0.0), o) == o.y
    ensures Dot(HCoords(0.0, 0.0, 1.0, 0.0), o) == o.z
  {
  }

  /** The unit vector made from the tuple (0, 1, 0, 0) is itself. */
  lemma AxisAlignedJ(c: VCoords, l: real)
    requires c == HCoords(0.0, 1.0, 0.0, 0.0)
    requires l > 0.0 && Product(l, l) == SquaredLength(Vector(c))
    ensures UV.FromVector(Vector(c), l).coord == c
  {
    SquaredLengthOf(0.0, 1.0, 0.0);
    SquareSign(0.0);
    UV.SquareRootUnique(l, 1.0);
  }

  /**
   * The corrected axis-aligned frame maps a point to its offset from the
   * origin: (11, 11, 11) in the frame at (10, 10, 10) becomes (1, 1, 1).
   */
  lemma AxisAlignedMapPointCorrected(h: Helpers, o: Point, v1: Vector, l1: real, v2: Vector, l2: real, lj: real, p: Point)
    requires MultipliesAsApply(h) && InvertsAsOrthogonal(h) && PointCoordinatesCopy(h)
    requires AxisAligned(v1, v2)
    requires l1 > 0.0 && Product(l1, l1) == SquaredLength(v1)
    requires l2 > 0.0 && Product(l2, l2) == SquaredLength(v2)
    requires lj > 0.0 && Product(lj, lj) == SquaredLength(Vector(RawJ(v1, l1, v2, l2)))
    ensures FromTwoVectorsCorrected(h, o, v1, l1, v2, l2, lj).MapPoint(h, p).coord
            == HCoords(p.X() - o.X(), p.Y() - o.Y(), p.Z() - o.Z(), 1.0)
  {
    var f := FromTwoVectorsCorrected(h, o, v1, l1, v2, l2, lj);
    AxisAlignedFrameCorrected(h, o, v1, l1, v2, l2, lj);
    ApplyOrthoInverse(f.directMatrix, p.coord);
  }

  /** The constructor's frame maps every point, vector and unit vector to itself. */
  lemma IdentityMaps(h: Helpers, p: Point, v: Vector, u: UV.UnitVector)
    requires MultipliesAsApply(h) && PointCoordinatesCopy(h) && VectorCoordinatesCopy(h) && UnitVectorCoordinatesCopy(h)
    ensures Identity().MapPoint(h, p) == p
    ensures Identity().MapVector(h, v) == v
    ensures Identity().MapUnitVector(h, u) == u
  {
    ApplyIdentity(p.coord);
    ApplyIdentity(v.Coordinates());
    ApplyIdentity(u.Coordinates());
  }

  /** `inverte` twice gives the frame back. */
  lemma InverteInvolution(f: Frame)
    ensures f.Inverte().Inverte() == f
    ensures f.Inverte() != f <==> f.directMatrix != f.inverseMatrix
  {
  }

  /** An affine matrix keeps w: points stay points and vectors stay vectors. */
  lemma AffineKeepsW(d: Matrix, v: HCoords)
    requires Affine(d)
    ensures Apply(d, v).w == v.w
  {
    assert v.x * d.c0.w == 0.0 && v.y * d.c1.w == 0.0 && v.z * d.c2.w == 0.0;
  }

  /**
   * When direct times inverse is the identity, a point taken to global
   * coordinates by the inverted frame is mapped back by the frame.
   */
  lemma MapPointRoundTrip(h: Helpers, f: Frame, p: Point)
    requires MultipliesAsApply(h) && PointCoordinatesCopy(h)
    requires Affine(f.directMatrix) && Mul(f.directMatrix, f.inverseMatrix) == IdentityMatrix()
    ensures f.Inverte().MapPoint(h, p).coord == Apply(f.directMatrix, p.coord)
    ensures f.MapPoint(h, f.Inverte().MapPoint(h, p)) == p
  {
    AffineKeepsW(f.directMatrix, p.coord);
    ApplyMul(f.directMatrix, f.inverseMatrix, p.coord);
    ApplyIdentity(p.coord);
  }

  /** The same round trip for vectors. */
  lemma MapVectorRoundTrip(h: Helpers, f: Frame, v: Vector)
    requires MultipliesAsApply(h) && VectorCoordinatesCopy(h)
    requires Affine(f.directMatrix) && Mul(f.directMatrix, f.inverseMatrix) == IdentityMatrix()
    ensures f.Inverte().MapVector(h, v).coord == Apply(f.directMatrix, v.coord)
    ensures f.MapVector(h, f.Inverte().MapVector(h, v)) == v
  {
    AffineKeepsW(f.directMatrix, v.coord);
    ApplyMul(f.directMatrix, f.inverseMatrix, v.coord);
    ApplyIdentity(v.coord);
  }

  /** The same round trip for unit vectors. */
  lemma MapUnitVectorRoundTrip(h: Helpers, f: Frame, u: UV.UnitVector)
    requires MultipliesAsApply(h) && UnitVectorCoordinatesCopy(h)
    requires Affine(f.directMatrix) && Mul(f.directMatrix, f.inverseMatrix) == IdentityMatrix()
    ensures f.Inverte().MapUnitVector(h, u).coord == Apply(f.directMatrix, u.coord)
    ensures f.MapUnitVector(h, f.Inverte().MapUnitVector(h, u)) == u
  {
    AffineKeepsW(f.directMatrix, u.coord);
    ApplyMul(f.directMatrix, f.inverseMatrix, u.coord);
    ApplyIdentity(u.coord);
  }

  /** The maps read only the inverse matrix: frames with the same inverse map alike. */
  lemma MapsReadInverseOnly(h: Helpers, f: Frame, g: Frame, p: Point, v: Vector, u: UV.UnitVector)
    requires f.inverseMatrix == g.inverseMatrix
    ensures f.MapPoint(h, p) == g.MapPoint(h, p)
    ensures f.MapVector(h, v) == g.MapVector(h, v)
    ensures f.MapUnitVector(h, u) == g.MapUnitVector(h, u)
  {
  }
}
