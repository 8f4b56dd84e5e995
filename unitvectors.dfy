/**
 * A unit vector: a direction, stored as a tuple with w = 0.
 *
 * `fromVector` divides a vector by its length; the length is a square root,
 * so it enters as a parameter `l > 0` with `l * l` equal to the squared
 * length. `crossProduct` and `fromCoords` store raw components and do not
 * renormalise, so a `UnitVector` value need not have norm 1, although its
 * `length` getter always answers 1.
 */
module UnitVectors {
  import opened Types
  import opened Math
  import opened Vectors

  /** A unit vector; the stored tuple always has w = 0. */
  datatype UnitVector = UnitVector(coord: VCoords)
  {
    /** The x getter. */
    function X(): real { coord.x }
    /** The y getter. */
    function Y(): real { coord.y }
    /** The z getter. */
    function Z(): real { coord.z }

    /** `coordinates`: a copy of the stored tuple, which `fromCoords` turns back into this unit vector. */
    function Coordinates(): (c: VCoords)
      ensures FromCoords(c) == this
      ensures c.x == X() && c.y == Y() && c.z == Z()
    {
      coord
    }

    /** The same components as a `Vector`, to measure them. */
    function AsVector(): (v: Vector)
      ensures v.X() == X() && v.Y() == Y() && v.Z() == Z()
    {
      Vector(coord)
    }

    /** `length`: always 1, whatever the stored components. */
    function Length(): real
    {
      1.0
    }
  }

  /** The private constructor: the unit vector along x. */
  function Default(): (u: UnitVector)
    ensures u.Coordinates() == HCoords(1.0, 0.0, 0.0, 0.0)
  {
    UnitVector(HCoords(1.0, 0.0, 0.0, 0.0))
  }

  /** The default unit vector has norm 1. */
  lemma DefaultNorm()
    ensures SquaredLength(Default().AsVector()) == 1.0
  {
    assert Default().AsVector() == NewVector(1.0, 0.0, 0.0);
    SquaredLengthOf(1.0, 0.0, 0.0);
  }

  /** `fromCoords(c)`: the tuple stored as it is. */
  function FromCoords(c: VCoords): (u: UnitVector)
    ensures u.X() == c.x && u.Y() == c.y && u.Z() == c.z
  {
    UnitVector(c)
  }

  /** The sign facts of a quotient of squares: `(a/l)(b/l) = ab / l^2`. */
  lemma QuotientProduct(a: real, b: real, l: real)
    requires l != 0.0
    ensures Product(a / l, b / l) * Product(l, l) == Product(a, b)
  {
    assert Product(a / l, b / l) * Product(l, l) == (a / l * l) * (b / l * l);
  }

  /** Two positive numbers with the same square are equal. */
  lemma SquareRootUnique(a: real, b: real)
    requires a > 0.0 && b > 0.0
    requires Product(a, a) == Product(b, b)
    ensures a == b
  {
    if a < b {
      SquareLess(a, b);
    } else if b < a {
      SquareLess(b, a);
    }
  }

  /** Squaring is increasing on the positive numbers. */
  lemma SquareLess(a: real, b: real)
    requires 0.0 < a < b
    ensures Product(a, a) < Product(b, b)
  {
    assert Product(b - a, b + a) == Product(b, b) - Product(a, a);
    ProductPositive(b - a, b + a);
  }

  /**
   * `fromVector(v)`, with `l` the length of `v`: each component divided by
   * `l`, so that the result times `l` gives `v` back.
   */
  function FromVector(v: Vector, l: real): (u: UnitVector)
    requires l > 0.0 && Product(l, l) == SquaredLength(v)
    ensures u.X() * l == v.X() && u.Y() * l == v.Y() && u.Z() * l == v.Z()
  {
    UnitVector(HCoords(v.X() / l, v.Y() / l, v.Z() / l, 0.0))
  }

  /** A unit vector built by `fromVector` has norm 1. */
  lemma FromVectorNorm(v: Vector, l: real)
    requires l > 0.0 && Product(l, l) == SquaredLength(v)
    ensures SquaredLength(FromVector(v, l).AsVector()) == 1.0
  {
    var u := FromVector(v, l);
    QuotientProduct(v.X(), v.X(), l);
    QuotientProduct(v.Y(), v.Y(), l);
    QuotientProduct(v.Z(), v.Z(), l);
    ProductPositive(l, l);
    assert SquaredLength(u.AsVector()) * Product(l, l) == SquaredLength(v);
  }

  /**
   * `fromVector` depends only on the direction: any positive multiple of `v`,
   * with its own length, gives the same unit vector.
   */
  lemma FromVectorScaleInvariant(v: Vector, l: real, f: real, fl: real)
    requires l > 0.0 && Product(l, l) == SquaredLength(v)
    requires f > 0.0
    requires fl > 0.0 && Product(fl, fl) == SquaredLength(v.MultiplyBy(f))
    ensures FromVector(v.MultiplyBy(f), fl) == FromVector(v, l)
  {
    ScaledLength(v, l, f, fl);
    FromVectorScaled(v, l, f, fl);
  }

  /** The length of `f v` is `f` times the length of `v`. */
  lemma ScaledLength(v: Vector, l: real, f: real, fl: real)
    requires l > 0.0 && Product(l, l) == SquaredLength(v)
    requires f > 0.0
    requires fl > 0.0 && Product(fl, fl) == SquaredLength(v.MultiplyBy(f))
    ensures fl == f * l
  {
    ScaledSquaredLength(v, f);
    ProductOfProducts(f, l, f, l);
    ProductPositive(f, l);
    assert Product(fl, fl) == Product(f * l, f * l);
    SquareRootUnique(fl, f * l);
  }

  /** Dividing `f v` by `f l` is dividing `v` by `l`. */
  lemma FromVectorScaled(v: Vector, l: real, f: real, fl: real)
    requires l > 0.0 && Product(l, l) == SquaredLength(v)
    requires f > 0.0
    requires fl > 0.0 && Product(fl, fl) == SquaredLength(v.MultiplyBy(f)) && fl == f * l
    ensures FromVector(v.MultiplyBy(f), fl) == FromVector(v, l)
  {
    var w := v.MultiplyBy(f);
    assert w.X() == v.X() * f && w.Y() == v.Y() * f && w.Z() == v.Z() * f;
    CancelFactor(v.X(), f, l);
    CancelFactor(v.Y(), f, l);
    CancelFactor(v.Z(), f, l);
  }

  /** Scaling a vector by `f` scales its squared length by `f * f`. */
  lemma ScaledSquaredLength(v: Vector, f: real)
    ensures SquaredLength(v.MultiplyBy(f)) == Product(f, f) * SquaredLength(v)
  {
    var w := v.MultiplyBy(f);
    ProductOfProducts(v.X(), f, v.X(), f);
    ProductOfProducts(v.Y(), f, v.Y(), f);
    ProductOfProducts(v.Z(), f, v.Z(), f);
    assert w.X() == v.X() * f && w.Y() == v.Y() * f && w.Z() == v.Z() * f;
    assert SquaredLength(w) == Product(v.X() * f, v.X() * f) + Product(v.Y() * f, v.Y() * f) + Product(v.Z() * f, v.Z() * f);
  }

  /** `(ab)(cd) = (ac)(bd)`. */
  lemma ProductOfProducts(a: real, b: real, c: real, d: real)
    ensures Product(a * b, c * d) == Product(a, c) * Product(b, d)
  {
  }

  /** A common nonzero factor cancels: `(a f) / (f l) = a / l`. */
  lemma CancelFactor(a: real, f: real, l: real)
    requires f != 0.0 && l != 0.0
    ensures (a * f) / (f * l) == a / l
  {
  }

  /** The `length` getter answers 1, which is the true length of a unit vector built by `fromVector`. */
  lemma LengthOfFromVector(v: Vector, l: real)
    requires l > 0.0 && Product(l, l) == SquaredLength(v)
    ensures Product(FromVector(v, l).Length(), FromVector(v, l).Length()) == SquaredLength(FromVector(v, l).AsVector())
  {
    FromVectorNorm(v, l);
  }



  /** The test of `equals` on (1, 1, 1) and (10984, 10984, 10984): the same unit vector, whatever the lengths. */
  lemma FromVectorEqualsExample(l1: real, l2: real)
    requires l1 > 0.0 && Product(l1, l1) == SquaredLength(NewVector(1.0, 1.0, 1.0))
    requires l2 > 0.0 && Product(l2, l2) == SquaredLength(NewVector(10984.0, 10984.0, 10984.0))
    ensures Equals(FromVector(NewVector(1.0, 1.0, 1.0), l1), FromVector(NewVector(10984.0, 10984.0, 10984.0), l2))
    ensures !NotEquals(FromVector(NewVector(1.0, 1.0, 1.0), l1), FromVector(NewVector(10984.0, 10984.0, 10984.0), l2))
  {
    var v := NewVector(1.0, 1.0, 1.0);
    assert v.MultiplyBy(10984.0) == NewVector(10984.0, 10984.0, 10984.0);
    FromVectorScaleInvariant(v, l1, 10984.0, l2);
    EqualsLaws(FromVector(v, l1), FromVector(v, l1));
  }

  /** `UnitVector.equals`: every component within the tolerance. */
  predicate Equals(v1: UnitVector, v2: UnitVector)
  {
    WithinPrecision(v1.coord, v2.coord)
  }

  /** `UnitVector.notEquals`: some component at or beyond the tolerance. */
  predicate NotEquals(v1: UnitVector, v2: UnitVector)
  {
    OutsidePrecision(v1.coord, v2.coord)
  }

  /** `notEquals` is the negation of `equals`; `equals` is reflexive and symmetric. */
  lemma EqualsLaws(v1: UnitVector, v2: UnitVector)
    ensures NotEquals(v1, v2) <==> !Equals(v1, v2)
    ensures Equals(v1, v1)
    ensures Equals(v1, v2) <==> Equals(v2, v1)
  {
    PrecisionTests(v1.coord, v2.coord);
  }

  /**
   * `UnitVector.parallel` as written: `|v1.c| - |v2.c| < precision` for each
   * component, with no absolute value around the difference.
   */
  predicate Parallel(v1: UnitVector, v2: UnitVector)
  {
    Abs(v1.X()) - Abs(v2.X()) < Precision
    && Abs(v1.Y()) - Abs(v2.Y()) < Precision
    && Abs(v1.Z()) - Abs(v2.Z()) < Precision
  }

  /** `parallel` with the absolute value of each difference, as evidently intended. */
  predicate ParallelCorrected(v1: UnitVector, v2: UnitVector)
  {
    Abs(Abs(v1.X()) - Abs(v2.X())) < Precision
    && Abs(Abs(v1.Y()) - Abs(v2.Y())) < Precision
    && Abs(Abs(v1.Z()) - Abs(v2.Z())) < Precision
  }

  /**
   * Both forms are reflexive and see through a change of sign; the corrected
   * one is symmetric and implies the written one in both orders.
   */
  lemma ParallelLaws(v1: UnitVector, v2: UnitVector)
    ensures Parallel(v1, v1) && ParallelCorrected(v1, v1)
    ensures Parallel(v1, FromCoords(Times(-1.0, v1.coord)))
    ensures ParallelCorrected(v1, v2) <==> ParallelCorrected(v2, v1)
    ensures ParallelCorrected(v1, v2) ==> Parallel(v1, v2) && Parallel(v2, v1)
  {
  }

  /**
   * The written `parallel` is one-sided: it holds exactly when no component
   * of `v1` exceeds the matching component of `v2` by the tolerance, in absolute value.
   */
  lemma ParallelOneSided(v1: UnitVector, v2: UnitVector)
    ensures Parallel(v1, v2) <==>
      (Abs(v1.X()) < Abs(v2.X()) + Precision
       && Abs(v1.Y()) < Abs(v2.Y()) + Precision
       && Abs(v1.Z()) < Abs(v2.Z()) + Precision)
  {
  }


  /**
   * `Vector.parallel(v1, v2)`: the written `UnitVector.parallel` of the two
   * normalised vectors, with `l1` and `l2` their lengths.
   */
  predicate VectorParallel(v1: Vector, l1: real, v2: Vector, l2: real)
    requires l1 > 0.0 && Product(l1, l1) == SquaredLength(v1)
    requires l2 > 0.0 && Product(l2, l2) == SquaredLength(v2)
  {
    Parallel(FromVector(v1, l1), FromVector(v2, l2))
  }

  /** The test of `Vector.parallel`: (10, 10, 10) and (-100, -100, -100) are parallel. */
  lemma VectorParallelExample(l1: real, l2: real)
    requires l1 > 0.0 && Product(l1, l1) == SquaredLength(NewVector(10.0, 10.0, 10.0))
    requires l2 > 0.0 && Product(l2, l2) == SquaredLength(NewVector(-100.0, -100.0, -100.0))
    ensures VectorParallel(NewVector(10.0, 10.0, 10.0), l1, NewVector(-100.0, -100.0, -100.0), l2)
  {
    assert Product(10.0 * l1, 10.0 * l1) == 100.0 * Product(l1, l1);
    SquareRootUnique(l2, 10.0 * l1);
    assert 100.0 / l2 == 10.0 / l1;
  }

  /** `UnitVector.crossProduct`: the written cross product, stored without renormalising. */
  function CrossProduct(v1: UnitVector, v2: UnitVector): (u: UnitVector)
    ensures u.coord == Cross(v1.coord, v2.coord)
  {
    FromCoords(Cross(v1.coord, v2.coord))
  }

  /** `UnitVector.crossProduct` with the right-hand y component. */
  function RightHandCrossProduct(v1: UnitVector, v2: UnitVector): (u: UnitVector)
    ensures u.coord == RightHandCross(v1.coord, v2.coord)
  {
    FromCoords(RightHandCross(v1.coord, v2.coord))
  }

  /** A tuple with w = 0 dotted with itself is its squared length. */
  lemma DotSquaredLength(c: VCoords)
    ensures Dot(c, c) == SquaredLength(Vector(c))
  {
  }

  /**
   * The right-hand cross product of two unit vectors of norm 1 has squared
   * length `1 - (v1 . v2)^2`: it is a unit vector only when they are orthogonal.
   */
  lemma RightHandCrossProductLength(v1: UnitVector, v2: UnitVector)
    requires SquaredLength(v1.AsVector()) == 1.0 && SquaredLength(v2.AsVector()) == 1.0
    ensures SquaredLength(RightHandCrossProduct(v1, v2).AsVector()) == 1.0 - DotProduct(v1, v2) * DotProduct(v1, v2)
  {
    RightHandCrossLength(v1.coord, v2.coord);
    DotSquaredLength(v1.coord);
    DotSquaredLength(v2.coord);
    DotSquaredLength(RightHandCross(v1.coord, v2.coord));
  }

  /** `UnitVector.dotProduct`: `x1*x2 + y1*y2 + z1*z2`. */
  function DotProduct(v1: UnitVector, v2: UnitVector): real
  {
    v1.X() * v2.X() + v1.Y() * v2.Y() + v1.Z() * v2.Z()
  }

  /** The dot product is symmetric, and is the tuple dot product of the coordinates. */
  lemma DotProductLaws(v1: UnitVector, v2: UnitVector)
    ensures DotProduct(v1, v2) == DotProduct(v2, v1)
    ensures DotProduct(v1, v2) == Dot(v1.coord, v2.coord)
  {
    assert v1.X() * v2.X() == v2.X() * v1.X();
    assert v1.Y() * v2.Y() == v2.Y() * v1.Y();
    assert v1.Z() * v2.Z() == v2.Z() * v1.Z();
  }

  /**
   * The cross product of the default unit vector with itself has true length
   * 0, while its `length` getter still answers 1.
   */
  lemma LengthOfCrossProduct()
    ensures SquaredLength(CrossProduct(Default(), Default()).AsVector()) == 0.0
    ensures CrossProduct(Default(), Default()).Length() == 1.0
  {
    assert CrossProduct(Default(), Default()).AsVector() == NewVector(0.0, 0.0, 0.0);
    SquaredLengthOf(0.0, 0.0, 0.0);
  }

  /** The test of `fromVector` on (1, 0, 0): it stays itself. */
  lemma FromVectorExampleX()
    ensures FromVector(NewVector(1.0, 0.0, 0.0), 1.0).Coordinates() == HCoords(1.0, 0.0, 0.0, 0.0)
  {
    SquaredLengthOf(1.0, 0.0, 0.0);
  }

  /** The test of `fromVector` on (0, 0, 100): it becomes (0, 0, 1). */
  lemma FromVectorExampleZ()
    ensures FromVector(NewVector(0.0, 0.0, 100.0), 100.0).Coordinates() == HCoords(0.0, 0.0, 1.0, 0.0)
  {
    SquaredLengthOf(0.0, 0.0, 100.0);
  }

  /** `fromVector` on (0, 1, 0), of length 1: the unit vector along y. */
  function UnitY(): (u: UnitVector)
    ensures u.coord == HCoords(0.0, 1.0, 0.0, 0.0)
  {
    SquaredLengthOf(0.0, 1.0, 0.0);
    FromVector(NewVector(0.0, 1.0, 0.0), 1.0)
  }

  /** `fromVector` on (1000, 249999, 0), of length 250001: a unit vector 0.004 away from y in x. */
  function NearUnitY(): (u: UnitVector)
    ensures u.coord == HCoords(1000.0 / 250001.0, 249999.0 / 250001.0, 0.0, 0.0)
  {
    SquaredLengthOf(1000.0, 249999.0, 0.0);
    FromVector(NewVector(1000.0, 249999.0, 0.0), 250001.0)
  }

  /**
   * Two unit vectors 0.004 apart in x: the written `parallel` says yes one
   * way and no the other, the corrected one says no both ways.
   */
  lemma ParallelAsymmetric()
    ensures Parallel(UnitY(), NearUnitY())
    ensures !Parallel(NearUnitY(), UnitY())
    ensures !ParallelCorrected(UnitY(), NearUnitY()) && !ParallelCorrected(NearUnitY(), UnitY())
  {
    ParallelAsymmetricAt(UnitY(), NearUnitY());
  }

  /** The comparison itself, on the two tuples. */
  lemma ParallelAsymmetricAt(u1: UnitVector, u2: UnitVector)
    requires u1.coord == HCoords(0.0, 1.0, 0.0, 0.0)
    requires u2.coord == HCoords(1000.0 / 250001.0, 249999.0 / 250001.0, 0.0, 0.0)
    ensures Parallel(u1, u2) && !Parallel(u2, u1) && !ParallelCorrected(u1, u2) && !ParallelCorrected(u2, u1)
  {
  }

}
