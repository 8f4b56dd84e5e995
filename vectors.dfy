/**
 * A free vector: homogeneous coordinates whose w is 0, with the
 * componentwise arithmetic, tolerance equality, dot and cross products of
 * `Vector`. The cross product and `add` are given as written, beside the
 * formulas they evidently meant.
 */
module Vectors {
  import opened Types
  import opened Math
  import opened Points

  /** A vector; the stored tuple always has w = 0. */
  datatype Vector = Vector(coord: VCoords)
  {
    /** The x getter. */
    function X(): real { coord.x }
    /** The y getter. */
    function Y(): real { coord.y }
    /** The z getter. */
    function Z(): real { coord.z }

    /** `coordinates`: a copy of the stored tuple `(x, y, z, 0)`. */
    function Coordinates(): (c: HCoords)
      ensures c.w == 0.0
      ensures NewVector(c.x, c.y, c.z) == this
    {
      coord
    }

    /** `multiplyBy(s)`: every component multiplied by `s`. */
    function MultiplyBy(s: real): Vector
    {
      NewVector(X() * s, Y() * s, Z() * s)
    }
  }

  /** `new Vector(x, y, z)`. */
  function NewVector(x: real, y: real, z: real): Vector
  {
    Vector(HCoords(x, y, z, 0.0))
  }

  /** The coordinates of `new Vector(x, y, z)` are `(x, y, z, 0)`. */
  lemma NewVectorCoordinates(x: real, y: real, z: real)
    ensures NewVector(x, y, z).Coordinates() == HCoords(x, y, z, 0.0)
    ensures NewVector(x, y, z).X() == x && NewVector(x, y, z).Y() == y && NewVector(x, y, z).Z() == z
  {
  }

  /** Multiplying by 1 changes nothing, and two factors multiply. */
  lemma MultiplyByLaws(v: Vector, a: real, b: real)
    ensures v.MultiplyBy(1.0) == v
    ensures v.MultiplyBy(a).MultiplyBy(b) == v.MultiplyBy(a * b)
  {
    assert v.X() * a * b == v.X() * (a * b);
    assert v.Y() * a * b == v.Y() * (a * b);
    assert v.Z() * a * b == v.Z() * (a * b);
  }

  /** The test of `multiplyBy`: (10, 1, 2) times 10 is (100, 10, 20). */
  lemma MultiplyByExample()
    ensures NewVector(10.0, 1.0, 2.0).MultiplyBy(10.0) == NewVector(100.0, 10.0, 20.0)
  {
  }

  /** `Vector.equals`: every component within the tolerance. */
  predicate Equals(v1: Vector, v2: Vector)
  {
    WithinPrecision(v1.coord, v2.coord)
  }

  /** `Vector.notEquals`: some component at or beyond the tolerance. */
  predicate NotEquals(v1: Vector, v2: Vector)
  {
    OutsidePrecision(v1.coord, v2.coord)
  }

  /** `notEquals` is the negation of `equals`; `equals` is reflexive and symmetric. */
  lemma EqualsLaws(v1: Vector, v2: Vector)
    ensures NotEquals(v1, v2) <==> !Equals(v1, v2)
    ensures Equals(v1, v1)
    ensures Equals(v1, v2) <==> Equals(v2, v1)
  {
    PrecisionTests(v1.coord, v2.coord);
  }

  /** The tests of `equals`: a difference of 1e-6 is equal, one of 1e-3 is not. */
  lemma EqualsExamples()
    ensures Equals(NewVector(1.0, 3.4, 5.6), NewVector(1.000001, 3.4000001, 5.59999999))
    ensures !Equals(NewVector(1.0, 3.4, 5.6), NewVector(1.001, 3.4000001, 5.59999999))
    ensures NotEquals(NewVector(1.0, 3.4, 5.6), NewVector(1.001, 3.4000001, 5.59999999))
  {
  }

  /** `fromPoints(p1, p2)`: the vector that leads from `p2` to `p1`. */
  function FromPoints(p1: Point, p2: Point): (r: Vector)
    ensures p2.X() + r.X() == p1.X() && p2.Y() + r.Y() == p1.Y() && p2.Z() + r.Z() == p1.Z()
  {
    NewVector(p1.X() - p2.X(), p1.Y() - p2.Y(), p1.Z() - p2.Z())
  }

  /** Swapping the points reverses the vector; a point to itself is the zero vector. */
  lemma FromPointsLaws(p1: Point, p2: Point)
    ensures FromPoints(p2, p1) == FromPoints(p1, p2).MultiplyBy(-1.0)
    ensures FromPoints(p1, p1) == NewVector(0.0, 0.0, 0.0)
  {
  }

  /** The test of `fromPoints`: (10, 12, 15) - (5, 2, 10) = (5, 10, 5). */
  lemma FromPointsExample()
    ensures FromPoints(NewPoint(10.0, 12.0, 15.0), NewPoint(5.0, 2.0, 10.0)) == NewVector(5.0, 10.0, 5.0)
  {
  }

  /** `dotProduct`: `x1*x2 + y1*y2 + z1*z2`. */
  function DotProduct(v1: Vector, v2: Vector): real
  {
    v1.X() * v2.X() + v1.Y() * v2.Y() + v1.Z() * v2.Z()
  }

  /** The dot product is symmetric. */
  lemma DotProductSymmetric(v1: Vector, v2: Vector)
    ensures DotProduct(v1, v2) == DotProduct(v2, v1)
  {
    assert v1.X() * v2.X() == v2.X() * v1.X();
    assert v1.Y() * v2.Y() == v2.Y() * v1.Y();
    assert v1.Z() * v2.Z() == v2.Z() * v1.Z();
  }

  /** The test of `dotProduct`: distinct unit axes are orthogonal. */
  lemma DotProductAxes()
    ensures DotProduct(NewVector(1.0, 0.0, 0.0), NewVector(0.0, 1.0, 0.0)) == 0.0
    ensures DotProduct(NewVector(1.0, 0.0, 0.0), NewVector(0.0, 0.0, 1.0)) == 0.0
    ensures DotProduct(NewVector(0.0, 1.0, 0.0), NewVector(0.0, 0.0, 1.0)) == 0.0
  {
  }

  /** `x*x + y*y + z*z`, the square of `length`: zero exactly for the zero vector. */
  function SquaredLength(v: Vector): (r: real)
    ensures r >= 0.0
    ensures r == 0.0 <==> v.X() == 0.0 && v.Y() == 0.0 && v.Z() == 0.0
  {
    SquareSign(v.X());
    SquareSign(v.Y());
    SquareSign(v.Z());
    Product(v.X(), v.X()) + Product(v.Y(), v.Y()) + Product(v.Z(), v.Z())
  }

  /** The squared length of `new Vector(x, y, z)`, to evaluate it on given components. */
  lemma SquaredLengthOf(x: real, y: real, z: real)
    ensures SquaredLength(NewVector(x, y, z)) == Product(x, x) + Product(y, y) + Product(z, z)
  {
  }

  /**
   * The cross product as `crossProduct` writes it: the x and z components
   * follow the right-hand rule, the y component is `b.z*b.x - a.x*b.z`.
   */
  function Cross(a: HCoords, b: HCoords): VCoords
  {
    HCoords(a.y * b.z - a.z * b.y, b.z * b.x - a.x * b.z, a.x * b.y - a.y * b.x, 0.0)
  }

  /** The right-hand cross product, with y component `a.z*b.x - a.x*b.z`. */
  function RightHandCross(a: HCoords, b: HCoords): (r: VCoords)
    ensures r.x == Cross(a, b).x && r.z == Cross(a, b).z
  {
    HCoords(a.y * b.z - a.z * b.y, a.z * b.x - a.x * b.z, a.x * b.y - a.y * b.x, 0.0)
  }

  /** `Vector.crossProduct`, as written. */
  function CrossProduct(v1: Vector, v2: Vector): Vector
  {
    Vector(Cross(v1.coord, v2.coord))
  }

  /** `Vector.crossProduct` with the right-hand y component. */
  function RightHandCrossProduct(v1: Vector, v2: Vector): Vector
  {
    Vector(RightHandCross(v1.coord, v2.coord))
  }

  /** The test of `crossProduct`: X cross Y is Z, which the written formula gets right. */
  lemma CrossProductExample()
    ensures CrossProduct(NewVector(1.0, 0.0, 0.0), NewVector(0.0, 1.0, 0.0)) == NewVector(0.0, 0.0, 1.0)
  {
  }

  /**
   * The written y component is wrong: Z cross X should be Y, but the written
   * formula gives the zero vector.
   */
  lemma CrossAsWritten()
    ensures CrossProduct(NewVector(0.0, 0.0, 1.0), NewVector(1.0, 0.0, 0.0)) == NewVector(0.0, 0.0, 0.0)
    ensures RightHandCrossProduct(NewVector(0.0, 0.0, 1.0), NewVector(1.0, 0.0, 0.0)) == NewVector(0.0, 1.0, 0.0)
  {
  }

  /** The right-hand cross product is orthogonal to both factors and anticommutative. */
  lemma RightHandCrossLaws(a: HCoords, b: HCoords)
    requires a.w == 0.0 && b.w == 0.0
    ensures Dot(RightHandCross(a, b), a) == 0.0
    ensures Dot(RightHandCross(a, b), b) == 0.0
    ensures RightHandCross(b, a) == Times(-1.0, RightHandCross(a, b))
  {
  }

  /** `|a x b|^2 == |a|^2 |b|^2 - (a . b)^2` for the right-hand cross product (Lagrange's identity). */
  lemma {:induction false} RightHandCrossLength(a: HCoords, b: HCoords)
    requires a.w == 0.0 && b.w == 0.0
    ensures Dot(RightHandCross(a, b), RightHandCross(a, b)) == Dot(a, a) * Dot(b, b) - Dot(a, b) * Dot(a, b)
  {
  }

  /** The x components summed, as a left fold. */
  function SumX(vs: seq<Vector>): real
  {
    if vs == [] then 0.0 else SumX(vs[..|vs| - 1]) + vs[|vs| - 1].X()
  }

  /** The y components summed, as a left fold. */
  function SumY(vs: seq<Vector>): real
  {
    if vs == [] then 0.0 else SumY(vs[..|vs| - 1]) + vs[|vs| - 1].Y()
  }

  /** The z components summed, as a left fold. */
  function SumZ(vs: seq<Vector>): real
  {
    if vs == [] then 0.0 else SumZ(vs[..|vs| - 1]) + vs[|vs| - 1].Z()
  }

  /** The fold of `add` as written: the new y is `acc.z + v.z`. */
  function AddFrom(acc: Vector, vs: seq<Vector>): Vector
    decreases |vs|
  {
    if vs == [] then acc
    else AddFrom(NewVector(acc.X() + vs[0].X(), acc.Z() + vs[0].Z(), acc.Z() + vs[0].Z()), vs[1..])
  }

  /** `Vector.add(...vs)`, as written: the fold from the zero vector. */
  function Add(vs: seq<Vector>): Vector
  {
    AddFrom(NewVector(0.0, 0.0, 0.0), vs)
  }

  /** The fold of `add` with the y component it evidently meant: `acc.y + v.y`. */
  function AddCorrectedFrom(acc: Vector, vs: seq<Vector>): Vector
    decreases |vs|
  {
    if vs == [] then acc
    else AddCorrectedFrom(NewVector(acc.X() + vs[0].X(), acc.Y() + vs[0].Y(), acc.Z() + vs[0].Z()), vs[1..])
  }

  /** `Vector.add(...vs)` with the y component corrected. */
  function AddCorrected(vs: seq<Vector>): Vector
  {
    AddCorrectedFrom(NewVector(0.0, 0.0, 0.0), vs)
  }

  /** Folding one more vector as written adds its x, and its z to both y and z. */
  lemma {:induction false} AddFromSnoc(acc: Vector, vs: seq<Vector>, v: Vector)
    ensures AddFrom(acc, vs + [v]) == NewVector(AddFrom(acc, vs).X() + v.X(), AddFrom(acc, vs).Z() + v.Z(), AddFrom(acc, vs).Z() + v.Z())
    decreases |vs|
  {
    if vs == [] {
      assert (vs + [v])[1..] == [];
    } else {
      assert (vs + [v])[1..] == vs[1..] + [v];
      AddFromSnoc(NewVector(acc.X() + vs[0].X(), acc.Z() + vs[0].Z(), acc.Z() + vs[0].Z()), vs[1..], v);
    }
  }

  /** Folding one more vector with the corrected formula adds it componentwise. */
  lemma {:induction false} AddCorrectedFromSnoc(acc: Vector, vs: seq<Vector>, v: Vector)
    ensures AddCorrectedFrom(acc, vs + [v])
         == NewVector(AddCorrectedFrom(acc, vs).X() + v.X(), AddCorrectedFrom(acc, vs).Y() + v.Y(), AddCorrectedFrom(acc, vs).Z() + v.Z())
    decreases |vs|
  {
    if vs == [] {
      assert (vs + [v])[1..] == [];
    } else {
      assert (vs + [v])[1..] == vs[1..] + [v];
      AddCorrectedFromSnoc(NewVector(acc.X() + vs[0].X(), acc.Y() + vs[0].Y(), acc.Z() + vs[0].Z()), vs[1..], v);
    }
  }

  /** As written, `add` sums the x components and puts the sum of the z components in both y and z. */
  lemma {:induction false} AddAsWritten(vs: seq<Vector>)
    ensures Add(vs) == NewVector(SumX(vs), SumZ(vs), SumZ(vs))
    decreases |vs|
  {
    if vs != [] {
      var init, last := vs[..|vs| - 1], vs[|vs| - 1];
      assert vs == init + [last];
      AddAsWritten(init);
      AddFromSnoc(NewVector(0.0, 0.0, 0.0), init, last);
    }
  }

  /** The corrected `add` is the componentwise sum. */
  lemma {:induction false} AddCorrectedSums(vs: seq<Vector>)
    ensures AddCorrected(vs) == NewVector(SumX(vs), SumY(vs), SumZ(vs))
    decreases |vs|
  {
    if vs != [] {
      var init, last := vs[..|vs| - 1], vs[|vs| - 1];
      assert vs == init + [last];
      AddCorrectedSums(init);
      AddCorrectedFromSnoc(NewVector(0.0, 0.0, 0.0), init, last);
    }
  }

  /** A single vector (0, 1, 0): the written `add` returns (0, 0, 0), the corrected one (0, 1, 0). */
  lemma AddCounterexample()
    ensures Add([NewVector(0.0, 1.0, 0.0)]) == NewVector(0.0, 0.0, 0.0)
    ensures AddCorrected([NewVector(0.0, 1.0, 0.0)]) == NewVector(0.0, 1.0, 0.0)
  {
    var vs := [NewVector(0.0, 1.0, 0.0)];
    assert vs[1..] == [];
  }

  /** The test of `add`, whose four vectors happen to give 0 either way. */
  lemma AddExample()
    ensures Add([NewVector(10.0, 10.0, 10.0), NewVector(-10.0, 0.0, 0.0), NewVector(0.0, -10.0, 0.0), NewVector(0.0, 0.0, -10.0)])
         == NewVector(0.0, 0.0, 0.0)
    ensures AddCorrected([NewVector(10.0, 10.0, 10.0), NewVector(-10.0, 0.0, 0.0), NewVector(0.0, -10.0, 0.0), NewVector(0.0, 0.0, -10.0)])
         == NewVector(0.0, 0.0, 0.0)
  {
    var vs := [NewVector(10.0, 10.0, 10.0), NewVector(-10.0, 0.0, 0.0), NewVector(0.0, -10.0, 0.0), NewVector(0.0, 0.0, -10.0)];
    AddAsWritten(vs);
    AddCorrectedSums(vs);
    assert vs[..3][..2][..1][..0] == [];
  }
}
