/**
 * A perspective projection onto one of the principal planes. It keeps a
 * direct matrix only: a projection has no inverse, and `composeWith` keeps
 * none either.
 *
 * The field-of-view scale `1 / tan(fov / 2)` is a transcendental function of
 * the angle, so it enters every builder as the parameter `s`. The view
 * distance is accepted and never read.
 */
module Projections {
  import opened Types
  import opened Math
  import opened Points

  /** A projection: its direct matrix. */
  datatype Project = Project(directMatrix: Matrix)
  {
    /** `direct(row, col)`: the entry `_direct[col][row]`. */
    function Direct(row: Index, col: Index): real
    {
      Entry(directMatrix, col, row)
    }

    /** The view that `composeWith` and `map` take of a projection: a direct matrix and no inverse. */
    function AsGeoMatrix(): (g: GeoMatrix)
      ensures g.DirectOnly? && g.directMatrix == directMatrix
    {
      DirectOnly(directMatrix)
    }

    /** `composeWith(t)`: the product `matrixMultiply(t.direct, this.direct)`, kept as a projection. */
    function ComposeWith(t: GeoMatrix): Project
    {
      FromMatrices(Mul(t.directMatrix, directMatrix), Mul(t.directMatrix, directMatrix))
    }
  }

  /** `fromMatrices(dir, inv)`: a projection on `dir`; the second matrix is dropped. */
  function FromMatrices(dir: Matrix, inv: Matrix): Project
  {
    Project(dir)
  }

  /** The matrix of the projection on XY: columns (s, 0, 0, 0), (0, s, 0, 0), (0, 0, 1, 1) and zero. */
  function OnXY(s: real): Matrix
  {
    Matrix(HCoords(s, 0.0, 0.0, 0.0), HCoords(0.0, s, 0.0, 0.0), HCoords(0.0, 0.0, 1.0, 1.0), HCoords(0.0, 0.0, 0.0, 0.0))
  }

  /** The constructor `new Project(fov)`, with `s` the scale of `fov`: the projection on XY. */
  function NewProject(s: real): Project
  {
    Project(OnXY(s))
  }

  /** `fromProjectOnXY(viewDist, fov)`, with `s` the scale of `fov`. */
  function FromProjectOnXY(viewDist: real, s: real): Project
  {
    FromMatrices(OnXY(s), OnXY(s))
  }

  /** `fromProjectOnXZ(viewDist, fov)`: columns (s, 0, 0, 0), (0, 1, 0, 1), (0, 0, s, 0) and zero. */
  function FromProjectOnXZ(viewDist: real, s: real): Project
  {
    var direct := Matrix(HCoords(s, 0.0, 0.0, 0.0), HCoords(0.0, 1.0, 0.0, 1.0), HCoords(0.0, 0.0, s, 0.0), HCoords(0.0, 0.0, 0.0, 0.0));
    FromMatrices(direct, direct)
  }

  /** `fromProjectOnYZ(viewDist, fov)`: columns (1, 0, 0, 1), (0, s, 0, 0), (0, 0, s, 0) and zero. */
  function FromProjectOnYZ(viewDist: real, s: real): Project
  {
    var direct := Matrix(HCoords(1.0, 0.0, 0.0, 1.0), HCoords(0.0, s, 0.0, 0.0), HCoords(0.0, 0.0, s, 0.0), HCoords(0.0, 0.0, 0.0, 0.0));
    FromMatrices(direct, direct)
  }

  /** The constructor and `fromProjectOnXY` build the same projection, whatever the view distance. */
  lemma ConstructorIsProjectOnXY(viewDist: real, s: real)
    ensures NewProject(s) == FromProjectOnXY(viewDist, s)
  {
  }

  /** None of the builders reads the view distance. */
  lemma ViewDistIgnored(d1: real, d2: real, s: real)
    ensures FromProjectOnXY(d1, s) == FromProjectOnXY(d2, s)
    ensures FromProjectOnXZ(d1, s) == FromProjectOnXZ(d2, s)
    ensures FromProjectOnYZ(d1, s) == FromProjectOnYZ(d2, s)
  {
  }

  /**
   * Read through `direct(row, col)`, the constructor's matrix has `s` at
   * (0, 0) and (1, 1), 1 at (2, 2) and at row 3 of column 2, and 0 elsewhere.
   */
  lemma ConstructorEntries(s: real)
    ensures forall row: Index, col: Index :: NewProject(s).Direct(row, col) ==
              if row == col && row < 2 then s
              else if col == 2 && row >= 2 then 1.0
              else 0.0
  {
    var p := NewProject(s);
    forall row: Index, col: Index
      ensures p.Direct(row, col) == if row == col && row < 2 then s else if col == 2 && row >= 2 then 1.0 else 0.0
    {
    }
  }

  /** The projection on XY scales x and y by `s` and copies z into both z and w: the depth becomes the divisor. */
  lemma ProjectOnXYApply(viewDist: real, s: real, v: HCoords)
    ensures Apply(FromProjectOnXY(viewDist, s).directMatrix, v) == HCoords(s * v.x, s * v.y, v.z, v.z)
  {
  }

  /** The projection on XZ scales x and z by `s` and copies y into w. */
  lemma ProjectOnXZApply(viewDist: real, s: real, v: HCoords)
    ensures Apply(FromProjectOnXZ(viewDist, s).directMatrix, v) == HCoords(s * v.x, v.y, s * v.z, v.y)
  {
  }

  /** The projection on YZ scales y and z by `s` and copies x into w. */
  lemma ProjectOnYZApply(viewDist: real, s: real, v: HCoords)
    ensures Apply(FromProjectOnYZ(viewDist, s).directMatrix, v) == HCoords(v.x, s * v.y, s * v.z, v.x)
  {
    assert v.y * s == s * v.y && v.z * s == s * v.z;
  }

  /**
   * A matrix whose column 3 is zero ignores w, and is linear in x, y and z:
   * the image of `(f x, f y, f z, w1)` is `f` times the image of `(x, y, z, w2)`.
   */
  lemma {:induction false} RayScaling(m: Matrix, v: HCoords, f: real, w1: real, w2: real)
    requires m.c3 == HCoords(0.0, 0.0, 0.0, 0.0)
    ensures Apply(m, HCoords(f * v.x, f * v.y, f * v.z, w1)) == Times(f, Apply(m, HCoords(v.x, v.y, v.z, w2)))
  {
    var b := HCoords(v.x, v.y, v.z, w2);
    IgnoresW(m, HCoords(f * v.x, f * v.y, f * v.z, w1), f * w2);
    assert HCoords(f * v.x, f * v.y, f * v.z, f * w2) == Times(f, b);
    ApplyTimes(m, f, b);
  }

  /** A matrix whose column 3 is zero gives the same image whatever the w of its argument. */
  lemma IgnoresW(m: Matrix, v: HCoords, w: real)
    requires m.c3 == HCoords(0.0, 0.0, 0.0, 0.0)
    ensures Apply(m, v) == Apply(m, HCoords(v.x, v.y, v.z, w))
  {
    assert v.w * m.c3.x == 0.0 && v.w * m.c3.y == 0.0 && v.w * m.c3.z == 0.0 && v.w * m.c3.w == 0.0;
    assert w * m.c3.x == 0.0 && w * m.c3.y == 0.0 && w * m.c3.z == 0.0 && w * m.c3.w == 0.0;
  }

  /** The three projections all have a zero column 3. */
  lemma ProjectionsIgnoreW(viewDist: real, s: real)
    ensures NewProject(s).directMatrix.c3 == HCoords(0.0, 0.0, 0.0, 0.0)
    ensures FromProjectOnXY(viewDist, s).directMatrix.c3 == HCoords(0.0, 0.0, 0.0, 0.0)
    ensures FromProjectOnXZ(viewDist, s).directMatrix.c3 == HCoords(0.0, 0.0, 0.0, 0.0)
    ensures FromProjectOnYZ(viewDist, s).directMatrix.c3 == HCoords(0.0, 0.0, 0.0, 0.0)
  {
  }

  /**
   * Points on one ray through the origin project to the same point once the
   * image is divided by its w, as the `Point` constructor does: `p` and
   * `f p` (f nonzero) coincide whenever the image of `p` has a nonzero w.
   */
  lemma RayImagesCoincide(m: Matrix, p: Point, f: real)
    requires m.c3 == HCoords(0.0, 0.0, 0.0, 0.0) && f != 0.0
    requires Apply(m, p.coord).w != 0.0
    ensures var q := Apply(m, HCoords(f * p.X(), f * p.Y(), f * p.Z(), 1.0));
            var r := Apply(m, p.coord);
            q.w != 0.0 && NewPoint(q.x, q.y, q.z, q.w) == NewPoint(r.x, r.y, r.z, r.w)
  {
    var r := Apply(m, p.coord);
    var q := Apply(m, HCoords(f * p.X(), f * p.Y(), f * p.Z(), 1.0));
    RayScaling(m, p.coord, f, 1.0, 1.0);
    assert q == Times(f, r);
    ProductPositiveOrNot(f, r.w);
    NewPointScaleInvariant(r.x, r.y, r.z, r.w, f);
  }

  /** A product of two nonzero reals is nonzero. */
  lemma ProductPositiveOrNot(a: real, b: real)
    requires a != 0.0 && b != 0.0
    ensures a * b != 0.0
  {
    if a > 0.0 && b > 0.0 {
      ProductPositive(a, b);
    } else if a > 0.0 {
      ProductPositive(a, -b);
      assert Product(a, -b) == -(a * b);
    } else if b > 0.0 {
      ProductPositive(-a, b);
      assert Product(-a, b) == -(a * b);
    } else {
      ProductPositive(-a, -b);
      assert Product(-a, -b) == a * b;
    }
  }

  /**
   * On XY a point at depth z != 0 lands on the plane z = 1 at
   * `(s x / z, s y / z)`: the perspective division by depth.
   */
  lemma ProjectOnXYPoint(s: real, p: Point)
    requires p.Z() != 0.0
    ensures var r := Apply(NewProject(s).directMatrix, p.coord);
            r.w == p.Z() &&
            NewPoint(r.x, r.y, r.z, r.w).X() * p.Z() == s * p.X() &&
            NewPoint(r.x, r.y, r.z, r.w).Y() * p.Z() == s * p.Y() &&
            NewPoint(r.x, r.y, r.z, r.w).Z() == 1.0
  {
    ProjectOnXYApply(0.0, s, p.coord);
    var r := Apply(NewProject(s).directMatrix, p.coord);
    DivTimes(p.Z(), p.Z());
  }

  /**
   * The constructor's projection sends every point of a ray through the
   * origin to one point: `p` at a nonzero depth and `f p` (f nonzero) coincide.
   */
  lemma ProjectOnXYRay(s: real, p: Point, f: real)
    requires p.Z() != 0.0 && f != 0.0
    ensures var q := Apply(NewProject(s).directMatrix, HCoords(f * p.X(), f * p.Y(), f * p.Z(), 1.0));
            var r := Apply(NewProject(s).directMatrix, p.coord);
            r.w != 0.0 && q.w != 0.0 && NewPoint(q.x, q.y, q.z, q.w) == NewPoint(r.x, r.y, r.z, r.w)
  {
    var m := NewProject(s).directMatrix;
    assert m.c3 == HCoords(0.0, 0.0, 0.0, 0.0) && Apply(m, p.coord).w != 0.0 by {
      ProjectOnXYApply(0.0, s, p.coord);
    }
    RayImagesCoincide(m, p, f);
  }

  /** The test's two points coincide under any matrix with a zero column 3 that leaves the first a nonzero w. */
  lemma TestPointsCoincide(m: Matrix, p: Point, o: Point)
    requires m.c3 == HCoords(0.0, 0.0, 0.0, 0.0) && Apply(m, p.coord).w != 0.0
    requires p.coord == HCoords(0.0, 2.0, 2.0, 1.0) && o.coord == HCoords(0.0, 20.0, 20.0, 1.0)
    ensures var r := Apply(m, p.coord);
            var q := Apply(m, o.coord);
            q.w != 0.0 && NewPoint(r.x, r.y, r.z, r.w) == NewPoint(q.x, q.y, q.z, q.w)
  {
    assert o.coord == HCoords(10.0 * p.X(), 10.0 * p.Y(), 10.0 * p.Z(), 1.0);
    RayImagesCoincide(m, p, 10.0);
  }

  /** `composeWith(t)` applies `t` first and then the projection. */
  lemma ComposeWithApply(p: Project, t: GeoMatrix, v: HCoords)
    ensures Apply(p.ComposeWith(t).directMatrix, v) == Apply(p.directMatrix, Apply(t.directMatrix, v))
  {
    ApplyMul(t.directMatrix, p.directMatrix, v);
  }

  /** `composeWith` reads only the argument's direct matrix: any inverse it carries is dropped. */
  lemma ComposeWithIgnoresInverse(p: Project, d: Matrix, inv: Matrix)
    ensures p.ComposeWith(Invertible(d, inv)) == p.ComposeWith(DirectOnly(d))
    ensures p.ComposeWith(DirectOnly(d)).AsGeoMatrix().DirectOnly?
  {
  }

  /** Composing with the identity gives the projection back. */
  lemma ComposeWithIdentity(p: Project)
    ensures p.ComposeWith(DirectOnly(IdentityMatrix())) == p
  {
    MulIdentity(p.directMatrix);
  }
}
