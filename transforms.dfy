/**
 * A 3D transformation: a direct matrix and its inverse, kept together.
 *
 * Every factory builds both matrices in closed form, `inverte` swaps them,
 * and `composeWith` multiplies the direct matrices one way and the inverse
 * matrices the other way, so that the pair stays a pair of inverses.
 * Rotation angles enter as their cosine `c` and sine `s`.
 */
module Transforms {
  import opened Types
  import opened Math

  /** A transformation: `directMatrix` maps, `inverseMatrix` maps back. */
  datatype Transform = Transform(directMatrix: Matrix, inverseMatrix: Matrix)
  {
    /** The pair invariant: direct and inverse multiply to the identity in both orders. */
    predicate Valid()
    {
      InversePair(directMatrix, inverseMatrix)
    }

    /** `direct(row, col)`: the entry `_direct[col][row]`. */
    function Direct(row: Index, col: Index): real
    {
      Entry(directMatrix, col, row)
    }

    /** `inverse(row, col)`: the entry `_inverse[col][row]`. */
    function Inverse(row: Index, col: Index): real
    {
      Entry(inverseMatrix, col, row)
    }

    /** `inverte`: the transformation that undoes this one. */
    function Inverte(): (r: Transform)
      ensures r.directMatrix == inverseMatrix && r.inverseMatrix == directMatrix
      ensures Valid() ==> r.Valid()
    {
      Transform(inverseMatrix, directMatrix)
    }

    /** The view that `composeWith` and `map` take of a transformation. */
    function AsGeoMatrix(): (g: GeoMatrix)
      ensures g.Invertible? && g.directMatrix == directMatrix && g.inverseMatrix == inverseMatrix
    {
      Invertible(directMatrix, inverseMatrix)
    }

    /**
     * `composeWith(t)`: the direct matrix is `matrixMultiply(t.direct, this.direct)`,
     * the inverse is `matrixMultiply(this.inverse, t.inverse)`. The argument must
     * carry an inverse matrix.
     */
    function ComposeWith(t: GeoMatrix): Transform
      requires t.Invertible?
    {
      Transform(Mul(t.directMatrix, directMatrix), Mul(inverseMatrix, t.inverseMatrix))
    }
  }

  /** `byInverting(t)`: the same swap as `t.inverte()`. */
  function ByInverting(t: Transform): (r: Transform)
    ensures r == t.Inverte()
    ensures t.Valid() ==> r.Valid()
  {
    Transform(t.inverseMatrix, t.directMatrix)
  }

  /** The identity transformation of the constructor. */
  function Identity(): (r: Transform)
    ensures forall row: Index, col: Index :: r.Direct(row, col) == (if row == col then 1.0 else 0.0)
    ensures forall row: Index, col: Index :: r.Inverse(row, col) == (if row == col then 1.0 else 0.0)
  {
    Transform(IdentityMatrix(), IdentityMatrix())
  }

  /** `fromTranslation(tx, ty, tz)`: column 3 of the direct matrix is `(tx, ty, tz, 1)`. */
  function FromTranslation(tx: real, ty: real, tz: real): (r: Transform)
  {
    Transform(Matrix(HCoords(1.0, 0.0, 0.0, 0.0), HCoords(0.0, 1.0, 0.0, 0.0),
                     HCoords(0.0, 0.0, 1.0, 0.0), HCoords(tx, ty, tz, 1.0)),
              Matrix(HCoords(1.0, 0.0, 0.0, 0.0), HCoords(0.0, 1.0, 0.0, 0.0),
                     HCoords(0.0, 0.0, 1.0, 0.0), HCoords(-tx, -ty, -tz, 1.0)))
  }

  /** `fromRotationX(a)` with `c = cos a` and `s = sin a`. */
  function FromRotationX(c: real, s: real): (r: Transform)
    ensures r.inverseMatrix == Transpose(r.directMatrix)
  {
    Transform(Matrix(HCoords(1.0, 0.0, 0.0, 0.0), HCoords(0.0, c, s, 0.0),
                     HCoords(0.0, -s, c, 0.0), HCoords(0.0, 0.0, 0.0, 1.0)),
              Matrix(HCoords(1.0, 0.0, 0.0, 0.0), HCoords(0.0, c, -s, 0.0),
                     HCoords(0.0, s, c, 0.0), HCoords(0.0, 0.0, 0.0, 1.0)))
  }

  /** `fromRotationY(a)` with `c = cos a` and `s = sin a`. */
  function FromRotationY(c: real, s: real): (r: Transform)
    ensures r.inverseMatrix == Transpose(r.directMatrix)
  {
    Transform(Matrix(HCoords(c, 0.0, -s, 0.0), HCoords(0.0, 1.0, 0.0, 0.0),
                     HCoords(s, 0.0, c, 0.0), HCoords(0.0, 0.0, 0.0, 1.0)),
              Matrix(HCoords(c, 0.0, s, 0.0), HCoords(0.0, 1.0, 0.0, 0.0),
                     HCoords(-s, 0.0, c, 0.0), HCoords(0.0, 0.0, 0.0, 1.0)))
  }

  /** `fromRotationZ(a)` with `c = cos a` and `s = sin a`. */
  function FromRotationZ(c: real, s: real): (r: Transform)
    ensures r.inverseMatrix == Transpose(r.directMatrix)
  {
    Transform(Matrix(HCoords(c, -s, 0.0, 0.0), HCoords(s, c, 0.0, 0.0),
                     HCoords(0.0, 0.0, 1.0, 0.0), HCoords(0.0, 0.0, 0.0, 1.0)),
              Matrix(HCoords(c, s, 0.0, 0.0), HCoords(-s, c, 0.0, 0.0),
                     HCoords(0.0, 0.0, 1.0, 0.0), HCoords(0.0, 0.0, 0.0, 1.0)))
  }

  /** `fromScale(sx, sy, sz)`: the inverse divides by each factor, so none may be zero. */
  function FromScale(sx: real, sy: real, sz: real): (r: Transform)
    requires sx != 0.0 && sy != 0.0 && sz != 0.0
  {
    Transform(Matrix(HCoords(sx, 0.0, 0.0, 0.0), HCoords(0.0, sy, 0.0, 0.0),
                     HCoords(0.0, 0.0, sz, 0.0), HCoords(0.0, 0.0, 0.0, 1.0)),
              Matrix(HCoords(1.0 / sx, 0.0, 0.0, 0.0), HCoords(0.0, 1.0 / sy, 0.0, 0.0),
                     HCoords(0.0, 0.0, 1.0 / sz, 0.0), HCoords(0.0, 0.0, 0.0, 1.0)))
  }

  /** A valid transformation's inverse undoes its direct matrix on every tuple. */
  lemma {:induction false} RoundTrip(t: Transform, v: HCoords)
    requires t.Valid()
    ensures Apply(t.inverseMatrix, Apply(t.directMatrix, v)) == v
    ensures Apply(t.directMatrix, Apply(t.inverseMatrix, v)) == v
  {
    ApplyMul(t.directMatrix, t.inverseMatrix, v);
    ApplyMul(t.inverseMatrix, t.directMatrix, v);
    ApplyIdentity(v);
  }

  /** `inverte` and `byInverting` are the same swap, and swapping twice restores both matrices. */
  lemma InverteInvolution(t: Transform)
    ensures ByInverting(t) == t.Inverte()
    ensures t.Inverte().Inverte() == t
    ensures ByInverting(ByInverting(t)) == t
  {
  }

  /** `this.composeWith(t)` applies `t` first and `this` second. */
  lemma {:induction false} ComposeWithApply(u: Transform, t: Transform, v: HCoords)
    ensures Apply(u.ComposeWith(t.AsGeoMatrix()).directMatrix, v) == Apply(u.directMatrix, Apply(t.directMatrix, v))
    ensures Apply(u.ComposeWith(t.AsGeoMatrix()).inverseMatrix, v) == Apply(t.inverseMatrix, Apply(u.inverseMatrix, v))
  {
    ApplyMul(t.directMatrix, u.directMatrix, v);
    ApplyMul(u.inverseMatrix, t.inverseMatrix, v);
  }

  /** The identity is a unit of `composeWith` on both sides. */
  lemma ComposeWithIdentity(t: Transform)
    ensures Identity().ComposeWith(t.AsGeoMatrix()) == t
    ensures t.ComposeWith(Identity().AsGeoMatrix()) == t
  {
    MulIdentity(t.directMatrix);
    MulIdentity(t.inverseMatrix);
  }

  /** `composeWith` keeps the pair invariant when both operands keep it. */
  lemma {:induction false} ComposeWithValid(u: Transform, t: Transform)
    requires u.Valid() && t.Valid()
    ensures u.ComposeWith(t.AsGeoMatrix()).Valid()
  {
    var d1, i1, d2, i2 := u.directMatrix, u.inverseMatrix, t.directMatrix, t.inverseMatrix;
    calc {
      Mul(Mul(d2, d1), Mul(i1, i2));
      { MulAssociative(d2, d1, Mul(i1, i2)); }
      Mul(d2, Mul(d1, Mul(i1, i2)));
      { MulAssociative(d1, i1, i2); }
      Mul(d2, Mul(Mul(d1, i1), i2));
      { MulIdentity(i2); }
      Mul(d2, i2);
    }
    calc {
      Mul(Mul(i1, i2), Mul(d2, d1));
      { MulAssociative(i1, i2, Mul(d2, d1)); }
      Mul(i1, Mul(i2, Mul(d2, d1)));
      { MulAssociative(i2, d2, d1); }
      Mul(i1, Mul(Mul(i2, d2), d1));
      { MulIdentity(d1); }
      Mul(i1, d1);
    }
  }

  /** The identity transformation keeps the pair invariant. */
  lemma IdentityValid()
    ensures Identity().Valid()
  {
    MulIdentity(IdentityMatrix());
  }

  /** Every translation keeps the pair invariant. */
  lemma FromTranslationValid(tx: real, ty: real, tz: real)
    ensures FromTranslation(tx, ty, tz).Valid()
  {
  }

  /** Every scale by nonzero factors keeps the pair invariant. */
  lemma FromScaleValid(sx: real, sy: real, sz: real)
    requires sx != 0.0 && sy != 0.0 && sz != 0.0
    ensures FromScale(sx, sy, sz).Valid()
  {
  }

  /** A rotation about X whose `(c, s)` lie on the unit circle keeps the pair invariant. */
  lemma FromRotationXValid(c: real, s: real)
    requires c * c + s * s == 1.0
    ensures FromRotationX(c, s).Valid()
  {
  }

  /** A rotation about Y whose `(c, s)` lie on the unit circle keeps the pair invariant. */
  lemma FromRotationYValid(c: real, s: real)
    requires c * c + s * s == 1.0
    ensures FromRotationY(c, s).Valid()
  {
  }

  /** A rotation about Z whose `(c, s)` lie on the unit circle keeps the pair invariant. */
  lemma FromRotationZValid(c: real, s: real)
    requires c * c + s * s == 1.0
    ensures FromRotationZ(c, s).Valid()
  {
  }

  /** Translation adds `w` times `(tx, ty, tz)` to a tuple; the inverse translates back. */
  lemma FromTranslationAction(tx: real, ty: real, tz: real, v: HCoords)
    ensures Apply(FromTranslation(tx, ty, tz).directMatrix, v) == HCoords(v.x + v.w * tx, v.y + v.w * ty, v.z + v.w * tz, v.w)
    ensures Apply(FromTranslation(tx, ty, tz).inverseMatrix, v) == HCoords(v.x - v.w * tx, v.y - v.w * ty, v.z - v.w * tz, v.w)
  {
  }

  /** Scaling multiplies each coordinate by its factor and leaves `w` alone. */
  lemma FromScaleAction(sx: real, sy: real, sz: real, v: HCoords)
    requires sx != 0.0 && sy != 0.0 && sz != 0.0
    ensures Apply(FromScale(sx, sy, sz).directMatrix, v) == HCoords(sx * v.x, sy * v.y, sz * v.z, v.w)
  {
  }

  /** Rotation about X turns the Y axis towards Z: `(0, 1, 0)` goes to `(0, c, s)`. */
  lemma FromRotationXAction(c: real, s: real, v: HCoords)
    ensures Apply(FromRotationX(c, s).directMatrix, v) == HCoords(v.x, c * v.y - s * v.z, s * v.y + c * v.z, v.w)
  {
  }

  /** Rotation about Y turns the X axis towards -Z: `(1, 0, 0)` goes to `(c, 0, -s)`. */
  lemma FromRotationYAction(c: real, s: real, v: HCoords)
    ensures Apply(FromRotationY(c, s).directMatrix, v) == HCoords(c * v.x + s * v.z, v.y, c * v.z - s * v.x, v.w)
  {
  }

  /** Rotation about Z turns the X axis towards -Y: `(1, 0, 0)` goes to `(c, -s, 0)`. */
  lemma FromRotationZAction(c: real, s: real, v: HCoords)
    ensures Apply(FromRotationZ(c, s).directMatrix, v) == HCoords(c * v.x + s * v.y, c * v.y - s * v.x, v.z, v.w)
  {
  }

  /** `direct(row, col)` reads column-major storage: the translation sits in column 3. */
  lemma DirectReadsColumns(tx: real, ty: real, tz: real)
    ensures FromTranslation(tx, ty, tz).Direct(0, 3) == tx
    ensures FromTranslation(tx, ty, tz).Direct(1, 3) == ty
    ensures FromTranslation(tx, ty, tz).Direct(2, 3) == tz
    ensures FromTranslation(tx, ty, tz).Direct(3, 0) == 0.0
    ensures FromTranslation(tx, ty, tz).Inverse(0, 3) == -tx
  {
  }

  /** Scale 2 sends (1, 2, 4) to (2, 4, 8); its inverse sends (1, 2, 4) to (0.5, 1, 2). */
  lemma ScaleExample()
    ensures Apply(FromScale(2.0, 2.0, 2.0).directMatrix, HCoords(1.0, 2.0, 4.0, 1.0)) == HCoords(2.0, 4.0, 8.0, 1.0)
    ensures Apply(FromScale(2.0, 2.0, 2.0).Inverte().directMatrix, HCoords(1.0, 2.0, 4.0, 1.0)) == HCoords(0.5, 1.0, 2.0, 1.0)
  {
  }

  /**
   * The quarter turns of the rotation tests, +90 degrees being `(c, s) = (0, 1)`:
   * about X the point on Z goes to -Y and comes back to Y under the inverse,
   * about Y the point on X goes to -Z, about Z the point on X goes to -Y.
   */
  lemma QuarterTurns(v: HCoords)
    ensures Apply(FromRotationX(0.0, 1.0).directMatrix, v) == HCoords(v.x, -v.z, v.y, v.w)
    ensures Apply(FromRotationX(0.0, 1.0).inverseMatrix, v) == HCoords(v.x, v.z, -v.y, v.w)
    ensures Apply(FromRotationY(0.0, 1.0).directMatrix, v) == HCoords(v.z, v.y, -v.x, v.w)
    ensures Apply(FromRotationZ(0.0, 1.0).directMatrix, v) == HCoords(v.y, -v.x, v.z, v.w)
  {
  }

  /** The quarter turns by -90 degrees, `(c, s) = (0, -1)`: each of the above reversed. */
  lemma NegativeQuarterTurns(v: HCoords)
    ensures Apply(FromRotationX(0.0, -1.0).directMatrix, v) == HCoords(v.x, v.z, -v.y, v.w)
    ensures Apply(FromRotationY(0.0, -1.0).directMatrix, v) == HCoords(-v.z, v.y, v.x, v.w)
    ensures Apply(FromRotationZ(0.0, -1.0).directMatrix, v) == HCoords(-v.y, v.x, v.z, v.w)
  {
  }

  /** Composing two translations gives the translation by the sum of the offsets. */
  lemma ComposeTranslations(a: HCoords, b: HCoords)
    ensures FromTranslation(a.x, a.y, a.z).ComposeWith(FromTranslation(b.x, b.y, b.z).AsGeoMatrix())
         == FromTranslation(a.x + b.x, a.y + b.y, a.z + b.z)
  {
  }

  /** Composing two rotations about X adds the angles: the cosine and sine of the sum. */
  lemma ComposeRotationsX(c1: real, s1: real, c2: real, s2: real)
    ensures FromRotationX(c1, s1).ComposeWith(FromRotationX(c2, s2).AsGeoMatrix())
         == FromRotationX(c1 * c2 - s1 * s2, s1 * c2 + c1 * s2)
  {
  }
}
