/**
 * The numeric primitives: the identity matrix, the action of a matrix on a
 * tuple, matrix multiplication (as a specification function and as the
 * nested-loop method that computes it), the tolerance and rounding.
 *
 * Convention: `Apply(m, v)` is the combination `v[0]*m[0] + v[1]*m[1] +
 * v[2]*m[2] + v[3]*m[3]` of the columns of `m`, the usual product of a
 * matrix and a column vector. Column `col` of `Mul(t1, t2)` is
 * `Apply(t2, t1[col])`, so `Mul(t1, t2)` means "t1 first, then t2".
 */
module Math {
  import opened Types

  /** The tolerance of every equality check, 1e-5. */
  const Precision: real := 0.00001

  /** Absolute value. */
  function Abs(r: real): (a: real)
    ensures a >= 0.0 && (a == r || a == -r)
  {
    if r < 0.0 then -r else r
  }

  /**
   * The tolerance equality of `equals`: the x, y and z components differ by
   * strictly less than `Precision`. The w component is not compared.
   */
  predicate WithinPrecision(a: HCoords, b: HCoords)
  {
    Abs(a.x - b.x) < Precision && Abs(a.y - b.y) < Precision && Abs(a.z - b.z) < Precision
  }

  /** The test of `notEquals`, written separately: some component differs by `Precision` or more. */
  predicate OutsidePrecision(a: HCoords, b: HCoords)
  {
    Abs(a.x - b.x) >= Precision || Abs(a.y - b.y) >= Precision || Abs(a.z - b.z) >= Precision
  }

  /** `notEquals` is exactly the negation of `equals`; `equals` is reflexive and symmetric. */
  lemma PrecisionTests(a: HCoords, b: HCoords)
    ensures OutsidePrecision(a, b) <==> !WithinPrecision(a, b)
    ensures WithinPrecision(a, a)
    ensures WithinPrecision(a, b) <==> WithinPrecision(b, a)
  {
  }

  /** The identity matrix: entry `[col][row]` is 1 when `col == row`, 0 otherwise. */
  function IdentityMatrix(): (m: Matrix)
    ensures forall col: Index, row: Index :: Entry(m, col, row) == if col == row then 1.0 else 0.0
  {
    Matrix(HCoords(1.0, 0.0, 0.0, 0.0),
           HCoords(0.0, 1.0, 0.0, 0.0),
           HCoords(0.0, 0.0, 1.0, 0.0),
           HCoords(0.0, 0.0, 0.0, 1.0))
  }

  /** Componentwise sum of two tuples. */
  function Plus(a: HCoords, b: HCoords): HCoords
  {
    HCoords(a.x + b.x, a.y + b.y, a.z + b.z, a.w + b.w)
  }

  /** A tuple multiplied by a scalar. */
  function Times(s: real, a: HCoords): HCoords
  {
    HCoords(s * a.x, s * a.y, s * a.z, s * a.w)
  }

  /** The sum of the componentwise products of two tuples. */
  function Dot(a: HCoords, b: HCoords): real
  {
    a.x * b.x + a.y * b.y + a.z * b.z + a.w * b.w
  }

  /** The tuple `m * v`: `v[0]*m[0] + v[1]*m[1] + v[2]*m[2] + v[3]*m[3]`, row by row. */
  function Apply(m: Matrix, v: HCoords): HCoords
  {
    HCoords(Dot(v, HCoords(m.c0.x, m.c1.x, m.c2.x, m.c3.x)),
            Dot(v, HCoords(m.c0.y, m.c1.y, m.c2.y, m.c3.y)),
            Dot(v, HCoords(m.c0.z, m.c1.z, m.c2.z, m.c3.z)),
            Dot(v, HCoords(m.c0.w, m.c1.w, m.c2.w, m.c3.w)))
  }

  /** The entry `t1[col][k]*t2[k][row]` summed over k < 4, as the loop body writes it. */
  function MulEntry(t1: Matrix, t2: Matrix, col: Index, row: Index): real
  {
    Entry(t1, col, 0) * Entry(t2, 0, row) +
    Entry(t1, col, 1) * Entry(t2, 1, row) +
    Entry(t1, col, 2) * Entry(t2, 2, row) +
    Entry(t1, col, 3) * Entry(t2, 3, row)
  }

  /** The product `matrixMultiply(t1, t2)`, column by column: "t1 first, then t2". */
  function Mul(t1: Matrix, t2: Matrix): Matrix
  {
    Matrix(Apply(t2, t1.c0), Apply(t2, t1.c1), Apply(t2, t1.c2), Apply(t2, t1.c3))
  }

  /** `a` and `b` are exact inverses of each other, in both orders. */
  predicate InversePair(a: Matrix, b: Matrix)
  {
    Mul(a, b) == IdentityMatrix() && Mul(b, a) == IdentityMatrix()
  }

  /** The transpose: entry `[col][row]` of the result is entry `[row][col]` of `m`. */
  function Transpose(m: Matrix): (t: Matrix)
    ensures forall col: Index, row: Index :: Entry(t, col, row) == Entry(m, row, col)
  {
    Matrix(HCoords(m.c0.x, m.c1.x, m.c2.x, m.c3.x),
           HCoords(m.c0.y, m.c1.y, m.c2.y, m.c3.y),
           HCoords(m.c0.z, m.c1.z, m.c2.z, m.c3.z),
           HCoords(m.c0.w, m.c1.w, m.c2.w, m.c3.w))
  }

  /**
   * `matrixMultiply`: starts from the identity and overwrites `res[col][row]`
   * in two nested loops. `res` is a 4x4 array indexed `[col, row]`.
   */
  method MatrixMultiply(t1: Matrix, t2: Matrix) returns (m: Matrix)
    ensures forall col: Index, row: Index :: Entry(m, col, row) == MulEntry(t1, t2, col, row)
    ensures m == Mul(t1, t2)
  {
    var res := new real[4, 4]((col, row) => if col == row then 1.0 else 0.0);
    for col := 0 to 4
      invariant forall c, r :: 0 <= c < col && 0 <= r < 4 ==> res[c, r] == MulEntry(t1, t2, c, r)
      invariant forall c, r :: col <= c < 4 && 0 <= r < 4 ==> res[c, r] == if c == r then 1.0 else 0.0
    {
      for row := 0 to 4
        invariant forall c, r :: 0 <= c < col && 0 <= r < 4 ==> res[c, r] == MulEntry(t1, t2, c, r)
        invariant forall r :: 0 <= r < row ==> res[col, r] == MulEntry(t1, t2, col, r)
        invariant forall r :: row <= r < 4 ==> res[col, r] == if col == r then 1.0 else 0.0
        invariant forall c, r :: col < c < 4 && 0 <= r < 4 ==> res[c, r] == if c == r then 1.0 else 0.0
      {
        res[col, row] :=
          Entry(t1, col, 0) * Entry(t2, 0, row) +
          Entry(t1, col, 1) * Entry(t2, 1, row) +
          Entry(t1, col, 2) * Entry(t2, 2, row) +
          Entry(t1, col, 3) * Entry(t2, 3, row);
      }
    }
    m := Matrix(HCoords(res[0, 0], res[0, 1], res[0, 2], res[0, 3]),
                HCoords(res[1, 0], res[1, 1], res[1, 2], res[1, 3]),
                HCoords(res[2, 0], res[2, 1], res[2, 2], res[2, 3]),
                HCoords(res[3, 0], res[3, 1], res[3, 2], res[3, 3]));
    forall col: Index, row: Index ensures Entry(m, col, row) == MulEntry(t1, t2, col, row) {
      assert Entry(m, col, row) == res[col, row];
    }
    MulEntries(t1, t2);
    MatrixExtensionality(m, Mul(t1, t2));
  }

  /** Every entry of `Mul(t1, t2)` is the sum the loop of `matrixMultiply` writes. */
  lemma MulEntries(t1: Matrix, t2: Matrix)
    ensures forall col: Index, row: Index :: Entry(Mul(t1, t2), col, row) == MulEntry(t1, t2, col, row)
  {
    forall col: Index, row: Index ensures Entry(Mul(t1, t2), col, row) == MulEntry(t1, t2, col, row) {
      MulEntryAt(t1, t2, col, row);
    }
  }

  /** Entry `[col][row]` of `Mul(t1, t2)` is the sum the loop of `matrixMultiply` writes there. */
  lemma MulEntryAt(t1: Matrix, t2: Matrix, col: Index, row: Index)
    ensures Entry(Mul(t1, t2), col, row) == MulEntry(t1, t2, col, row)
  {
    var c := Column(t1, col);
    var r := HCoords(Entry(t2, 0, row), Entry(t2, 1, row), Entry(t2, 2, row), Entry(t2, 3, row));
    MulColumn(t1, t2, col);
    assert Coord(Apply(t2, c), row) == Dot(c, r);
    assert MulEntry(t1, t2, col, row) == Dot(c, r);
  }

  /** Column `col` of the product is `t2` applied to column `col` of `t1`. */
  lemma MulColumn(t1: Matrix, t2: Matrix, col: Index)
    ensures Column(Mul(t1, t2), col) == Apply(t2, Column(t1, col))
  {
  }

  /** `Dot` is symmetric. */
  lemma DotSymmetric(a: HCoords, b: HCoords)
    ensures Dot(a, b) == Dot(b, a)
  {
    assert a.x * b.x == b.x * a.x && a.y * b.y == b.y * a.y;
    assert a.z * b.z == b.z * a.z && a.w * b.w == b.w * a.w;
  }

  /** `Dot` distributes over a sum in its first argument. */
  lemma DotPlus(a: HCoords, b: HCoords, r: HCoords)
    ensures Dot(Plus(a, b), r) == Dot(a, r) + Dot(b, r)
  {
  }

  /** A scalar factor in the first argument of `Dot` comes out. */
  lemma DotTimes(s: real, a: HCoords, r: HCoords)
    ensures Dot(Times(s, a), r) == s * Dot(a, r)
  {
  }

  /** `Apply` distributes over a sum of tuples. */
  lemma ApplyPlus(m: Matrix, a: HCoords, b: HCoords)
    ensures Apply(m, Plus(a, b)) == Plus(Apply(m, a), Apply(m, b))
  {
    DotPlus(a, b, HCoords(m.c0.x, m.c1.x, m.c2.x, m.c3.x));
    DotPlus(a, b, HCoords(m.c0.y, m.c1.y, m.c2.y, m.c3.y));
    DotPlus(a, b, HCoords(m.c0.z, m.c1.z, m.c2.z, m.c3.z));
    DotPlus(a, b, HCoords(m.c0.w, m.c1.w, m.c2.w, m.c3.w));
  }

  /** `Apply` commutes with a scalar factor. */
  lemma ApplyTimes(m: Matrix, s: real, a: HCoords)
    ensures Apply(m, Times(s, a)) == Times(s, Apply(m, a))
  {
    DotTimes(s, a, HCoords(m.c0.x, m.c1.x, m.c2.x, m.c3.x));
    DotTimes(s, a, HCoords(m.c0.y, m.c1.y, m.c2.y, m.c3.y));
    DotTimes(s, a, HCoords(m.c0.z, m.c1.z, m.c2.z, m.c3.z));
    DotTimes(s, a, HCoords(m.c0.w, m.c1.w, m.c2.w, m.c3.w));
  }

  /** `Apply(m, v)` is the combination of the columns of `m` weighted by `v`. */
  lemma ApplyCombination(m: Matrix, v: HCoords)
    ensures Apply(m, v) == Plus(Plus(Times(v.x, m.c0), Times(v.y, m.c1)), Plus(Times(v.z, m.c2), Times(v.w, m.c3)))
  {
  }

  /** Applying the product is applying `t1`, then `t2`. */
  lemma {:induction false} ApplyMul(t1: Matrix, t2: Matrix, v: HCoords)
    ensures Apply(Mul(t1, t2), v) == Apply(t2, Apply(t1, v))
  {
    var tx, ty, tz, tw := Times(v.x, t1.c0), Times(v.y, t1.c1), Times(v.z, t1.c2), Times(v.w, t1.c3);
    ApplyCombination(t1, v);
    ApplyPlus(t2, Plus(tx, ty), Plus(tz, tw));
    ApplyPlus(t2, tx, ty);
    ApplyPlus(t2, tz, tw);
    ApplyTimes(t2, v.x, t1.c0);
    ApplyTimes(t2, v.y, t1.c1);
    ApplyTimes(t2, v.z, t1.c2);
    ApplyTimes(t2, v.w, t1.c3);
    ApplyCombination(Mul(t1, t2), v);
  }

  /** The identity matrix leaves every tuple unchanged. */
  lemma ApplyIdentity(v: HCoords)
    ensures Apply(IdentityMatrix(), v) == v
  {
  }

  /** The identity matrix, the initial `res` of `matrixMultiply`, is a left and a right unit. */
  lemma MulIdentity(m: Matrix)
    ensures Mul(IdentityMatrix(), m) == m
    ensures Mul(m, IdentityMatrix()) == m
  {
  }

  /** `matrixMultiply` is associative. */
  lemma {:induction false} MulAssociative(a: Matrix, b: Matrix, c: Matrix)
    ensures Mul(Mul(a, b), c) == Mul(a, Mul(b, c))
  {
    ApplyMul(b, c, a.c0);
    ApplyMul(b, c, a.c1);
    ApplyMul(b, c, a.c2);
    ApplyMul(b, c, a.c3);
  }

  /** `10^p`. */
  function Pow10(p: nat): (r: real)
    ensures r >= 1.0
  {
    if p == 0 then 1.0 else 10.0 * Pow10(p - 1)
  }

  /** `Math.round`: the nearest integer, halves rounded up. */
  function RoundHalfUp(x: real): (k: int)
    ensures k as real - 0.5 <= x < k as real + 0.5
  {
    (x + 0.5).Floor
  }

  /** `n * 10^p`. */
  function Shifted(p: nat, n: real): real
  {
    n * Pow10(p)
  }

  /** `round(p, n)`: `Math.round(n * 10^p) / 10^p`, `n` rounded to `p` decimal digits. */
  function Round(p: nat, n: real): real
  {
    RoundHalfUp(Shifted(p, n)) as real / Pow10(p)
  }

  /** `round4`: rounding to four decimal digits, so within half of 1e-4 of `n`. */
  function Round4(n: real): (r: real)
    ensures -0.5 < (r - n) * 10000.0 <= 0.5
  {
    RoundIsNearest(4, n);
    assert Pow10(4) == 10000.0;
    Round(4, n)
  }

  /** Dividing by a nonzero number and multiplying back gives the number. */
  lemma DivTimes(a: real, m: real)
    requires m != 0.0
    ensures (a / m) * m == a
  {
  }

  /** `Round(p, n)` is within half a unit of the p-th decimal digit of `n`. */
  lemma RoundIsNearest(p: nat, n: real)
    ensures -0.5 < (Round(p, n) - n) * Pow10(p) <= 0.5
  {
    var k := RoundHalfUp(Shifted(p, n));
    DivTimes(k as real, Pow10(p));
    assert (Round(p, n) - n) * Pow10(p) == k as real - Shifted(p, n);
  }

  /** Rounding an already rounded number changes nothing. */
  lemma RoundIdempotent(p: nat, n: real)
    ensures Round(p, Round(p, n)) == Round(p, n)
  {
    var k := RoundHalfUp(Shifted(p, n));
    DivTimes(k as real, Pow10(p));
    assert Shifted(p, Round(p, n)) == k as real;
    assert RoundHalfUp(k as real) == k;
  }

  /** `round(2)` sends 0.004 to 0 and 0.006 to 0.01. */
  lemma RoundExamples()
    ensures Round(2, 0.004) == 0.0
    ensures Round(2, 0.006) == 0.01
  {
    assert Pow10(2) == 100.0;
  }

  /**
   * The product `a * b` of two reals. Squares are written `Product(a, a)`,
   * so that the sign facts below apply to them as stated.
   */
  function Product(a: real, b: real): real
  {
    a * b
  }

  /** The product of two positive numbers is positive. */
  lemma ProductPositive(a: real, b: real)
    requires a > 0.0 && b > 0.0
    ensures Product(a, b) > 0.0
  {
  }

  /** A square is never negative, and is zero only for zero. */
  lemma SquareSign(a: real)
    ensures Product(a, a) >= 0.0
    ensures Product(a, a) == 0.0 <==> a == 0.0
  {
    if a > 0.0 {
      ProductPositive(a, a);
    } else if a < 0.0 {
      ProductPositive(-a, -a);
      assert Product(-a, -a) == Product(a, a);
    } else {
      assert Product(a, a) == Product(0.0, 0.0);
    }
  }
}
