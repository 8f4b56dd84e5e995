/**
 * Homogeneous coordinate tuples and 4x4 matrices, stored column by column.
 *
 * A matrix is four columns, each itself a homogeneous tuple, and the entry
 * in row `row` of column `col` is read `m[col][row]`. Indices are confined
 * to 0..3 by the type `Index`, so an out-of-range access cannot be written.
 */
module Types {

  /** A row or a column of a matrix, or a component of a tuple: 0, 1, 2 or 3. */
  type Index = i: int | 0 <= i < 4

  /** Homogeneous coordinates (x, y, z, w). */
  datatype HCoords = HCoords(x: real, y: real, z: real, w: real)

  /** Coordinates of a free vector: w is always 0. */
  type VCoords = c: HCoords | c.w == 0.0 witness HCoords(0.0, 0.0, 0.0, 0.0)

  /** Coordinates of a point: w is always 1. */
  type PCoords = c: HCoords | c.w == 1.0 witness HCoords(0.0, 0.0, 0.0, 1.0)

  /** The component `c[i]`. */
  function Coord(c: HCoords, i: Index): real
  {
    if i == 0 then c.x else if i == 1 then c.y else if i == 2 then c.z else c.w
  }

  /** Four columns of four reals: `c0` is column 0, and so on. */
  datatype Matrix = Matrix(c0: HCoords, c1: HCoords, c2: HCoords, c3: HCoords)

  /** The column `m[col]`. */
  function Column(m: Matrix, col: Index): HCoords
  {
    if col == 0 then m.c0 else if col == 1 then m.c1 else if col == 2 then m.c2 else m.c3
  }

  /** The entry `m[col][row]`: row `row` of column `col`. */
  function Entry(m: Matrix, col: Index, row: Index): real
  {
    Coord(Column(m, col), row)
  }

  /** A tuple is exactly its four components. */
  lemma {:induction false} CoordsExtensionality(a: HCoords, b: HCoords)
    ensures a == b <==> forall i: Index :: Coord(a, i) == Coord(b, i)
  {
    if forall i: Index :: Coord(a, i) == Coord(b, i) {
      assert Coord(a, 0) == Coord(b, 0) && Coord(a, 1) == Coord(b, 1);
      assert Coord(a, 2) == Coord(b, 2) && Coord(a, 3) == Coord(b, 3);
    }
  }

  /** A matrix is exactly its sixteen entries `m[col][row]`. */
  lemma {:induction false} MatrixExtensionality(a: Matrix, b: Matrix)
    ensures a == b <==> forall col: Index, row: Index :: Entry(a, col, row) == Entry(b, col, row)
  {
    if forall col: Index, row: Index :: Entry(a, col, row) == Entry(b, col, row) {
      forall col: Index ensures Column(a, col) == Column(b, col) {
        forall row: Index ensures Coord(Column(a, col), row) == Coord(Column(b, col), row) {
          assert Entry(a, col, row) == Entry(b, col, row);
        }
        CoordsExtensionality(Column(a, col), Column(b, col));
      }
      assert Column(a, 0) == Column(b, 0) && Column(a, 1) == Column(b, 1);
      assert Column(a, 2) == Column(b, 2) && Column(a, 3) == Column(b, 3);
    }
  }

  /**
   * What composition and mapping read from a transformation: its direct
   * matrix, and its inverse matrix when it keeps one. A `Transform` is
   * `Invertible`; a `Project` keeps only a direct matrix.
   */
  datatype GeoMatrix =
    | Invertible(directMatrix: Matrix, inverseMatrix: Matrix)
    | DirectOnly(directMatrix: Matrix)
}
