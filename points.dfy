/**
 * A point: homogeneous coordinates whose w is 1. The constructor takes an
 * optional w (default 1) and divides x, y and z by it.
 */
module Points {
  import opened Types

  /** A point; the stored tuple always has w = 1. */
  datatype Point = Point(coord: PCoords)
  {
    /** The x getter. */
    function X(): real { coord.x }
    /** The y getter. */
    function Y(): real { coord.y }
    /** The z getter. */
    function Z(): real { coord.z }
  }

  /**
   * `new Point(x, y, z, w)`: the perspective division by `w`. A zero `w`
   * would divide by zero, so it is excluded.
   */
  function NewPoint(x: real, y: real, z: real, w: real := 1.0): (p: Point)
    requires w != 0.0
    ensures p.X() * w == x && p.Y() * w == y && p.Z() * w == z
    ensures p.coord.w == 1.0
  {
    Point(HCoords(x / w, y / w, z / w, 1.0))
  }

  /** With the default `w = 1` the getters return the inputs unchanged. */
  lemma NewPointDefault(x: real, y: real, z: real)
    ensures NewPoint(x, y, z).X() == x && NewPoint(x, y, z).Y() == y && NewPoint(x, y, z).Z() == z
  {
  }

  /** Scaling all four inputs by the same nonzero factor gives the same point. */
  lemma NewPointScaleInvariant(x: real, y: real, z: real, w: real, f: real)
    requires w != 0.0 && f != 0.0
    ensures NewPoint(f * x, f * y, f * z, f * w) == NewPoint(x, y, z, w)
  {
    var p, q := NewPoint(f * x, f * y, f * z, f * w), NewPoint(x, y, z, w);
    assert p.X() * (f * w) == f * x;
    assert p.X() == q.X() by { DivideCommon(f, x, w, p.X(), q.X()); }
    assert p.Y() == q.Y() by { DivideCommon(f, y, w, p.Y(), q.Y()); }
    assert p.Z() == q.Z() by { DivideCommon(f, z, w, p.Z(), q.Z()); }
  }

  /** Two quotients with the same value of `numerator / denominator` are equal. */
  lemma DivideCommon(f: real, a: real, w: real, r: real, s: real)
    requires w != 0.0 && f != 0.0
    requires r * (f * w) == f * a && s * w == a
    ensures r == s
  {
    assert f * (r * w) == f * (s * w);
  }
}
