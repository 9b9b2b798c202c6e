/** Three-component positions and the squared distance used by the proximity checks. */
module Geometry {

  /** A position, velocity or displacement (three.js `Vector3`, or a plain `{x, y, z}`). */
  datatype Vec3 = Vec3(x: real, y: real, z: real)

  function DistanceSquared(a: Vec3, b: Vec3): (r: real)
    ensures r >= 0.0
  {
    var dx, dy, dz := a.x - b.x, a.y - b.y, a.z - b.z;
    SquareNonNegative(dx);
    SquareNonNegative(dy);
    SquareNonNegative(dz);
    dx * dx + dy * dy + dz * dz
  }

  lemma SquareNonNegative(d: real)
    ensures d * d >= 0.0
  {
    if d < 0.0 {
      assert d * d == (-d) * (-d);
    }
  }

  /** `c * a <= c * b` for `a <= b` and a non-negative factor `c`. */
  lemma ScaleMonotoneLeft(c: real, a: real, b: real)
    requires a <= b && c >= 0.0
    ensures c * a <= c * b
  {
    assert c * b - c * a == c * (b - a);
  }

  lemma NegativeTimesPositive(a: real, b: real)
    requires a < 0.0 && b > 0.0
    ensures a * b < 0.0
  {
  }

  /** For a non-negative distance `d` and a positive radius `k`, comparing
      `d < k` is the same as comparing the squares. This is why a distance
      test against a radius can be stated without a square root. */
  lemma SquaredComparison(d: real, k: real)
    requires d >= 0.0 && k > 0.0
    ensures d < k <==> d * d < k * k
  {
    assert d * d - k * k == (d - k) * (d + k);
    if d < k {
      NegativeTimesPositive(d - k, d + k);
    } else {
      assert (d - k) * (d + k) >= 0.0;
    }
  }
}
