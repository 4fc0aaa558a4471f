/**
 * Value types shared by the game core: three-component vectors (used both
 * for positions and for Euler rotations) and the two scalar helpers of the
 * renderer's math utilities that the game logic relies on, clamp and lerp.
 * Every floating-point quantity of the game is modelled as an exact `real`.
 */
module Geometry {

  /** A position, an offset or an Euler rotation (x, y, z in radians). */
  datatype Vec3 = Vec3(x: real, y: real, z: real)

  function Zero(): Vec3 {
    Vec3(0.0, 0.0, 0.0)
  }

  function Sub(a: Vec3, b: Vec3): Vec3 {
    Vec3(a.x - b.x, a.y - b.y, a.z - b.z)
  }

  function Min(a: real, b: real): real {
    if a <= b then a else b
  }

  function Max(a: real, b: real): real {
    if a >= b then a else b
  }

  /**
   * The renderer's clamp, written as max(lo, min(hi, v)). The result is the
   * nearest point of [lo, hi] to v.
   */
  function Clamp(v: real, lo: real, hi: real): (r: real)
    requires lo <= hi
    ensures lo <= r <= hi
    ensures lo <= v <= hi ==> r == v
    ensures v < lo ==> r == lo
    ensures v > hi ==> r == hi
  {
    Max(lo, Min(hi, v))
  }

  /** The renderer's linear interpolation (1 - t) * a + t * b. */
  function Lerp(a: real, b: real, t: real): (r: real)
    ensures r - b == (1.0 - t) * (a - b)
  {
    (1.0 - t) * a + t * b
  }

  function Abs(v: real): (r: real)
    ensures r >= 0.0
    ensures r == v || r == -v
  {
    if v < 0.0 then -v else v
  }
}
