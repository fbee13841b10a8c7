/** Three-component vectors, the stand-in for the rendering engine's Vector3. */
module Geometry {
  datatype Vec3 = Vec3(x: real, y: real, z: real)

  const Origin := Vec3(0.0, 0.0, 0.0)
  const Unit := Vec3(1.0, 1.0, 1.0)

  /** A vector whose three components are all `s` (uniform scaling). */
  function Uniform(s: real): (v: Vec3)
    ensures v.x == s && v.y == s && v.z == s
  {
    Vec3(s, s, s)
  }

  /** Math.abs on reals. */
  function Abs(a: real): (r: real)
    ensures r >= 0.0
    ensures r == a || r == -a
  {
    if a < 0.0 then -a else a
  }
}
