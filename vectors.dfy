/** The two- and three-component vectors of nalgebra_glm that the camera and
    the input tracker use, with `f32` components modelled as `real`. */
module Vectors {

  datatype Vec2 = Vec2(x: real, y: real)

  datatype Vec3 = Vec3(x: real, y: real, z: real)

  const Origin: Vec3 := Vec3(0.0, 0.0, 0.0)

  /** `a - b` on glm::Vec2. */
  function Sub2(a: Vec2, b: Vec2): Vec2 {
    Vec2(a.x - b.x, a.y - b.y)
  }

  /** `v * s` on glm::Vec2. */
  function Scale2(v: Vec2, s: real): Vec2 {
    Vec2(v.x * s, v.y * s)
  }

  /** `a + b` on glm::Vec3. */
  function Add(a: Vec3, b: Vec3): Vec3 {
    Vec3(a.x + b.x, a.y + b.y, a.z + b.z)
  }

  /** `a - b` on glm::Vec3. */
  function Sub(a: Vec3, b: Vec3): Vec3 {
    Vec3(a.x - b.x, a.y - b.y, a.z - b.z)
  }

  /** `v * s` on glm::Vec3. */
  function Scale(v: Vec3, s: real): Vec3 {
    Vec3(v.x * s, v.y * s, v.z * s)
  }

  /** `-v` on glm::Vec3. */
  function Neg(v: Vec3): Vec3 {
    Vec3(-v.x, -v.y, -v.z)
  }
}
