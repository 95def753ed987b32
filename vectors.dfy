/** Value types of the glm library as the viewer uses them: 3- and 2-component
    vectors of reals, their component-wise arithmetic, and the transcendental and
    geometric helpers of glm/cmath, which stay uninterpreted. */
module Vectors {

  datatype Vec3 = Vec3(x: real, y: real, z: real)

  datatype Vec2 = Vec2(x: real, y: real)

  /** A 4x4 matrix, as returned by glm::lookAt. Its entries are never inspected here. */
  type Mat4 = seq<seq<real>>

  /** glm::vec3(0.0f) */
  const Zero := Vec3(0.0, 0.0, 0.0)

  /** The largest finite single-precision float, FLT_MAX. */
  const FLT_MAX: real := 340282346638528859811704183484516925440.0

  /** glm::vec3(s): all three components equal to s. */
  function Splat(s: real): Vec3 {
    Vec3(s, s, s)
  }

  function Add(a: Vec3, b: Vec3): Vec3 {
    Vec3(a.x + b.x, a.y + b.y, a.z + b.z)
  }

  function Sub(a: Vec3, b: Vec3): Vec3 {
    Vec3(a.x - b.x, a.y - b.y, a.z - b.z)
  }

  function Neg(a: Vec3): Vec3 {
    Vec3(-a.x, -a.y, -a.z)
  }

  function Scale(a: Vec3, s: real): Vec3 {
    Vec3(a.x * s, a.y * s, a.z * s)
  }

  /** glm::min on scalars: `(y < x) ? y : x`. */
  function MinReal(a: real, b: real): real {
    if b < a then b else a
  }

  /** glm::max on scalars: `(x < y) ? y : x`. */
  function MaxReal(a: real, b: real): real {
    if a < b then b else a
  }

  /** glm::min on vectors, component by component. */
  function Min(a: Vec3, b: Vec3): Vec3 {
    Vec3(MinReal(a.x, b.x), MinReal(a.y, b.y), MinReal(a.z, b.z))
  }

  /** glm::max on vectors, component by component. */
  function Max(a: Vec3, b: Vec3): Vec3 {
    Vec3(MaxReal(a.x, b.x), MaxReal(a.y, b.y), MaxReal(a.z, b.z))
  }

  /** Component-wise a <= b. */
  predicate LessEq(a: Vec3, b: Vec3) {
    a.x <= b.x && a.y <= b.y && a.z <= b.z
  }

  /** Every component lies in [-FLT_MAX, FLT_MAX], as every finite float does. */
  predicate Finite(a: Vec3) {
    -FLT_MAX <= a.x <= FLT_MAX && -FLT_MAX <= a.y <= FLT_MAX && -FLT_MAX <= a.z <= FLT_MAX
  }

  /** The floating-point helpers of glm and cmath that the camera calls. Their
      numerical behaviour is not modelled: every proof holds for any choice of
      these functions. */
  datatype Glm = Glm(
    normalize: Vec3 -> Vec3,
    cross: (Vec3, Vec3) -> Vec3,
    lookAt: (Vec3, Vec3, Vec3) -> Mat4,
    radians: real -> real,
    degrees: real -> real,
    sin: real -> real,
    cos: real -> real,
    asin: real -> real,
    atan2: (real, real) -> real)
}
