/** Plain geometric values: SceneKit vectors and matrices, CoreGraphics points, sizes and rectangles. */
module Geometry {

  /** An SCNVector3. */
  datatype Vec3 = Vec3(x: real, y: real, z: real)

  function Add(a: Vec3, b: Vec3): Vec3 {
    Vec3(a.x + b.x, a.y + b.y, a.z + b.z)
  }

  function Sub(a: Vec3, b: Vec3): Vec3 {
    Vec3(a.x - b.x, a.y - b.y, a.z - b.z)
  }

  function Scale(a: Vec3, k: real): Vec3 {
    Vec3(a.x * k, a.y * k, a.z * k)
  }

  /** Component-wise midpoint: the point as far from `a` as `b` is from it. */
  function Midpoint(a: Vec3, b: Vec3): (m: Vec3)
    ensures Sub(m, a) == Sub(b, m)
  {
    Vec3((a.x + b.x) / 2.0, (a.y + b.y) / 2.0, (a.z + b.z) / 2.0)
  }

  /** An SCNMatrix4, row-major as SceneKit names its fields. */
  datatype Mat4 = Mat4(
    m11: real, m12: real, m13: real, m14: real,
    m21: real, m22: real, m23: real, m24: real,
    m31: real, m32: real, m33: real, m34: real,
    m41: real, m42: real, m43: real, m44: real)

  /** A CGPoint. */
  datatype Point = Point(x: real, y: real)

  /** A CGSize. */
  datatype Size = Size(width: real, height: real)

  /** A CGRect given by its origin and size. */
  datatype Rect = Rect(x: real, y: real, width: real, height: real)

  function Min(a: real, b: real): real {
    if a <= b then a else b
  }

  function Max(a: real, b: real): real {
    if a >= b then a else b
  }

  function Abs(a: real): real {
    if a < 0.0 then -a else a
  }

  /** The product of two non-negative reals is non-negative. */
  lemma MulNonNegative(a: real, b: real)
    requires 0.0 <= a && 0.0 <= b
    ensures 0.0 <= a * b
  {
  }

  /** Multiplying by a positive factor keeps order. */
  lemma MulMonotone(a: real, x: real, y: real)
    requires a > 0.0 && x <= y
    ensures a * x <= a * y
    ensures x < y ==> a * x < a * y
  {
    assert a * y - a * x == a * (y - x);
  }
}
