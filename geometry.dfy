/** Points and 3x3 matrices over the reals, standing in for vcg::Point3f and
    vcg::Matrix33f without floating-point rounding. */
module Geometry {

  datatype Vec3 = Vec3(x: real, y: real, z: real)

  /** A 3x3 matrix by rows: `row0` is `IT[0]`, `row1` is `IT[1]` and `row2`
      is `IT[2]`. */
  datatype Mat3 = Mat3(row0: Vec3, row1: Vec3, row2: Vec3)

  const Zero := Vec3(0.0, 0.0, 0.0)

  function Add(a: Vec3, b: Vec3): Vec3
  {
    Vec3(a.x + b.x, a.y + b.y, a.z + b.z)
  }

  function Sub(a: Vec3, b: Vec3): Vec3
  {
    Vec3(a.x - b.x, a.y - b.y, a.z - b.z)
  }

  function Neg(a: Vec3): Vec3
  {
    Vec3(-a.x, -a.y, -a.z)
  }

  function Scale(a: Vec3, k: real): Vec3
  {
    Vec3(k * a.x, k * a.y, k * a.z)
  }

  /** `Matrix33f * float`: every entry multiplied by the same factor. */
  function ScaleMat(m: Mat3, k: real): Mat3
  {
    Mat3(Scale(m.row0, k), Scale(m.row1, k), Scale(m.row2, k))
  }
}
