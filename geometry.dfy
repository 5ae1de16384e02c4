/**
 * Exact 3-vector and 3x3-matrix arithmetic over the reals, used by the
 * point-preparation and linear-system modules. The source does this with
 * numpy float64 arrays; here every value is an exact `real`.
 */
module Geometry {

  /** A point or direction in 3-space. */
  datatype Vec3 = Vec3(x: real, y: real, z: real)
  {
    /** Component `k` (0 = x, 1 = y, 2 = z), as numpy's `p[k]`. */
    function At(k: nat): real
      requires k < 3
    {
      if k == 0 then x else if k == 1 then y else z
    }
  }

  /** A 3x3 matrix given by its three rows. */
  datatype Mat3 = Mat3(r0: Vec3, r1: Vec3, r2: Vec3)
  {
    /** Row `k`, as numpy's `M[k]`. */
    function Row(k: nat): Vec3
      requires k < 3
    {
      if k == 0 then r0 else if k == 1 then r1 else r2
    }
  }

  const Zero: Vec3 := Vec3(0.0, 0.0, 0.0)

  const Identity: Mat3 := Mat3(Vec3(1.0, 0.0, 0.0), Vec3(0.0, 1.0, 0.0), Vec3(0.0, 0.0, 1.0))

  function Dot3(u: Vec3, v: Vec3): real
  {
    u.x * v.x + u.y * v.y + u.z * v.z
  }

  function NormSq(v: Vec3): real
  {
    Dot3(v, v)
  }

  function Add(u: Vec3, v: Vec3): Vec3
  {
    Vec3(u.x + v.x, u.y + v.y, u.z + v.z)
  }

  /** Every component multiplied by `s`. */
  function Scale(v: Vec3, s: real): Vec3
  {
    Vec3(v.x * s, v.y * s, v.z * s)
  }

  /** The matrix-vector product `M . v` (numpy's `np.dot(M, v)`). */
  function MulVec(m: Mat3, v: Vec3): Vec3
  {
    Vec3(Dot3(m.r0, v), Dot3(m.r1, v), Dot3(m.r2, v))
  }

  function Transpose(m: Mat3): Mat3
  {
    Mat3(Vec3(m.r0.x, m.r1.x, m.r2.x), Vec3(m.r0.y, m.r1.y, m.r2.y), Vec3(m.r0.z, m.r1.z, m.r2.z))
  }

  /** The row vector `v` times `m`: the combination of `m`'s rows weighted by `v`. */
  function RowTimes(v: Vec3, m: Mat3): Vec3
  {
    Add(Add(Scale(m.r0, v.x), Scale(m.r1, v.y)), Scale(m.r2, v.z))
  }

  /** The matrix product `a . b`. */
  function MatMul(a: Mat3, b: Mat3): Mat3
  {
    Mat3(RowTimes(a.r0, b), RowTimes(a.r1, b), RowTimes(a.r2, b))
  }

  /** The determinant, by cofactor expansion along the first row. */
  function Det(m: Mat3): real
  {
    m.r0.x * (m.r1.y * m.r2.z - m.r1.z * m.r2.y)
    - m.r0.y * (m.r1.x * m.r2.z - m.r1.z * m.r2.x)
    + m.r0.z * (m.r1.x * m.r2.y - m.r1.y * m.r2.x)
  }
}
