/**
 * The small part of nalgebra the renderer uses: fixed-size vectors and a
 * 4x4 matrix over `real` (standing for `f32`), with the products it takes.
 */
module Linalg {
  datatype Vec2 = Vec2(x: real, y: real)
  datatype Vec3 = Vec3(x: real, y: real, z: real)
  datatype Vec4 = Vec4(x: real, y: real, z: real, w: real)

  /** Entries are named row-then-column, as nalgebra's `m11` .. `m44`. */
  datatype Mat4 = Mat4(
    m11: real, m12: real, m13: real, m14: real,
    m21: real, m22: real, m23: real, m24: real,
    m31: real, m32: real, m33: real, m34: real,
    m41: real, m42: real, m43: real, m44: real)

  function Add2(u: Vec2, v: Vec2): Vec2 { Vec2(u.x + v.x, u.y + v.y) }
  function Sub2(u: Vec2, v: Vec2): Vec2 { Vec2(u.x - v.x, u.y - v.y) }
  function Scale2(v: Vec2, k: real): Vec2 { Vec2(v.x * k, v.y * k) }

  function Sub3(u: Vec3, v: Vec3): Vec3 { Vec3(u.x - v.x, u.y - v.y, u.z - v.z) }
  function Neg3(v: Vec3): Vec3 { Vec3(-v.x, -v.y, -v.z) }
  function Dot3(u: Vec3, v: Vec3): real { u.x * v.x + u.y * v.y + u.z * v.z }
  function Cross(u: Vec3, v: Vec3): Vec3 {
    Vec3(u.y * v.z - u.z * v.y, u.z * v.x - u.x * v.z, u.x * v.y - u.y * v.x)
  }

  /** Homogeneous point `(p.x, p.y, p.z, 1)`. */
  function Point(p: Vec3): Vec4 { Vec4(p.x, p.y, p.z, 1.0) }

  /** Matrix times column vector. */
  function MulVec(m: Mat4, v: Vec4): Vec4 {
    Vec4(m.m11 * v.x + m.m12 * v.y + m.m13 * v.z + m.m14 * v.w,
         m.m21 * v.x + m.m22 * v.y + m.m23 * v.z + m.m24 * v.w,
         m.m31 * v.x + m.m32 * v.y + m.m33 * v.z + m.m34 * v.w,
         m.m41 * v.x + m.m42 * v.y + m.m43 * v.z + m.m44 * v.w)
  }

  /** The cross product is orthogonal to both factors (what makes it a face normal). */
  lemma CrossOrthogonal(u: Vec3, v: Vec3)
    ensures Dot3(Cross(u, v), u) == 0.0 && Dot3(Cross(u, v), v) == 0.0
  {
    var n := Cross(u, v);
    assert Dot3(n, u) == (u.y * v.z - u.z * v.y) * u.x + (u.z * v.x - u.x * v.z) * u.y + (u.x * v.y - u.y * v.x) * u.z;
  }
}
