/** The small value types the renderer and the shader setters pass around
    (src/math/Vector2.ts, Vector3.ts, Vector4.ts, Rect.ts, Matrix4.ts and
    src/gfx/Color.ts), with reals for JavaScript numbers. */
module Geometry {
  datatype Vec2 = Vec2(x: real, y: real)

  datatype Vec3 = Vec3(x: real, y: real, z: real)

  datatype Vec4 = Vec4(x: real, y: real, z: real, w: real)

  /** A rectangle: corner `(x, y)`, width `w` and height `h`. */
  datatype Rect = Rect(x: real, y: real, w: real, h: real)

  /** A colour; `new Color(r, g, b)` leaves alpha at 1. */
  datatype Color = Color(r: real, g: real, b: real, a: real)

  /** A 4x4 matrix as the 16 numbers of its array. */
  datatype Matrix4 = Matrix4(m: seq<real>)

  /** `new Color(r, g, b)`: the alpha parameter's default. */
  function Rgb(r: real, g: real, b: real): (c: Color)
    ensures c.a == 1.0 && c.r == r && c.g == g && c.b == b
  {
    Color(r, g, b, 1.0)
  }
}
