/** The records the renderer queues and draws: vertices, shapes, batches and the
    draw state (src/gfx/Vertex.ts, Shape.ts, Batch.ts, RendererState.ts). */
module Graphics {
  import opened Geometry
  import opened Textures

  /** `PrimitiveType`: TRIANGLES = 0, TRIANGLE_STRIP = 1, TRIANGLE_FAN = 2. */
  datatype PrimitiveType = TRIANGLES | TRIANGLE_STRIP | TRIANGLE_FAN

  /** `BlendMode`. */
  datatype BlendMode = NORMAL | ADD | SCREEN

  /** The numeric value of each primitive type, as the enum declares it. */
  function PrimitiveCode(p: PrimitiveType): (code: nat)
    ensures code < 3
    ensures code == 0 <==> p == TRIANGLES
    ensures code == 1 <==> p == TRIANGLE_STRIP
    ensures code == 2 <==> p == TRIANGLE_FAN
  {
    match p
    case TRIANGLES => 0
    case TRIANGLE_STRIP => 1
    case TRIANGLE_FAN => 2
  }

  /** The three primitive types have distinct values. */
  lemma PrimitiveCodesDistinct(p: PrimitiveType, q: PrimitiveType)
    ensures PrimitiveCode(p) == PrimitiveCode(q) <==> p == q
  {
  }

  /** `Vertex.SIZE`: the floats each vertex takes in the vertex buffer. */
  const VertexSize: nat := 36

  /** A vertex: a position, texture coordinates and a colour. */
  datatype Vertex = Vertex(position: Vec3, uv: Vec2, color: Color)

  /** A shape queued for drawing; the texture is compared by identity. */
  datatype Shape = Shape(vertices: seq<Vertex>, primitive: PrimitiveType, texture: Texture?, blendMode: BlendMode)

  /** `new Shape()`: no vertices, TRIANGLES, no texture, NORMAL. */
  const EmptyShape: Shape := Shape([], TRIANGLES, null, NORMAL)

  /** A run of vertices drawn with one `drawArrays` call. */
  datatype Batch = Batch(offset: int, vertexCount: int, texture: Texture?, primitive: PrimitiveType,
                         blendMode: BlendMode, z: real)

  /** The draw state sprites are built from. */
  datatype RendererState = RendererState(position: Vec3, scale: Vec2, uv: Rect, origin: Vec2,
                                         color: Color, rotation: real, blendMode: BlendMode)

  /** `new RendererState()`. */
  const DefaultState: RendererState :=
    RendererState(Vec3(0.0, 0.0, 0.0), Vec2(1.0, 1.0), Rect(0.0, 0.0, 1.0, 1.0), Vec2(0.0, 0.0),
                  Rgb(1.0, 1.0, 1.0), 0.0, NORMAL)

  /** A fresh state is at the origin, unscaled, with the whole texture, opaque white,
      unrotated and blended normally. */
  lemma DefaultStateFields()
    ensures DefaultState.position == Vec3(0.0, 0.0, 0.0) && DefaultState.scale == Vec2(1.0, 1.0)
    ensures DefaultState.uv == Rect(0.0, 0.0, 1.0, 1.0) && DefaultState.origin == Vec2(0.0, 0.0)
    ensures DefaultState.color == Color(1.0, 1.0, 1.0, 1.0)
    ensures DefaultState.rotation == 0.0 && DefaultState.blendMode == NORMAL
  {
  }

  /** `copy`: a new state built field by field from this one. */
  function Copy(s: RendererState): (c: RendererState)
    ensures c == s
  {
    RendererState(Vec3(s.position.x, s.position.y, s.position.z), Vec2(s.scale.x, s.scale.y),
                  Rect(s.uv.x, s.uv.y, s.uv.w, s.uv.h), Vec2(s.origin.x, s.origin.y),
                  Color(s.color.r, s.color.g, s.color.b, s.color.a), s.rotation, s.blendMode)
  }

  /** A copy of a copy is the original. */
  lemma CopyOfCopy(s: RendererState)
    ensures Copy(Copy(s)) == s
  {
  }
}
