/** The WebGL context the engine draws through (the `XD.GL` global). Nothing here
    draws: every call the engine makes is appended to a command log, and what the
    driver answers (compile and link status, locations) is supplied by the caller. */
module Gl {
  import opened Js

  /** A name GL hands out for a program, shader, buffer or texture. */
  type Handle = nat

  datatype ShaderStage = VertexStage | FragmentStage

  /** What a `create*` call makes. */
  datatype ObjectKind = ProgramObject | ShaderObject(stage: ShaderStage) | BufferObject | TextureObject

  datatype BlendFactor = SrcAlpha | One | OneMinusSrcAlpha | OneMinusSrcColor

  datatype DrawMode = Triangles | TriangleStrip | TriangleFan

  datatype TexParam = MinFilter | MagFilter | WrapS | WrapT

  datatype TexValue = Linear | Nearest | ClampToEdge | Repeat

  datatype PixelFormat = Rgb | Rgba | Luminance

  /** The value a `uniform*` call sends. */
  datatype UniformValue =
    | Int1(i: int)
    | Float1(x: real)
    | Float2(x: real, y: real)
    | Float3(x: real, y: real, z: real)
    | Float4(x: real, y: real, z: real, w: real)
    | Mat4(m: seq<real>)

  /** One call into GL, with the arguments that matter to the engine. */
  datatype Call =
    | Created(kind: ObjectKind, handle: Handle)
    | ShaderSource(shader: Handle, source: string)
    | CompileShader(shader: Handle)
    | DeleteShader(shader: Handle)
    | AttachShader(program: Handle, shader: Handle)
    | LinkProgram(program: Handle)
    | UseProgram(current: Option<Handle>)
    | GetAttribLocation(program: Handle, name: string)
    | GetUniformLocation(program: Handle, name: string)
    | Uniform(location: nat, value: UniformValue)
    | BindArrayBuffer(buffer: Option<Handle>)
    | BufferData(floats: nat)
    | BufferSubData(offset: nat, data: seq<real>)
    | BlendFunc(src: BlendFactor, dst: BlendFactor)
    | DrawArrays(mode: DrawMode, first: int, count: int)
    | ActiveTexture(slot: nat)
    | BindTexture(texture: Option<Handle>)
    | TexParameter(param: TexParam, setting: TexValue)
    | TexImage(format: PixelFormat, width: nat, height: nat)

  class Context {
    /** Every call made so far, oldest first. */
    var log: seq<Call>
    /** The handle the next `create*` call returns. */
    var nextHandle: Handle

    constructor ()
      ensures log == [] && nextHandle == 1
    {
      log := [];
      nextHandle := 1;
    }

    /** Makes one call. */
    method Issue(c: Call)
      modifies this
      ensures log == old(log) + [c] && nextHandle == old(nextHandle)
    {
      log := log + [c];
    }

    /** A `create*` call: a handle no earlier call returned. */
    method Create(kind: ObjectKind) returns (h: Handle)
      modifies this
      ensures h == old(nextHandle) && nextHandle == h + 1
      ensures log == old(log) + [Created(kind, h)]
    {
      h := nextHandle;
      nextHandle := nextHandle + 1;
      log := log + [Created(kind, h)];
    }
  }
}
