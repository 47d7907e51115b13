/** A GL texture with its dimensions (src/gfx/Texture.ts). */
module Textures {
  import opened Js
  import opened Gl

  datatype TextureType = RGB | RGBA | LUMINANCE

  const TwoTo32: nat := 0x1_0000_0000

  /** `a & b` on the bit patterns of two non-negative integers. */
  function BitAnd(a: nat, b: nat): (r: nat)
    ensures r <= a && r <= b
  {
    if a == 0 || b == 0 then 0
    else 2 * BitAnd(a / 2, b / 2) + (if a % 2 == 1 && b % 2 == 1 then 1 else 0)
  }

  /** `isPO2(x)`: `x != 0 && (x & (x - 1)) == 0`, where `&` works on the low 32 bits
      of its operands. */
  predicate IsPO2(x: nat)
  {
    x != 0 && BitAnd(x % TwoTo32, (x - 1) % TwoTo32) == 0
  }

  /** 1, 2, 4, 8, ... */
  predicate IsPowerOfTwo(x: nat)
    decreases x
  {
    x == 1 || (x >= 2 && x % 2 == 0 && IsPowerOfTwo(x / 2))
  }

  lemma {:induction false} BitAndSelf(y: nat)
    ensures BitAnd(y, y) == y
    decreases y
  {
    if y != 0 {
      BitAndSelf(y / 2);
    }
  }

  lemma {:induction false} BitAndPredecessor(x: nat)
    requires x >= 1
    ensures BitAnd(x, x - 1) == 0 <==> IsPowerOfTwo(x)
    decreases x
  {
    if x == 1 {
    } else if x % 2 == 0 {
      assert (x - 1) / 2 == x / 2 - 1;
      BitAndPredecessor(x / 2);
    } else {
      assert (x - 1) / 2 == x / 2;
      BitAndSelf(x / 2);
    }
  }

  /** On the sizes a 32-bit `&` sees whole, `isPO2` is exactly "is a power of two". */
  lemma IsPO2IffPowerOfTwo(x: nat)
    requires x < TwoTo32
    ensures IsPO2(x) <==> IsPowerOfTwo(x)
  {
    if x >= 1 {
      assert x % TwoTo32 == x && (x - 1) % TwoTo32 == x - 1;
      BitAndPredecessor(x);
    }
  }

  lemma IsPO2Zero()
    ensures !IsPO2(0)
  {
  }

  /** The wrap mode `setToImage` picks for an image: REPEAT only when both sides are
      powers of two. */
  function WrapFor(width: nat, height: nat): (w: TexValue)
    ensures w == ClampToEdge || w == Repeat
  {
    if !IsPO2(width) || !IsPO2(height) then ClampToEdge else Repeat
  }

  lemma WrapChoice(width: nat, height: nat)
    requires width < TwoTo32 && height < TwoTo32
    ensures WrapFor(width, height) == Repeat <==> IsPowerOfTwo(width) && IsPowerOfTwo(height)
  {
    IsPO2IffPowerOfTwo(width);
    IsPO2IffPowerOfTwo(height);
  }

  function FormatOf(t: TextureType): PixelFormat
  {
    match t
    case RGB => Rgb
    case RGBA => Rgba
    case LUMINANCE => Luminance
  }

  /** The calls `setFilter(min, mag)` makes. */
  function FilterCalls(min: TexValue, mag: TexValue): seq<Call>
  {
    [TexParameter(MinFilter, min), TexParameter(MagFilter, mag)]
  }

  /** The calls `setWrap(s, t)` makes. */
  function WrapCalls(s: TexValue, t: TexValue): seq<Call>
  {
    [TexParameter(WrapS, s), TexParameter(WrapT, t)]
  }

  class Texture {
    var width: nat
    var height: nat
    /** `_type`: unset until one of the two `setTo*` calls. */
    var kind: Option<TextureType>
    /** `_gltex`: null until one of the two `setTo*` calls. */
    var handle: Option<Handle>

    constructor ()
      ensures width == 0 && height == 0 && kind == None && handle == None
    {
      width := 0;
      height := 0;
      kind := None;
      handle := None;
    }

    /** `setFilter`: the minifying and magnifying filters of the bound texture. */
    method SetFilter(gl: Context, min: TexValue, mag: TexValue)
      modifies gl
      ensures gl.nextHandle == old(gl.nextHandle)
      ensures gl.log == old(gl.log) + FilterCalls(min, mag)
    {
      gl.Issue(TexParameter(MinFilter, min));
      gl.Issue(TexParameter(MagFilter, mag));
    }

    /** `setWrap`: the wrap modes of the bound texture along s and t. */
    method SetWrap(gl: Context, s: TexValue, t: TexValue)
      modifies gl
      ensures gl.nextHandle == old(gl.nextHandle)
      ensures gl.log == old(gl.log) + WrapCalls(s, t)
    {
      gl.Issue(TexParameter(WrapS, s));
      gl.Issue(TexParameter(WrapT, t));
    }

    /** `setToEmpty`: records the given size and type and allocates an empty image of
        that format, linear-filtered and clamped. */
    method SetToEmpty(gl: Context, w: nat, h: nat, t: TextureType)
      modifies this, gl
      ensures width == w && height == h && kind == Some(t)
      ensures handle == Some(old(gl.nextHandle)) && gl.nextHandle == old(gl.nextHandle) + 1
      ensures gl.log == old(gl.log) + [Created(TextureObject, handle.value)] + [BindTexture(handle)]
                        + FilterCalls(Linear, Linear) + WrapCalls(ClampToEdge, ClampToEdge)
                        + [TexImage(FormatOf(t), w, h)] + [BindTexture(None)]
    {
      width, height, kind := w, h, Some(t);
      var tex := gl.Create(TextureObject);
      handle := Some(tex);
      Bind(gl, None);
      SetFilter(gl, Linear, Linear);
      SetWrap(gl, ClampToEdge, ClampToEdge);
      gl.Issue(TexImage(FormatOf(t), width, height));
      Unbind(gl);
    }

    /** `setToImage`: records the image's size and RGBA, nearest-filtered, repeating
        only when both sides are powers of two. */
    method SetToImage(gl: Context, imageWidth: nat, imageHeight: nat)
      modifies this, gl
      ensures width == imageWidth && height == imageHeight && kind == Some(RGBA)
      ensures handle == Some(old(gl.nextHandle)) && gl.nextHandle == old(gl.nextHandle) + 1
      ensures gl.log == old(gl.log) + [Created(TextureObject, handle.value)] + [BindTexture(handle)]
                        + FilterCalls(Nearest, Nearest)
                        + WrapCalls(WrapFor(imageWidth, imageHeight), WrapFor(imageWidth, imageHeight))
                        + [TexImage(Rgba, imageWidth, imageHeight)] + [BindTexture(None)]
    {
      width, height, kind := imageWidth, imageHeight, Some(RGBA);
      var tex := gl.Create(TextureObject);
      handle := Some(tex);
      Bind(gl, None);
      SetFilter(gl, Nearest, Nearest);
      if !IsPO2(imageWidth) || !IsPO2(imageHeight) {
        SetWrap(gl, ClampToEdge, ClampToEdge);
      } else {
        SetWrap(gl, Repeat, Repeat);
      }
      gl.Issue(TexImage(Rgba, width, height));
      Unbind(gl);
    }

    /** `bind(slot)`: selects the texture unit when a slot is given, then binds. */
    method Bind(gl: Context, slot: Option<nat>)
      modifies gl
      ensures gl.nextHandle == old(gl.nextHandle)
      ensures gl.log == old(gl.log) + (if slot.Some? then [ActiveTexture(slot.value)] else [])
                        + [BindTexture(handle)]
    {
      if slot.Some? {
        gl.Issue(ActiveTexture(slot.value));
      }
      gl.Issue(BindTexture(handle));
    }

    /** `unbind`: binds no texture. */
    method Unbind(gl: Context)
      modifies gl
      ensures gl.nextHandle == old(gl.nextHandle)
      ensures gl.log == old(gl.log) + [BindTexture(None)]
    {
      gl.Issue(BindTexture(None));
    }
  }
}
