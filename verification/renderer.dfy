/** The per-frame sprite batcher (src/gfx/Renderer.ts): shapes are queued between
    `begin` and `end`, merged into batches, and their vertices uploaded to one GL
    vertex buffer that only ever grows. */
module Rendering {
  import opened Js
  import opened Gl
  import opened Geometry
  import opened Textures
  import opened Graphics
  import opened Batching

  /** `rotatePoint(p, rad)`, given the cosine `c` and sine `s` of the angle. */
  function RotatePoint(p: Vec2, c: real, s: real): Vec2
  {
    Vec2(c * p.x - s * p.y, s * p.x + c * p.y)
  }

  function Add(p: Vec2, q: Vec2): Vec2
  {
    Vec2(p.x + q.x, p.y + q.y)
  }

  /** The quad `drawSprite` submits for a texture of size `tw` by `th`, where `c` and
      `s` are the cosine and sine of the state's rotation. */
  function SpriteShape(st: RendererState, texture: Texture, tw: real, th: real, c: real, s: real): Shape
  {
    var width := st.scale.x * tw * st.uv.w;
    var height := st.scale.y * th * st.uv.h;
    var cx := st.origin.x * width;
    var cy := st.origin.y * height;
    var pos := Vec2(st.position.x, st.position.y);
    var tl := Add(RotatePoint(Vec2(-cx, -cy), c, s), pos);
    var tr := Add(RotatePoint(Vec2(width - cx, -cy), c, s), pos);
    var br := Add(RotatePoint(Vec2(width - cx, height - cy), c, s), pos);
    var bl := Add(RotatePoint(Vec2(-cx, height - cy), c, s), pos);
    var u1 := st.uv.x;
    var v1 := st.uv.y;
    var u2 := st.uv.x + st.uv.w;
    var v2 := st.uv.y + st.uv.h;
    var z := st.position.z;
    var TL := Vertex(Vec3(tl.x, tl.y, z), Vec2(u1, v1), st.color);
    var TR := Vertex(Vec3(tr.x, tr.y, z), Vec2(u2, v1), st.color);
    var BR := Vertex(Vec3(br.x, br.y, z), Vec2(u2, v2), st.color);
    var BL := Vertex(Vec3(bl.x, bl.y, z), Vec2(u1, v2), st.color);
    Shape([TL, TR, BR, BR, BL, TL], TRIANGLES, texture, st.blendMode)
  }

  /** A sprite is two triangles over six vertices, TL, TR, BR, BR, BL, TL, all at the
      state's z and in its colour, with texture coordinates from the state's uv
      rectangle, drawn as TRIANGLES with the state's blend mode. */
  lemma SpriteShapeLayout(st: RendererState, texture: Texture, tw: real, th: real, c: real, s: real)
    ensures var sh := SpriteShape(st, texture, tw, th, c, s);
      var vs := sh.vertices;
      |vs| == 6 && vs[3] == vs[2] && vs[5] == vs[0]
      && (forall k :: 0 <= k < 6 ==> vs[k].position.z == st.position.z && vs[k].color == st.color)
      && vs[0].uv == Vec2(st.uv.x, st.uv.y) && vs[1].uv == Vec2(st.uv.x + st.uv.w, st.uv.y)
      && vs[2].uv == Vec2(st.uv.x + st.uv.w, st.uv.y + st.uv.h) && vs[4].uv == Vec2(st.uv.x, st.uv.y + st.uv.h)
      && sh.primitive == TRIANGLES && sh.texture == texture && sh.blendMode == st.blendMode
  {
  }

  /** Unrotated and with the origin at the corner, the quad spans the position to the
      position plus the scaled size of the texture's uv part. */
  lemma SpriteCornersUnrotated(st: RendererState, texture: Texture, tw: real, th: real)
    requires st.origin == Vec2(0.0, 0.0)
    ensures var vs := SpriteShape(st, texture, tw, th, 1.0, 0.0).vertices;
      var w := st.scale.x * tw * st.uv.w;
      var h := st.scale.y * th * st.uv.h;
      var x := st.position.x;
      var y := st.position.y;
      vs[0].position.x == x && vs[0].position.y == y
      && vs[1].position.x == x + w && vs[1].position.y == y
      && vs[2].position.x == x + w && vs[2].position.y == y + h
      && vs[4].position.x == x && vs[4].position.y == y + h
  {
  }

  function Max(a: nat, b: nat): nat
  {
    if a < b then b else a
  }

  /** The GL calls of an upload of `data`, `size` floats, into buffer `vbo` whose
      capacity was `prev`: a reallocation only when the size exceeds it, then always
      a sub-range write at offset 0. */
  function UploadCalls(vbo: Handle, prev: nat, size: nat, data: seq<real>): seq<Call>
  {
    [BindArrayBuffer(Some(vbo))] + (if size > prev then [BufferData(size)] else [])
    + [BufferSubData(0, data), BindArrayBuffer(None)]
  }

  /** A reallocation happens exactly when the new size exceeds the capacity; the
      sub-range write of the data happens every time. */
  lemma UploadReallocatesIffGrows(vbo: Handle, prev: nat, size: nat, data: seq<real>)
    ensures BufferData(size) in UploadCalls(vbo, prev, size, data) <==> size > prev
    ensures BufferSubData(0, data) in UploadCalls(vbo, prev, size, data)
  {
    var calls := UploadCalls(vbo, prev, size, data);
    if BufferData(size) in calls {
      var k :| 0 <= k < |calls| && calls[k] == BufferData(size);
      assert k == 1;
    }
  }

  /** The floats of `vertices` in a new buffer, as `updateBuffer` fills its
      `Float32Array`: 36 per vertex, nine of them written. */
  method FillVertexData(vertices: seq<Vertex>) returns (vdata: array<real>)
    ensures fresh(vdata) && vdata[..] == Flatten(vertices)
  {
    vdata := new real[|vertices| * VertexSize](_ => 0.0);
    var k := 0;
    var i := 0;
    while i < |vertices|
      invariant 0 <= i <= |vertices| && k == VertexSize * i
      invariant vdata[..k] == Flatten(vertices[..i])
      invariant forall j :: k <= j < vdata.Length ==> vdata[j] == 0.0
    {
      ghost var before := vdata[..k];
      WriteVertex(vdata, k, vertices[i]);
      assert vdata[..k] == before;
      LayoutWritten(vdata[..], k, vertices[i]);
      FlattenSnoc(vertices, i);
      JoinAt(vdata[..], k, k + VertexSize);
      k := k + VertexSize;
      i := i + 1;
    }
    assert vertices[..i] == vertices;
    assert vdata[..k] == vdata[..];
  }

  /** The nine floats written over zeros lay out one vertex. */
  lemma LayoutWritten(a: seq<real>, k: nat, v: Vertex)
    requires k + VertexSize <= |a|
    requires a[k] == v.position.x && a[k + 1] == v.position.y && a[k + 2] == v.position.z
    requires a[k + 3] == v.uv.x && a[k + 4] == v.uv.y
    requires a[k + 5] == v.color.r && a[k + 6] == v.color.g && a[k + 7] == v.color.b
    requires a[k + 8] == v.color.a
    requires forall j :: k + 9 <= j < k + VertexSize ==> a[j] == 0.0
    ensures a[k..k + VertexSize] == Layout(v)
  {
    forall j | 0 <= j < VertexSize
      ensures a[k..k + VertexSize][j] == Slot(v, j)
    {
    }
  }

  lemma JoinAt(a: seq<real>, k: nat, m: nat)
    requires k <= m <= |a|
    ensures a[..m] == a[..k] + a[k..m]
  {
  }

  /** The nine writes of one vertex at `k`; every other float is left as it was. */
  method WriteVertex(vdata: array<real>, k: nat, v: Vertex)
    requires k + VertexSize <= vdata.Length
    modifies vdata
    ensures forall j :: 0 <= j < vdata.Length && (j < k || k + 9 <= j) ==> vdata[j] == old(vdata[j])
    ensures vdata[k] == v.position.x && vdata[k + 1] == v.position.y && vdata[k + 2] == v.position.z
    ensures vdata[k + 3] == v.uv.x && vdata[k + 4] == v.uv.y
    ensures vdata[k + 5] == v.color.r && vdata[k + 6] == v.color.g && vdata[k + 7] == v.color.b
    ensures vdata[k + 8] == v.color.a
  {
    vdata[k + 0] := v.position.x;
    vdata[k + 1] := v.position.y;
    vdata[k + 2] := v.position.z;
    vdata[k + 3] := v.uv.x;
    vdata[k + 4] := v.uv.y;
    vdata[k + 5] := v.color.r;
    vdata[k + 6] := v.color.g;
    vdata[k + 7] := v.color.b;
    vdata[k + 8] := v.color.a;
  }

  /** The merge loop of `updateBuffer`: the batches of a queue whose first shape has
      a vertex, appended to `bs` (the first shape's batch at offset 0, then one step
      per shape, the last batch grown in place), and the queue's vertices. */
  method AppendBatches(bs: seq<Batch>, shapes: seq<Shape>) returns (batches: seq<Batch>, vertices: seq<Vertex>)
    requires shapes != [] && shapes[0].vertices != []
    ensures batches == bs + BatchesOf(shapes) && vertices == Vertices(shapes)
  {
    var first := shapes[0];
    vertices := first.vertices;
    batches := bs + [Batch(0, |first.vertices|, first.texture, first.primitive, first.blendMode,
                           first.vertices[0].position.z)];
    var offset := 0;
    var i := 1;
    ghost var run := Start(shapes);
    while i < |shapes|
      invariant 1 <= i <= |shapes| && RunAfter(run, shapes, i) == RunAfter(Start(shapes), shapes, 1)
      invariant batches == bs + Batches(run) && offset == run.last.offset
      invariant vertices + VerticesFrom(shapes, i) == Vertices(shapes)
    {
      var a := shapes[i];
      var b := shapes[i - 1];
      var za := if |a.vertices| == 0 then 0.0 else a.vertices[0].position.z;
      var zb := if |b.vertices| == 0 then 0.0 else b.vertices[0].position.z;
      if a.texture != b.texture || za != zb || a.primitive != b.primitive || a.blendMode != b.blendMode {
        offset := offset + batches[|batches| - 1].vertexCount;
        batches := batches + [Batch(offset, |a.vertices|, a.texture, a.primitive, a.blendMode, za)];
        OpenStep(bs, run, a, b);
      } else {
        var last := batches[|batches| - 1];
        batches := batches[|batches| - 1 := last.(vertexCount := last.vertexCount + |a.vertices|)];
        GrowStep(bs, run, a, b);
      }
      run := Step(run, a, b);
      AppendAssoc(vertices, a.vertices, VerticesFrom(shapes, i + 1));
      vertices := vertices + a.vertices;
      i := i + 1;
    }
  }

  /** A shape opening a batch appends it after the last one. */
  lemma OpenStep(bs: seq<Batch>, r: Run, a: Shape, prev: Shape)
    requires !SameKeys(a, prev)
    ensures bs + Batches(r) + [Batch(r.last.offset + r.last.vertexCount, |a.vertices|, a.texture, a.primitive,
                                     a.blendMode, ZOf(a))]
            == bs + Batches(Step(r, a, prev))
  {
    AppendAssoc(bs, Batches(r), [Opening(a, End(r.last))]);
  }

  /** A shape joining the last batch grows it where it stands. */
  lemma GrowStep(bs: seq<Batch>, r: Run, a: Shape, prev: Shape)
    requires SameKeys(a, prev)
    ensures var cs := bs + Batches(r);
            cs[|cs| - 1 := r.last.(vertexCount := r.last.vertexCount + |a.vertices|)] == bs + Batches(Step(r, a, prev))
  {
    UpdateLast(bs, Batches(r), Grow(r.last, |a.vertices|));
    assert Batches(r)[..|Batches(r)| - 1] == r.closed;
  }

  /** `gfx.Renderer`: the queue of shapes, the batches built by `end`, the capacity
      of the one vertex buffer, and the draw state sprites are built from. */
  class Renderer {
    var shapes: seq<Shape>
    var batches: seq<Batch>
    /** `_prevVBOSize`: how many floats the vertex buffer can hold. */
    var prevVBOSize: nat
    var state: RendererState
    const gl: Context
    /** `_vbo`. */
    const vbo: Handle

    /** Creates the vertex buffer, with an empty queue and the default state. */
    constructor (gl: Context)
      modifies gl
      ensures this.gl == gl && vbo == old(gl.nextHandle) && gl.nextHandle == vbo + 1
      ensures gl.log == old(gl.log) + [Created(BufferObject, vbo)]
      ensures state == DefaultState && shapes == [] && batches == [] && prevVBOSize == 0
    {
      state := DefaultState;
      var h := gl.Create(BufferObject);
      this.gl := gl;
      vbo := h;
      prevVBOSize := 0;
      shapes := [];
      batches := [];
    }

    /** `begin`: empties the queue and the batches. */
    method Begin()
      modifies this`shapes, this`batches
      ensures shapes == [] && batches == []
    {
      shapes := [];
      batches := [];
    }

    /** `submit`: queues the shape when there is one. */
    method Submit(shape: Option<Shape>)
      modifies this`shapes
      ensures shapes == old(shapes) + (if shape.Some? then [shape.value] else [])
    {
      if shape.Some? {
        shapes := shapes + [shape.value];
      }
    }

    /** `drawSprite`: with no texture, nothing; otherwise queues the state's quad over
        the whole texture, rotated by the state's rotation through `cos` and `sin`. */
    method DrawSprite(texture: Texture?, cos: real -> real, sin: real -> real)
      modifies this`shapes
      ensures texture == null ==> shapes == old(shapes)
      ensures texture != null ==>
                shapes == old(shapes) + [SpriteShape(state, texture, texture.width as real, texture.height as real,
                                                     cos(state.rotation), sin(state.rotation))]
      ensures texture != null && state.rotation == 0.0 && cos(0.0) == 1.0 && sin(0.0) == 0.0 ==>
                shapes == old(shapes) + [SpriteShape(state, texture, texture.width as real, texture.height as real, 1.0, 0.0)]
    {
      if texture == null {
        return;
      }
      var shape := SpriteShape(state, texture, texture.width as real, texture.height as real,
                               cos(state.rotation), sin(state.rotation));
      Submit(Some(shape));
    }

    /** `save`: hands back a copy of the state and starts from the default one. */
    method Save() returns (saved: RendererState)
      modifies this`state
      ensures saved == old(state) && state == DefaultState
    {
      saved := Copy(state);
      state := DefaultState;
    }

    /** `restore`: installs the given state. */
    method Restore(s: RendererState)
      modifies this`state
      ensures state == s
    {
      state := s;
    }

    method SetPosition(position: Vec3)
      modifies this`state
      ensures state == old(state).(position := position)
    {
      state := state.(position := position);
    }

    method SetScale(scale: Vec2)
      modifies this`state
      ensures state == old(state).(scale := scale)
    {
      state := state.(scale := scale);
    }

    method SetOrigin(origin: Vec2)
      modifies this`state
      ensures state == old(state).(origin := origin)
    {
      state := state.(origin := origin);
    }

    method SetUV(uv: Rect)
      modifies this`state
      ensures state == old(state).(uv := uv)
    {
      state := state.(uv := uv);
    }

    method SetColor(color: Color)
      modifies this`state
      ensures state == old(state).(color := color)
    {
      state := state.(color := color);
    }

    method SetRotation(rotation: real)
      modifies this`state
      ensures state == old(state).(rotation := rotation)
    {
      state := state.(rotation := rotation);
    }

    method SetBlendMode(blendMode: BlendMode)
      modifies this`state
      ensures state == old(state).(blendMode := blendMode)
    {
      state := state.(blendMode := blendMode);
    }

    /** `end`, that is `updateBuffer`: an empty queue changes nothing. Otherwise the
        queue is put in some order (the comparator orders nothing, so which one is the
        engine's); when the first shape then has no vertices, reading its first
        vertex's z throws before any batch is added. Otherwise the batches of the
        queue are appended, and its vertices uploaded. */
    method End() returns (crashed: bool)
      modifies this`shapes, this`batches, this`prevVBOSize, gl
      ensures multiset(shapes) == multiset(old(shapes)) && gl.nextHandle == old(gl.nextHandle)
      ensures crashed <==> shapes != [] && shapes[0].vertices == []
      ensures shapes == [] || crashed ==>
                batches == old(batches) && prevVBOSize == old(prevVBOSize) && gl.log == old(gl.log)
      ensures shapes != [] && !crashed ==>
                batches == old(batches) + BatchesOf(shapes)
                && gl.log == old(gl.log) + UploadCalls(vbo, old(prevVBOSize), VertexSize * |Vertices(shapes)|,
                                                       Flatten(Vertices(shapes)))
                && prevVBOSize == Max(old(prevVBOSize), VertexSize * |Vertices(shapes)|)
    {
      crashed := false;
      if |shapes| == 0 {
        return;
      }
      var sorted :| multiset(sorted) == multiset(shapes);
      shapes := sorted;
      var first := shapes[0];
      if |first.vertices| == 0 {
        crashed := true;
        return;
      }
      var vertices;
      batches, vertices := AppendBatches(batches, shapes);
      var vdata := FillVertexData(vertices);
      Upload(vdata);
    }

    /** The upload at the end of `updateBuffer`: the buffer is reallocated only when
        the data outgrows it, and the data is written at offset 0. */
    method Upload(vdata: array<real>)
      modifies this`prevVBOSize, gl
      ensures gl.log == old(gl.log) + UploadCalls(vbo, old(prevVBOSize), vdata.Length, vdata[..])
      ensures prevVBOSize == Max(old(prevVBOSize), vdata.Length) && gl.nextHandle == old(gl.nextHandle)
    {
      gl.Issue(BindArrayBuffer(Some(vbo)));
      var vboSize := vdata.Length;
      if vboSize > prevVBOSize {
        gl.Issue(BufferData(vboSize));
        prevVBOSize := vboSize;
      }
      gl.Issue(BufferSubData(0, vdata[..]));
      gl.Issue(BindArrayBuffer(None));
    }

    /** The batch sort of `renderGeometry`: some order of the batches by z, ties in
        an order left to the engine. */
    method SortBatchesByZ()
      modifies this`batches
      ensures multiset(batches) == multiset(old(batches)) && SortedByZ(batches)
    {
      SortByZSortsAndKeeps(batches);
      var sorted :| multiset(sorted) == multiset(batches) && SortedByZ(sorted);
      batches := sorted;
    }
  }
}
