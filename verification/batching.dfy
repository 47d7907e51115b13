/** What `Renderer.updateBuffer` (src/gfx/Renderer.ts) makes of a frame's queue of
    shapes: the batches it appends, the vertices it concatenates and the floats it
    uploads, as reference definitions with the properties the draw loop relies on. */
module Batching {
  import opened Geometry
  import opened Textures
  import opened Graphics

  /** The z a shape is merged by: its first vertex's, 0 when it has none. */
  function ZOf(s: Shape): real
  {
    if s.vertices == [] then 0.0 else s.vertices[0].position.z
  }

  /** A shape joins its predecessor's batch exactly when texture (by identity), z,
      primitive and blend mode all agree. */
  predicate SameKeys(a: Shape, b: Shape)
  {
    a.texture == b.texture && ZOf(a) == ZOf(b) && a.primitive == b.primitive && a.blendMode == b.blendMode
  }

  /** The batch a shape opens at `offset`, with the shape's own keys. */
  function Opening(s: Shape, offset: int): Batch
  {
    Batch(offset, |s.vertices|, s.texture, s.primitive, s.blendMode, ZOf(s))
  }

  /** Where a batch's vertices end. */
  function End(b: Batch): int
  {
    b.offset + b.vertexCount
  }

  /** The vertices of shapes `i` onwards, concatenated in queue order. */
  function VerticesFrom(shapes: seq<Shape>, i: nat): seq<Vertex>
    decreases |shapes| - i
  {
    if i >= |shapes| then [] else shapes[i].vertices + VerticesFrom(shapes, i + 1)
  }

  /** The vertices of the whole queue. */
  function Vertices(shapes: seq<Shape>): seq<Vertex>
  {
    VerticesFrom(shapes, 0)
  }

  /** A batch grown in place by `n` vertices. */
  function Grow(b: Batch, n: int): Batch
  {
    b.(vertexCount := b.vertexCount + n)
  }

  /** The batches built so far: the closed ones, and the last one, which the next
      shape may still grow in place. */
  datatype Run = Run(closed: seq<Batch>, last: Batch)

  function Batches(r: Run): (bs: seq<Batch>)
  {
    r.closed + [r.last]
  }

  /** What shape `a`, queued right after `prev`, does to the run: with the same keys
      as `prev` it grows the last batch by its vertex count; otherwise the last batch
      is closed and `a` opens one with its own keys where that one ends. */
  function Step(r: Run, a: Shape, prev: Shape): Run
  {
    if SameKeys(a, prev) then Run(r.closed, Grow(r.last, |a.vertices|))
    else Run(r.closed + [r.last], Opening(a, End(r.last)))
  }

  /** The run after shapes `i` onwards have each stepped it, every shape with the one
      before it as predecessor. */
  function RunAfter(r: Run, shapes: seq<Shape>, i: nat): Run
    requires 1 <= i
    decreases |shapes| - i
  {
    if i >= |shapes| then r else RunAfter(Step(r, shapes[i], shapes[i - 1]), shapes, i + 1)
  }

  /** The first shape's batch, at offset 0. */
  function Start(shapes: seq<Shape>): Run
    requires shapes != []
  {
    Run([], Opening(shapes[0], 0))
  }

  /** The batches `updateBuffer` appends for a non-empty queue: the first shape opens
      a batch at offset 0 and every later shape steps the run. */
  function BatchesOf(shapes: seq<Shape>): seq<Batch>
    requires shapes != []
  {
    Batches(RunAfter(Start(shapes), shapes, 1))
  }

  /** A shape with its predecessor's keys adds no batch and grows the last one by its
      vertex count; any other shape adds one batch, opened with its own keys at the
      end of the last one. */
  lemma MergeRule(r: Run, a: Shape, prev: Shape)
    ensures SameKeys(a, prev) ==>
              (|Batches(Step(r, a, prev))| == |Batches(r)|
               && Step(r, a, prev).last.vertexCount == r.last.vertexCount + |a.vertices|)
    ensures !SameKeys(a, prev) ==>
              (|Batches(Step(r, a, prev))| == |Batches(r)| + 1
               && Step(r, a, prev).last == Batch(End(r.last), |a.vertices|, a.texture, a.primitive, a.blendMode, ZOf(a)))
  {
  }

  /** How many of shapes `i` onwards have keys different from their predecessor's. */
  function BreaksFrom(shapes: seq<Shape>, i: nat): nat
    requires 1 <= i
    decreases |shapes| - i
  {
    if i >= |shapes| then 0
    else (if SameKeys(shapes[i], shapes[i - 1]) then 0 else 1) + BreaksFrom(shapes, i + 1)
  }

  lemma {:induction false} RunAfterCount(r: Run, shapes: seq<Shape>, i: nat)
    requires 1 <= i
    ensures |Batches(RunAfter(r, shapes, i))| == |Batches(r)| + BreaksFrom(shapes, i)
    decreases |shapes| - i
  {
    if i < |shapes| {
      RunAfterCount(Step(r, shapes[i], shapes[i - 1]), shapes, i + 1);
    }
  }

  /** One batch per run of shapes with equal keys: one for the first shape and one
      per shape whose keys differ from its predecessor's. */
  lemma BatchCount(shapes: seq<Shape>)
    requires shapes != []
    ensures |BatchesOf(shapes)| == 1 + BreaksFrom(shapes, 1)
  {
    RunAfterCount(Start(shapes), shapes, 1);
  }

  lemma StepKeepsFirst(r: Run, a: Shape, prev: Shape)
    ensures Batches(Step(r, a, prev))[0].offset == Batches(r)[0].offset
  {
    if !SameKeys(a, prev) {
      assert Batches(Step(r, a, prev)) == Batches(r) + [Opening(a, End(r.last))];
    }
  }

  lemma {:induction false} RunAfterKeepsFirst(r: Run, shapes: seq<Shape>, i: nat)
    requires 1 <= i
    ensures Batches(RunAfter(r, shapes, i))[0].offset == Batches(r)[0].offset
    decreases |shapes| - i
  {
    if i < |shapes| {
      StepKeepsFirst(r, shapes[i], shapes[i - 1]);
      RunAfterKeepsFirst(Step(r, shapes[i], shapes[i - 1]), shapes, i + 1);
    }
  }

  /** The first batch starts at offset 0. */
  lemma FirstBatchAtZero(shapes: seq<Shape>)
    requires shapes != []
    ensures BatchesOf(shapes)[0].offset == 0
  {
    RunAfterKeepsFirst(Start(shapes), shapes, 1);
  }

  /** Each batch starts where the one before it ends. */
  predicate Contiguous(bs: seq<Batch>)
  {
    forall j :: 0 < j < |bs| ==> bs[j].offset == End(bs[j - 1])
  }

  lemma StepKeepsContiguous(r: Run, a: Shape, prev: Shape)
    requires Contiguous(Batches(r))
    ensures Contiguous(Batches(Step(r, a, prev)))
  {
    var bs := Batches(r);
    if SameKeys(a, prev) {
      var cs := Batches(Step(r, a, prev));
      forall j | 0 < j < |cs|
        ensures cs[j].offset == End(cs[j - 1])
      {
        assert cs[j - 1] == bs[j - 1] && cs[j].offset == bs[j].offset;
      }
    } else {
      assert Batches(Step(r, a, prev)) == bs + [Opening(a, End(r.last))];
    }
  }

  lemma {:induction false} RunAfterKeepsContiguous(r: Run, shapes: seq<Shape>, i: nat)
    requires 1 <= i && Contiguous(Batches(r))
    ensures Contiguous(Batches(RunAfter(r, shapes, i)))
    decreases |shapes| - i
  {
    if i < |shapes| {
      StepKeepsContiguous(r, shapes[i], shapes[i - 1]);
      RunAfterKeepsContiguous(Step(r, shapes[i], shapes[i - 1]), shapes, i + 1);
    }
  }

  /** The batches are contiguous: each starts where the one before it ends. */
  lemma BatchesContiguous(shapes: seq<Shape>)
    requires shapes != []
    ensures Contiguous(BatchesOf(shapes))
  {
    RunAfterKeepsContiguous(Start(shapes), shapes, 1);
  }

  lemma {:induction false} RunAfterEnd(r: Run, shapes: seq<Shape>, i: nat)
    requires 1 <= i
    ensures End(RunAfter(r, shapes, i).last) == End(r.last) + |VerticesFrom(shapes, i)|
    decreases |shapes| - i
  {
    if i < |shapes| {
      RunAfterEnd(Step(r, shapes[i], shapes[i - 1]), shapes, i + 1);
    }
  }

  /** The last batch ends at the number of vertices queued. */
  lemma BatchesCoverVertices(shapes: seq<Shape>)
    requires shapes != []
    ensures var bs := BatchesOf(shapes); End(bs[|bs| - 1]) == |Vertices(shapes)|
  {
    RunAfterEnd(Start(shapes), shapes, 1);
  }

  /** A batch carrying a shape's keys. */
  predicate Carries(b: Batch, s: Shape)
  {
    b.texture == s.texture && b.z == ZOf(s) && b.primitive == s.primitive && b.blendMode == s.blendMode
  }

  lemma {:induction false} RunAfterLastKeys(r: Run, shapes: seq<Shape>, i: nat)
    requires 1 <= i <= |shapes| && Carries(r.last, shapes[i - 1])
    ensures Carries(RunAfter(r, shapes, i).last, shapes[|shapes| - 1])
    decreases |shapes| - i
  {
    if i < |shapes| {
      RunAfterLastKeys(Step(r, shapes[i], shapes[i - 1]), shapes, i + 1);
    }
  }

  /** The last batch carries the keys of the last shape. */
  lemma LastBatchKeys(shapes: seq<Shape>)
    requires shapes != []
    ensures var bs := BatchesOf(shapes); Carries(bs[|bs| - 1], shapes[|shapes| - 1])
  {
    RunAfterLastKeys(Start(shapes), shapes, 1);
  }

  /** How many vertices the shapes before `i` queue. */
  function VerticesBefore(shapes: seq<Shape>, i: nat): nat
    requires i <= |shapes|
  {
    if i == 0 then 0 else VerticesBefore(shapes, i - 1) + |shapes[i - 1].vertices|
  }

  /** The index of the batch shape `i` lands in: one more than its predecessor's when
      their keys differ, the same otherwise. */
  function BatchIndex(shapes: seq<Shape>, i: nat): nat
    requires i < |shapes|
  {
    if i == 0 then 0
    else BatchIndex(shapes, i - 1) + (if SameKeys(shapes[i], shapes[i - 1]) then 0 else 1)
  }

  /** Batch `b` holds the vertices of shape `k`, where the queue puts them, and carries
      the shape's keys. */
  predicate Covers(b: Batch, shapes: seq<Shape>, k: nat)
    requires k < |shapes|
  {
    b.offset <= VerticesBefore(shapes, k)
    && VerticesBefore(shapes, k) + |shapes[k].vertices| <= End(b)
    && Carries(b, shapes[k])
  }

  /** The run after shapes `0` to `i - 1`: its last batch is that of shape `i - 1`, ends
      where their vertices end and carries its keys, and every shape so far is covered
      by the batch of its index. */
  predicate Placed(r: Run, shapes: seq<Shape>, i: nat)
    requires 1 <= i <= |shapes|
  {
    |Batches(r)| == BatchIndex(shapes, i - 1) + 1
    && End(r.last) == VerticesBefore(shapes, i)
    && Carries(r.last, shapes[i - 1])
    && forall k :: 0 <= k < i ==>
         BatchIndex(shapes, k) < |Batches(r)| && Covers(Batches(r)[BatchIndex(shapes, k)], shapes, k)
  }

  lemma StartPlaced(shapes: seq<Shape>)
    requires shapes != []
    ensures Placed(Start(shapes), shapes, 1)
  {
    assert Batches(Start(shapes))[BatchIndex(shapes, 0)] == Opening(shapes[0], 0);
  }

  lemma StepPlaced(r: Run, shapes: seq<Shape>, i: nat)
    requires 1 <= i < |shapes| && Placed(r, shapes, i)
    ensures Placed(Step(r, shapes[i], shapes[i - 1]), shapes, i + 1)
  {
    var bs := Batches(r);
    var r' := Step(r, shapes[i], shapes[i - 1]);
    var cs := Batches(r');
    var n := |bs| - 1;
    assert bs[n] == r.last;
    if SameKeys(shapes[i], shapes[i - 1]) {
      assert |cs| == |bs| && cs[n] == r'.last;
      forall k | 0 <= k < i + 1
        ensures BatchIndex(shapes, k) < |cs| && Covers(cs[BatchIndex(shapes, k)], shapes, k)
      {
        if k == i {
          assert Covers(bs[n], shapes, i - 1);
        } else if BatchIndex(shapes, k) < n {
          assert cs[BatchIndex(shapes, k)] == bs[BatchIndex(shapes, k)];
        } else {
          assert Covers(bs[n], shapes, k);
        }
      }
    } else {
      assert cs == bs + [r'.last];
      forall k | 0 <= k < i + 1
        ensures BatchIndex(shapes, k) < |cs| && Covers(cs[BatchIndex(shapes, k)], shapes, k)
      {
        if k < i {
          assert cs[BatchIndex(shapes, k)] == bs[BatchIndex(shapes, k)];
        }
      }
    }
  }

  lemma {:induction false} RunAfterPlaced(r: Run, shapes: seq<Shape>, i: nat)
    requires 1 <= i <= |shapes| && Placed(r, shapes, i)
    ensures Placed(RunAfter(r, shapes, i), shapes, |shapes|)
    decreases |shapes| - i
  {
    if i < |shapes| {
      StepPlaced(r, shapes, i);
      RunAfterPlaced(Step(r, shapes[i], shapes[i - 1]), shapes, i + 1);
    }
  }

  /** Every shape's vertices lie inside the batch of its index, which carries the shape's
      keys; the last shape's batch is the last batch. */
  lemma EveryShapeInItsBatch(shapes: seq<Shape>)
    requires shapes != []
    ensures |BatchesOf(shapes)| == BatchIndex(shapes, |shapes| - 1) + 1
    ensures forall k :: 0 <= k < |shapes| ==>
              BatchIndex(shapes, k) < |BatchesOf(shapes)| && Covers(BatchesOf(shapes)[BatchIndex(shapes, k)], shapes, k)
  {
    StartPlaced(shapes);
    RunAfterPlaced(Start(shapes), shapes, 1);
  }

  lemma {:induction false} ShapeSliceFrom(shapes: seq<Shape>, j: nat, k: nat)
    requires j <= k < |shapes|
    ensures var o := VerticesBefore(shapes, k) - VerticesBefore(shapes, j);
      0 <= o && o + |shapes[k].vertices| <= |VerticesFrom(shapes, j)|
      && VerticesFrom(shapes, j)[o..o + |shapes[k].vertices|] == shapes[k].vertices
    decreases k - j
  {
    var x := shapes[j].vertices;
    var y := VerticesFrom(shapes, j + 1);
    assert VerticesFrom(shapes, j) == x + y;
    if j == k {
      assert (x + y)[0..|x|] == x;
    } else {
      ShapeSliceFrom(shapes, j + 1, k);
      VerticesBeforeGrows(shapes, j + 1, k);
      var o := VerticesBefore(shapes, k) - VerticesBefore(shapes, j + 1);
      var m := |shapes[k].vertices|;
      assert (x + y)[|x| + o..|x| + o + m] == y[o..o + m];
    }
  }

  lemma {:induction false} VerticesBeforeGrows(shapes: seq<Shape>, j: nat, k: nat)
    requires j <= k <= |shapes|
    ensures VerticesBefore(shapes, j) <= VerticesBefore(shapes, k)
    decreases k - j
  {
    if j < k {
      VerticesBeforeGrows(shapes, j, k - 1);
    }
  }

  /** Shape `k`'s vertices sit in the queue's vertices from `VerticesBefore(shapes, k)` on. */
  lemma ShapeVertices(shapes: seq<Shape>, k: nat)
    requires k < |shapes|
    ensures VerticesBefore(shapes, k) + |shapes[k].vertices| <= |Vertices(shapes)|
    ensures Vertices(shapes)[VerticesBefore(shapes, k)..VerticesBefore(shapes, k) + |shapes[k].vertices|] == shapes[k].vertices
  {
    ShapeSliceFrom(shapes, 0, k);
    var o := VerticesBefore(shapes, k);
    assert o - VerticesBefore(shapes, 0) == o;
    assert Vertices(shapes) == VerticesFrom(shapes, 0);
  }

  /** The vertex counts of the batches, summed. */
  function SumCounts(bs: seq<Batch>): int
  {
    if bs == [] then 0 else SumCounts(bs[..|bs| - 1]) + bs[|bs| - 1].vertexCount
  }

  lemma SumCountsSnoc(bs: seq<Batch>, b: Batch)
    ensures SumCounts(bs + [b]) == SumCounts(bs) + b.vertexCount
  {
    assert (bs + [b])[..|bs|] == bs;
  }

  lemma StepSumCounts(r: Run, a: Shape, prev: Shape)
    ensures SumCounts(Batches(Step(r, a, prev))) == SumCounts(Batches(r)) + |a.vertices|
  {
    SumCountsSnoc(r.closed, r.last);
    if SameKeys(a, prev) {
      SumCountsSnoc(r.closed, Grow(r.last, |a.vertices|));
    } else {
      SumCountsSnoc(Batches(r), Opening(a, End(r.last)));
    }
  }

  lemma {:induction false} RunAfterSumCounts(r: Run, shapes: seq<Shape>, i: nat)
    requires 1 <= i
    ensures SumCounts(Batches(RunAfter(r, shapes, i))) == SumCounts(Batches(r)) + |VerticesFrom(shapes, i)|
    decreases |shapes| - i
  {
    if i < |shapes| {
      StepSumCounts(r, shapes[i], shapes[i - 1]);
      RunAfterSumCounts(Step(r, shapes[i], shapes[i - 1]), shapes, i + 1);
    }
  }

  /** The batches' counts add up to the number of vertices queued. */
  lemma CountsSumToVertices(shapes: seq<Shape>)
    requires shapes != []
    ensures SumCounts(BatchesOf(shapes)) == |Vertices(shapes)|
  {
    SumCountsSnoc([], Opening(shapes[0], 0));
    RunAfterSumCounts(Start(shapes), shapes, 1);
  }

  /** The comparator `updateBuffer` sorts shapes with: 0 when either texture is
      missing, otherwise the result of comparing the first shape's texture with
      itself. */
  function ShapeComparator(a: Shape, b: Shape): int
  {
    if a.texture == null || b.texture == null then 0
    else if a.texture != a.texture then -1 else 1
  }

  /** It never says "before": every pair of textured shapes compares greater both
      ways round, so it orders nothing and the order the sort leaves is the
      engine's. */
  lemma ShapeComparatorOrdersNothing(a: Shape, b: Shape)
    ensures ShapeComparator(a, b) >= 0
    ensures ShapeComparator(a, b) == 0 <==> a.texture == null || b.texture == null
    ensures ShapeComparator(a, b) == ShapeComparator(b, a)
  {
  }

  /** The comparator `renderGeometry` sorts batches with. */
  function ZComparator(a: Batch, b: Batch): int
  {
    if a.z < b.z then -1 else 1
  }

  /** It never answers "equal": batches at the same z compare greater both ways
      round, so their relative order is the engine's. */
  lemma ZComparatorNeverEqual(a: Batch, b: Batch)
    ensures ZComparator(a, b) != 0
    ensures ZComparator(a, b) < 0 <==> a.z < b.z
    ensures ZComparator(a, b) > 0 && ZComparator(b, a) > 0 <==> a.z == b.z
  {
  }

  predicate SortedByZ(bs: seq<Batch>)
  {
    forall i, j :: 0 <= i < j < |bs| ==> bs[i].z <= bs[j].z
  }

  /** `b` placed before the first batch of `bs` whose z is not below its own. */
  function InsertByZ(b: Batch, bs: seq<Batch>): seq<Batch>
  {
    if bs == [] || b.z <= bs[0].z then [b] + bs else [bs[0]] + InsertByZ(b, bs[1..])
  }

  /** One order the z sort may produce: insertion sort, stable. */
  function SortByZ(bs: seq<Batch>): seq<Batch>
  {
    if bs == [] then [] else InsertByZ(bs[0], SortByZ(bs[1..]))
  }

  lemma {:induction false} InsertByZKeeps(b: Batch, bs: seq<Batch>)
    ensures multiset(InsertByZ(b, bs)) == multiset(bs) + multiset{b}
  {
    if bs != [] && b.z > bs[0].z {
      InsertByZKeeps(b, bs[1..]);
      assert bs == [bs[0]] + bs[1..];
    }
  }

  lemma {:induction false} InsertByZSorted(b: Batch, bs: seq<Batch>)
    requires SortedByZ(bs)
    ensures SortedByZ(InsertByZ(b, bs))
  {
    if bs != [] && b.z > bs[0].z {
      InsertByZSorted(b, bs[1..]);
      InsertByZKeeps(b, bs[1..]);
      var r := InsertByZ(b, bs[1..]);
      forall x: Batch | x in multiset(r)
        ensures bs[0].z <= x.z
      {
        assert x in multiset(bs[1..]) + multiset{b};
        if x in multiset(bs[1..]) {
          var k :| 0 <= k < |bs[1..]| && bs[1..][k] == x;
          assert bs[k + 1] == x;
        }
      }
      forall i, j | 0 <= i < j < |[bs[0]] + r|
        ensures ([bs[0]] + r)[i].z <= ([bs[0]] + r)[j].z
      {
        if i == 0 {
          assert r[j - 1] in multiset(r);
        }
      }
    }
  }

  /** The batches sorted by z and nothing lost or added. */
  lemma {:induction false} SortByZSortsAndKeeps(bs: seq<Batch>)
    ensures SortedByZ(SortByZ(bs)) && multiset(SortByZ(bs)) == multiset(bs)
  {
    if bs != [] {
      SortByZSortsAndKeeps(bs[1..]);
      InsertByZSorted(bs[0], SortByZ(bs[1..]));
      InsertByZKeeps(bs[0], SortByZ(bs[1..]));
      assert bs == [bs[0]] + bs[1..];
    }
  }

  /** Float `k` of a vertex's 36 in the buffer: position, texture coordinates and
      colour in slots 0 to 8, zero in the rest. */
  function Slot(v: Vertex, k: nat): real
  {
    if k == 0 then v.position.x else if k == 1 then v.position.y else if k == 2 then v.position.z
    else if k == 3 then v.uv.x else if k == 4 then v.uv.y
    else if k == 5 then v.color.r else if k == 6 then v.color.g else if k == 7 then v.color.b
    else if k == 8 then v.color.a
    else 0.0
  }

  /** The floats of one vertex. */
  function Layout(v: Vertex): (r: seq<real>)
    ensures |r| == VertexSize
    ensures forall k :: 0 <= k < VertexSize ==> r[k] == Slot(v, k)
  {
    seq(VertexSize, k requires 0 <= k => Slot(v, k))
  }

  /** The floats of a vertex list, `VertexSize` per vertex in order. */
  function Flatten(vs: seq<Vertex>): (r: seq<real>)
    ensures |r| == VertexSize * |vs|
  {
    if vs == [] then [] else Flatten(vs[..|vs| - 1]) + Layout(vs[|vs| - 1])
  }

  lemma FlattenSnoc(vs: seq<Vertex>, i: nat)
    requires i < |vs|
    ensures Flatten(vs[..i + 1]) == Flatten(vs[..i]) + Layout(vs[i])
  {
    assert vs[..i + 1][..i] == vs[..i];
  }

  /** Vertex `i`'s float `k` sits at `36 i + k`. */
  lemma {:induction false} FlattenAt(vs: seq<Vertex>, i: nat, k: nat)
    requires i < |vs| && k < VertexSize
    ensures Flatten(vs)[VertexSize * i + k] == Slot(vs[i], k)
    decreases |vs|
  {
    var init := vs[..|vs| - 1];
    if i < |vs| - 1 {
      FlattenAt(init, i, k);
    }
  }
}
