/** The legacy canvas engine in xd.js: the box overlap test, the tile-map grid,
    the animated sprite's frame stepper and the entity life countdown. */
module Legacy {
  import opened Js

  // ---------------------------------------------------------------- Math.over

  /** A box `[x, y, w, h]`, as the colliders pass them. */
  datatype Box = Box(x: real, y: real, w: real, h: real)

  /** `Math.over(a, b)`: the boxes overlap, strictly, on both axes. */
  predicate Over(a: Box, b: Box)
  {
    a.x < b.x + b.w && a.x + a.w > b.x && a.y < b.y + b.h && a.y + a.h > b.y
  }

  /** The point `(px, py)` lies strictly inside `a`. */
  predicate Inside(px: real, py: real, a: Box)
  {
    a.x < px < a.x + a.w && a.y < py < a.y + a.h
  }

  /** The test does not depend on the order of its arguments. */
  lemma OverSymmetric(a: Box, b: Box)
    ensures Over(a, b) <==> Over(b, a)
  {
  }

  /** Boxes that only share an edge do not overlap. */
  lemma TouchingBoxesDoNotOverlap(a: Box, b: Box)
    requires a.x + a.w == b.x || b.x + b.w == a.x || a.y + a.h == b.y || b.y + b.h == a.y
    ensures !Over(a, b)
  {
  }

  /** For boxes of positive size, the test holds exactly when some point lies
      strictly inside both. */
  lemma OverIffCommonPoint(a: Box, b: Box)
    requires a.w > 0.0 && a.h > 0.0 && b.w > 0.0 && b.h > 0.0
    ensures Over(a, b) <==> exists px, py :: Inside(px, py, a) && Inside(px, py, b)
  {
    if Over(a, b) {
      var lx := if a.x < b.x then b.x else a.x;
      var hx := if a.x + a.w < b.x + b.w then a.x + a.w else b.x + b.w;
      var ly := if a.y < b.y then b.y else a.y;
      var hy := if a.y + a.h < b.y + b.h then a.y + a.h else b.y + b.h;
      assert Inside((lx + hx) / 2.0, (ly + hy) / 2.0, a) && Inside((lx + hx) / 2.0, (ly + hy) / 2.0, b);
    }
  }

  // ------------------------------------------------------- util.matrix, TileMap

  /** A slot of a JavaScript array: a hole, or the tile index put there. */
  datatype Cell = Hole | Index(k: int)

  /** `util.matrix(w, h)`: `h` rows, each an array of `w` holes. */
  method Matrix(w: nat, h: nat) returns (m: seq<seq<Cell>>)
    ensures |m| == h
    ensures forall i :: 0 <= i < h ==> |m[i]| == w
    ensures forall i, j :: 0 <= i < h && 0 <= j < |m[i]| ==> m[i][j] == Hole
  {
    m := seq(h, _ => []);
    var i := 0;
    while i < h
      invariant 0 <= i <= h && |m| == h
      invariant forall r :: 0 <= r < i ==> |m[r]| == w
      invariant forall r, j :: 0 <= r < i && 0 <= j < |m[r]| ==> m[r][j] == Hole
    {
      m := m[i := seq(w, _ => Hole)];
      i := i + 1;
    }
  }

  /** `row[x] = v` on a JavaScript array: a negative index sets a property and
      leaves the elements alone; an index past the end grows the array, with holes
      in between. */
  function SetAt(row: seq<Cell>, x: int, v: Cell): (r: seq<Cell>)
    ensures x < 0 ==> r == row
    ensures 0 <= x ==> |r| == (if x < |row| then |row| else x + 1) && r[x] == v
    ensures forall j :: 0 <= j < |row| && j != x ==> r[j] == row[j]
    ensures forall j :: |row| <= j < |r| && j != x ==> r[j] == Hole
  {
    if x < 0 then row
    else if x < |row| then row[x := v]
    else row + seq(x - |row|, _ => Hole) + [v]
  }

  /** xd.js `TileMap`: the grid of tile indices and its dimensions. Before
      `setup` or `setMap` the grid is null; here it has no rows, which fails the
      same way. */
  class TileMap {
    var tiles: seq<seq<Cell>>
    var mapWidth: int
    var mapHeight: int
    var rows: int
    var cols: int

    /** `new TileMap(img)`: no grid and all dimensions 0. */
    constructor ()
      ensures tiles == [] && mapWidth == 0 && mapHeight == 0 && rows == 0 && cols == 0
    {
      tiles := [];
      mapWidth, mapHeight, rows, cols := 0, 0, 0, 0;
    }

    /** `setup(mapW, mapH, rows, cols)`: records the dimensions and a grid of
        `mapH` rows of `mapW` holes. */
    method Setup(mapW: nat, mapH: nat, rows: int, cols: int)
      modifies this
      ensures mapWidth == mapW && mapHeight == mapH && this.rows == rows && this.cols == cols
      ensures |tiles| == mapH
      ensures forall i :: 0 <= i < mapH ==> |tiles[i]| == mapW
      ensures forall i, j :: 0 <= i < mapH && 0 <= j < |tiles[i]| ==> tiles[i][j] == Hole
    {
      mapWidth := mapW;
      mapHeight := mapH;
      this.rows := rows;
      this.cols := cols;
      tiles := Matrix(mapW, mapH);
    }

    /** `setMap(map, rows, cols)`: adopts the given grid; its width is the length of
        its first row. A grid with no rows fails before anything changes. */
    method SetMap(m: seq<seq<Cell>>, rows: int, cols: int) returns (crashed: bool)
      modifies this
      ensures crashed <==> |m| == 0
      ensures crashed ==> unchanged(this)
      ensures !crashed ==>
                tiles == m && mapWidth == |m[0]| && mapHeight == |m| && this.rows == rows && this.cols == cols
    {
      if |m| == 0 {
        return true;
      }
      mapWidth := |m[0]|;
      mapHeight := |m|;
      this.rows := rows;
      this.cols := cols;
      tiles := m;
      crashed := false;
    }

    /** `put(x, y, index)`: writes the tile at column `x` of row `y`; a row that
        does not exist fails. */
    method Put(x: int, y: int, index: int) returns (crashed: bool)
      modifies this`tiles
      ensures crashed <==> !(0 <= y < |old(tiles)|)
      ensures crashed ==> tiles == old(tiles)
      ensures !crashed ==> tiles == old(tiles)[y := SetAt(old(tiles)[y], x, Index(index))]
    {
      if !(0 <= y < |tiles|) {
        return true;
      }
      tiles := tiles[y := SetAt(tiles[y], x, Index(index))];
      crashed := false;
    }
  }

  /** A write at `(x, y)` into a grid leaves every other cell of it as it was and
      puts the index at `(x, y)`. */
  lemma PutChangesOneCell(m: seq<seq<Cell>>, x: int, y: int, index: int)
    requires 0 <= y < |m|
    ensures var r := m[y := SetAt(m[y], x, Index(index))];
            |r| == |m|
            && (0 <= x ==> r[y][x] == Index(index))
            && (0 <= x < |m[y]| ==> |r[y]| == |m[y]|)
            && forall i, j :: 0 <= i < |m| && 0 <= j < |m[i]| && (i, j) != (y, x) ==> r[i][j] == m[i][j]
  {
    var r := m[y := SetAt(m[y], x, Index(index))];
    forall i, j | 0 <= i < |m| && 0 <= j < |m[i]| && (i, j) != (y, x)
      ensures r[i][j] == m[i][j]
    {
      if i == y {
        assert j != x;
      }
    }
  }

  // ------------------------------------------------------------ AnimatedSprite

  /** An animation record: its speed, whether it loops, its frame list, and the
      time and frame index it has reached. */
  datatype Anim = Anim(speed: real, loop: bool, frames: seq<int>, time: real, index: int)

  /** The sprite's `region` `[x, y, w, h]`, or one holding a non-finite number
      (a division by a zero sheet dimension, or a frame read past the list). */
  datatype Region = Region(x: real, y: real, w: real, h: real) | NonFinite

  /** JavaScript's `%` on integers: the remainder has the sign of the dividend
      and is smaller in size than the divisor. */
  function Rem(a: int, b: int): (r: int)
    requires b != 0
    ensures (if a >= 0 then 0 <= r else r <= 0) && -Abs(b) < r < Abs(b)
  {
    if a >= 0 then a % Abs(b) else -((-a) % Abs(b))
  }

  function Abs(b: int): int
  {
    if b < 0 then -b else b
  }

  /** Negating the dividend negates the remainder; the divisor's sign does not
      matter; and on a natural dividend and a positive divisor it is Dafny's `%`. */
  lemma RemSigns(a: int, b: int)
    requires b != 0
    ensures Rem(-a, b) == -Rem(a, b) && Rem(a, -b) == Rem(a, b)
    ensures a >= 0 && b > 0 ==> Rem(a, b) == a % b
  {
    assert Abs(-b) == Abs(b);
    if a == 0 {
      DivModUnique(0, Abs(b), 0, 0);
    }
  }

  /** Integer division and remainder are the unique quotient and remainder. */
  lemma DivModUnique(x: int, len: int, q: int, r: int)
    requires len > 0 && x == q * len + r && 0 <= r < len
    ensures x / len == q && x % len == r
  {
    var q', r' := x / len, x % len;
    assert (q - q') * len == r' - r;
    if q > q' {
      MulAtLeast(q - q', len);
    } else if q < q' {
      MulAtLeast(q' - q, len);
    }
  }

  lemma MulAtLeast(d: int, len: int)
    requires d >= 1 && len > 0
    ensures d * len >= len
  {
    assert d * len == (d - 1) * len + len;
    assert (d - 1) * len >= 0;
  }

  /** For a positive divisor, real division rounded down is integer division. */
  lemma FloorDivision(a: int, c: int)
    requires c > 0
    ensures (a as real / c as real).Floor == a / c
  {
    var q, r := a / c, a % c;
    assert (a as real) == (q as real) * (c as real) + (r as real);
    assert (a as real / c as real) == (q as real) + (r as real) / (c as real);
    assert 0.0 <= (r as real) / (c as real) < 1.0;
  }

  /** The frame count `update` wraps at: the frame list's length, or the number
      of cells of the sheet (`cols * rows`) when the list is empty. */
  function FrameCount(a: Anim, cols: int, rows: int): int
  {
    if |a.frames| == 0 then cols * rows else |a.frames|
  }

  /** The record after one `update(dt)`: the time grows by `dt`; once it reaches
      the speed it drops to 0 and the index moves on, wrapping to 0 past the last
      frame when the animation loops and staying on the last one otherwise. */
  function Advance(a: Anim, dt: real, len: int): (r: Anim)
    ensures r.speed == a.speed && r.loop == a.loop && r.frames == a.frames
    ensures a.time + dt < a.speed ==> r.time == a.time + dt && r.index == a.index
    ensures a.time + dt >= a.speed ==> r.time == 0.0
  {
    var t := a.time + dt;
    if t >= a.speed then
      a.(time := 0.0, index := if a.index >= len - 1 then (if a.loop then 0 else len - 1) else a.index + 1)
    else
      a.(time := t)
  }

  /** An index within the frames stays within them. */
  lemma AdvanceStaysInRange(a: Anim, dt: real, len: int)
    requires 0 <= a.index < len
    ensures 0 <= Advance(a, dt, len).index < len
  {
  }

  /** `n` updates of `dt` each. */
  function AdvanceN(a: Anim, dt: real, len: int, n: nat): Anim
    decreases n
  {
    if n == 0 then a else AdvanceN(Advance(a, dt, len), dt, len, n - 1)
  }

  /** When every update reaches the speed, a looping animation shows frame
      `(index + n) % len` after `n` updates. */
  lemma {:induction false} LoopingCycles(a: Anim, dt: real, len: int, n: nat)
    requires a.loop && 0 <= a.index < len && a.time + dt >= a.speed && dt >= a.speed
    ensures AdvanceN(a, dt, len, n).index == (a.index + n) % len
    decreases n
  {
    if n > 0 {
      var b := Advance(a, dt, len);
      assert b.index == (a.index + 1) % len;
      LoopingCycles(b, dt, len, n - 1);
      assert (b.index + (n - 1)) % len == (a.index + n) % len by {
        ModShift(a.index, n - 1, len);
      }
    } else {
      assert a.index % len == a.index;
    }
  }

  lemma ModShift(i: int, k: nat, len: int)
    requires 0 <= i < len
    ensures ((i + 1) % len + k) % len == (i + 1 + k) % len
  {
    if i + 1 == len {
      DivModUnique(len, len, 1, 0);
      var q, r := k / len, k % len;
      assert k == q * len + r;
      assert i + 1 + k == (q + 1) * len + r;
      DivModUnique(i + 1 + k, len, q + 1, r);
    } else {
      DivModUnique(i + 1, len, 0, i + 1);
    }
  }

  /** When every update reaches the speed, an animation that does not loop shows
      frame `index + n` after `n` updates until it reaches the last, and then stays
      on it. */
  lemma {:induction false} OnceStops(a: Anim, dt: real, len: int, n: nat)
    requires !a.loop && 0 <= a.index < len && a.time + dt >= a.speed && dt >= a.speed
    ensures AdvanceN(a, dt, len, n).index == (if a.index + n < len then a.index + n else len - 1)
    decreases n
  {
    if n > 0 {
      OnceStops(Advance(a, dt, len), dt, len, n - 1);
    }
  }

  /** The frame `update` shows: the entry of the frame list at the index, or the
      index itself when the list is empty; an index past the list reads
      `undefined`. */
  function FrameIndex(a: Anim): Option<int>
  {
    if |a.frames| > 0 then (if 0 <= a.index < |a.frames| then Some(a.frames[a.index]) else None)
    else Some(a.index)
  }

  /** The region of cell `i` of a sheet `cols` cells wide and `rows` high. */
  function RegionOf(i: Option<int>, cols: int, rows: int): Region
  {
    if i.None? || cols == 0 || rows == 0 then NonFinite
    else
      var w := 1.0 / cols as real;
      var h := 1.0 / rows as real;
      Region(Rem(i.value, cols) as real * w, (i.value as real / cols as real).Floor as real * h, w, h)
  }

  /** A cell of the sheet gives a region inside the unit square: column `i % cols`
      and row `i / cols`, one cell wide and high. */
  lemma RegionInSheet(i: int, cols: int, rows: int)
    requires cols > 0 && rows > 0 && 0 <= i < cols * rows
    ensures var r := RegionOf(Some(i), cols, rows);
            r == Region((i % cols) as real / cols as real, (i / cols) as real / rows as real,
                        1.0 / cols as real, 1.0 / rows as real)
            && 0.0 <= r.x && r.x + r.w <= 1.0 && 0.0 <= r.y && r.y + r.h <= 1.0
  {
    FloorDivision(i, cols);
    RemSigns(i, cols);
    var c, q := i % cols, i / cols;
    assert q < rows by {
      if q >= rows {
        MulAtLeast(q - rows + 1, cols);
      }
    }
    Fraction(c, cols);
    Fraction(q, rows);
  }

  /** Cell `k` of `n` spans `[k / n, (k + 1) / n]`, inside the unit interval. */
  lemma Fraction(k: int, n: int)
    requires 0 <= k < n
    ensures k as real * (1.0 / n as real) == k as real / n as real
    ensures 0.0 <= k as real / n as real && k as real / n as real + 1.0 / n as real <= 1.0
  {
    assert k as real / n as real + 1.0 / n as real == (k + 1) as real / n as real;
    assert (k + 1) as real <= n as real;
  }

  /** xd.js `AnimatedSprite`: its animations by name, the current one, the sheet
      layout `conf = [cols, rows]` and the region last shown. */
  class AnimatedSprite {
    var animations: map<string, Anim>
    var animation: string
    var cols: int
    var rows: int
    var region: Region

    /** The current animation, when there is one, is registered. */
    predicate Valid()
      reads this
    {
      animation == "" || animation in animations
    }

    /** `new AnimatedSprite(img)`: no animations, a 0 by 0 sheet and the whole
        image as the region. */
    constructor ()
      ensures animations == map[] && animation == "" && cols == 0 && rows == 0
      ensures region == Region(0.0, 0.0, 1.0, 1.0)
      ensures Valid()
    {
      animations := map[];
      animation := "";
      cols, rows := 0, 0;
      region := Region(0.0, 0.0, 1.0, 1.0);
    }

    /** `setup(rows, cols)`: stores `conf = [cols, rows]`. */
    method Setup(rows: int, cols: int)
      modifies this`cols, this`rows
      ensures this.cols == cols && this.rows == rows
    {
      this.cols := cols;
      this.rows := rows;
    }

    /** `addAnim(name, speed, loop, frames)`: registers the animation at time 0 and
        index 0, with no frames when none are given; only the first animation
        added becomes the current one. */
    method AddAnim(name: string, speed: real, loop: bool, frames: Option<seq<int>>)
      modifies this`animations, this`animation
      ensures animations == old(animations)[name := Anim(speed, loop, if frames.Some? then frames.value else [], 0.0, 0)]
      ensures animation == if old(animation) == "" then name else old(animation)
      ensures old(Valid()) ==> Valid()
    {
      animations := animations[name := Anim(speed, loop, if frames.Some? then frames.value else [], 0.0, 0)];
      animation := if animation == "" then name else animation;
    }

    /** `update(dt)`: with no current animation, nothing. Otherwise advances the
        current animation and shows its frame. A current name with no record
        fails before anything changes. */
    method Update(dt: real) returns (crashed: bool)
      modifies this`animations, this`region
      ensures crashed <==> animation != "" && animation !in old(animations)
      ensures old(Valid()) ==> !crashed && Valid()
      ensures animation == "" || crashed ==> animations == old(animations) && region == old(region)
      ensures animation != "" && !crashed ==>
                var a := Advance(old(animations)[animation], dt, FrameCount(old(animations)[animation], cols, rows));
                animations == old(animations)[animation := a] && region == RegionOf(FrameIndex(a), cols, rows)
    {
      crashed := false;
      if animation != "" {
        if animation !in animations {
          return true;
        }
        var a := animations[animation];
        a := a.(time := a.time + dt);
        if a.time >= a.speed {
          a := a.(time := 0.0);
          var len := if |a.frames| == 0 then cols * rows else |a.frames|;
          var last := a.index;
          a := a.(index := a.index + 1);
          if last >= len - 1 {
            a := a.(index := if a.loop then 0 else len - 1);
          }
        }
        animations := animations[animation := a];
        region := RegionOf(FrameIndex(a), cols, rows);
      }
    }
  }

  // -------------------------------------------------------------- Entity life

  /** A component of the legacy engine; only its `active` flag matters here. */
  class Part {
    var active: bool

    /** `new Component()`: active. */
    constructor ()
      ensures active
    {
      active := true;
    }
  }

  /** The active parts among `cs`, in order. */
  function ActiveParts(cs: seq<Part>): seq<Part>
    reads set c | c in cs
  {
    if cs == [] then [] else ActiveParts(cs[..|cs| - 1]) + (if cs[|cs| - 1].active then [cs[|cs| - 1]] else [])
  }

  /** The active parts are exactly the parts that are active. */
  lemma {:induction false} ActivePartsExactly(cs: seq<Part>, c: Part)
    ensures c in ActiveParts(cs) <==> c in cs && c.active
    decreases |cs|
  {
    if cs != [] {
      ActivePartsExactly(cs[..|cs| - 1], c);
      assert cs == cs[..|cs| - 1] + [cs[|cs| - 1]];
    }
  }

  /** The life and dead flag after one `update(dt)`: a life above -1 counts down
      while positive and marks the entity dead once it is at most 0; a life of -1
      or below changes nothing. */
  function Countdown(life: real, dead: bool, dt: real): (r: (real, bool))
    ensures life <= -1.0 ==> r == (life, dead)
    ensures life > 0.0 ==> r == (life - dt, dead)
    ensures -1.0 < life <= 0.0 ==> r == (life, true)
  {
    if life > -1.0 then
      if life > 0.0 then (life - dt, dead) else (life, true)
    else (life, dead)
  }

  /** The life and dead flag after updates of the given lengths, in order. */
  function Run(life: real, dead: bool, dts: seq<real>): (real, bool)
    decreases |dts|
  {
    if dts == [] then (life, dead)
    else var next := Countdown(life, dead, dts[0]); Run(next.0, next.1, dts[1..])
  }

  /** A life of -1 or below never changes and never marks the entity dead. */
  lemma {:induction false} LowLifeNeverDies(life: real, dead: bool, dts: seq<real>)
    requires life <= -1.0
    ensures Run(life, dead, dts) == (life, dead)
    decreases |dts|
  {
    if dts != [] {
      LowLifeNeverDies(life, dead, dts[1..]);
    }
  }

  /** A life that drops from above 0 to -1 or below in one update never marks the
      entity dead, whatever updates follow. */
  lemma OvershootNeverDies(life: real, dt: real, dts: seq<real>)
    requires life > 0.0 && life - dt <= -1.0
    ensures !Run(life, false, [dt] + dts).1
  {
    assert ([dt] + dts)[1..] == dts;
    LowLifeNeverDies(life - dt, false, dts);
  }

  /** Once dead, an entity stays dead through any updates. */
  lemma {:induction false} DeadStaysDead(life: real, dts: seq<real>)
    ensures Run(life, true, dts).1
    decreases |dts|
  {
    if dts != [] {
      DeadStaysDead(Countdown(life, true, dts[0]).0, dts[1..]);
    }
  }

  /** xd.js `Entity`: the life countdown and the parts it updates. */
  class Entity {
    var life: real
    var dead: bool
    var components: seq<Part>

    /** `new Entity(stage)`: immortal (life -1), alive and without parts. */
    constructor ()
      ensures life == -1.0 && !dead && components == []
    {
      life := -1.0;
      dead := false;
      components := [];
    }

    /** `kill()`: sets the life to 0, so the next update marks the entity dead. */
    method Kill()
      modifies this`life
      ensures life == 0.0 && forall dt :: Countdown(life, dead, dt).1
    {
      life := 0.0;
    }

    /** `revive()`: alive again and immortal. */
    method Revive()
      modifies this`life, this`dead
      ensures life == -1.0 && !dead
    {
      dead := false;
      life := -1.0;
    }

    /** `update(dt)`: the life countdown, then `update(dt)` on each active part in
        order; `updated` lists the parts updated. */
    method Update(dt: real) returns (updated: seq<Part>)
      modifies this`life, this`dead
      ensures (life, dead) == Countdown(old(life), old(dead), dt)
      ensures updated == ActiveParts(components)
    {
      if life > -1.0 {
        if life > 0.0 {
          life := life - dt;
        } else {
          dead := true;
        }
      }
      updated := [];
      var i := 0;
      while i < |components|
        invariant 0 <= i <= |components|
        invariant updated == ActiveParts(components[..i])
      {
        var comp := components[i];
        assert components[..i + 1][..i] == components[..i];
        if comp.active {
          updated := updated + [comp];
        }
        i := i + 1;
      }
      assert components[..i] == components;
    }
  }
}
