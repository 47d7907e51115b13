/** A GL shader program with the uniforms it discovers in its own sources
    (src/gfx/ShaderProgram.ts). */
module Shaders {
  import opened Js
  import opened Gl
  import opened Chars
  import opened UniformScanner
  import opened Geometry
  import StringReader

  datatype ShaderType = VERTEX | FRAGMENT

  function StageOf(t: ShaderType): ShaderStage
  {
    match t
    case VERTEX => VertexStage
    case FRAGMENT => FragmentStage
  }

  /** What `link` comes to: skipped on an invalid program, a failed link, a link whose
      uniform scan threw or never ended, or a completed one. */
  datatype LinkOutcome = Skipped | LinkFailed | Linked | ScanThrew | ScanHangs

  /** The uniform table after asking GL for each name in turn: a name enters with its
      location when GL has one, and is otherwise left as it was. */
  function RegisterAll(table: map<string, nat>, names: seq<string>, locate: string -> Option<nat>): (t: map<string, nat>)
  {
    if names == [] then table
    else
      var before := RegisterAll(table, names[..|names| - 1], locate);
      var name := names[|names| - 1];
      if locate(name).Some? then before[name := locate(name).value] else before
  }

  /** The `getUniformLocation` calls for `names`, in order. */
  function Queries(program: Handle, names: seq<string>): (q: seq<Call>)
    ensures |q| == |names|
  {
    if names == [] then []
    else Queries(program, names[..|names| - 1]) + [GetUniformLocation(program, names[|names| - 1])]
  }

  lemma QueriesSnoc(program: Handle, names: seq<string>, name: string)
    ensures Queries(program, names + [name]) == Queries(program, names) + [GetUniformLocation(program, name)]
  {
    assert (names + [name])[..|names|] == names;
  }

  lemma {:induction false} QueriesAppend(program: Handle, a: seq<string>, b: seq<string>)
    ensures Queries(program, a + b) == Queries(program, a) + Queries(program, b)
    decreases |b|
  {
    if b != [] {
      var b' := b[..|b| - 1];
      assert a + b == (a + b') + [b[|b| - 1]];
      QueriesSnoc(program, a + b', b[|b| - 1]);
      QueriesAppend(program, a, b');
      QueriesSnoc(program, b', b[|b| - 1]);
      assert b == b' + [b[|b| - 1]];
    } else {
      assert a + b == a;
    }
  }

  /** Registering one more name: it enters with GL's location when there is one. */
  lemma RegisterAllSnoc(table: map<string, nat>, names: seq<string>, name: string, locate: string -> Option<nat>)
    ensures RegisterAll(table, names + [name], locate)
            == if locate(name).Some? then RegisterAll(table, names, locate)[name := locate(name).value]
               else RegisterAll(table, names, locate)
  {
    assert (names + [name])[..|names|] == names;
  }

  lemma {:induction false} RegisterAllAppend(table: map<string, nat>, a: seq<string>, b: seq<string>, locate: string -> Option<nat>)
    ensures RegisterAll(table, a + b, locate) == RegisterAll(RegisterAll(table, a, locate), b, locate)
    decreases |b|
  {
    if b != [] {
      var b' := b[..|b| - 1];
      assert (a + b)[..|a + b| - 1] == a + b';
      RegisterAllAppend(table, a, b', locate);
    } else {
      assert a + b == a;
    }
  }

  /** A name is in the table after registration exactly when it was before, or it was
      asked for and GL has a location for it; a name asked for maps to GL's location. */
  lemma {:induction false} RegisterAllContents(table: map<string, nat>, names: seq<string>, locate: string -> Option<nat>, n: string)
    ensures n in RegisterAll(table, names, locate) <==> n in table || (n in names && locate(n).Some?)
    ensures n in names && locate(n).Some? ==> RegisterAll(table, names, locate)[n] == locate(n).value
    ensures n !in names && n in table ==> RegisterAll(table, names, locate)[n] == table[n]
    decreases |names|
  {
    if names != [] {
      var init := names[..|names| - 1];
      RegisterAllContents(table, init, locate, n);
      assert names == init + [names[|names| - 1]];
      assert n in names <==> n in init || n == names[|names| - 1];
    }
  }

  /** The scan of all sources in order, as `link` runs it: the names found up to the
      first source whose scan does not finish, and how that scan ended. */
  function ScanAll(sources: seq<string>): Scan
  {
    if sources == [] then Scan([], Finished)
    else
      var init := ScanAll(sources[..|sources| - 1]);
      if init.halt != Finished then init
      else
        var last := ScanSource(sources[|sources| - 1]);
        Scan(init.names + last.names, last.halt)
  }

  /** Scanning one more source after a finished scan. */
  lemma ScanAllSnoc(sources: seq<string>, k: nat)
    requires k < |sources| && ScanAll(sources[..k]).halt == Finished
    ensures ScanAll(sources[..k + 1])
            == Scan(ScanAll(sources[..k]).names + ScanSource(sources[k]).names, ScanSource(sources[k]).halt)
  {
    assert sources[..k + 1][..k] == sources[..k];
  }

  /** Once a scan has thrown or hangs, the later sources are never scanned. */
  lemma {:induction false} ScanAllHalted(sources: seq<string>, k: nat)
    requires k <= |sources| && ScanAll(sources[..k]).halt != Finished
    ensures ScanAll(sources) == ScanAll(sources[..k])
    decreases |sources|
  {
    if k < |sources| {
      var init := sources[..|sources| - 1];
      assert init[..k] == sources[..k];
      ScanAllHalted(init, k);
    } else {
      assert sources[..k] == sources;
    }
  }

  /** The position of the scanner's current character, as the reader's cursor shows it. */
  ghost predicate At(r: StringReader.Reader, src: string, i: nat, c: string)
    reads r
  {
    r.Valid() && r.data == src && i <= |src|
    && c == (if i < |src| then [src[i]] else StringReader.EOF)
    && r.pos == (if i < |src| then i + 1 else |src|)
  }

  /** The scan from index `i` accounts for what is left of the whole source's scan
      once the names in `done` have been declared. */
  ghost predicate ScanAgrees(src: string, i: nat, done: seq<string>)
  {
    i <= |src| && ScanSource(src) == Scan(done + ScanFrom(src, i).names, ScanFrom(src, i).halt)
  }

  /** A statement that starts with "void" ends the scan with the names found so far. */
  lemma AgreesAtVoid(src: string, i: nat, done: seq<string>)
    requires ScanAgrees(src, i, done) && i < |src| && IsLetterOrDigit([src[i]])
    requires StartsWith(src[i..StatementEnd(src, i)], "void")
    ensures ScanSource(src) == Scan(done, Finished)
  {
    ScanStatement(src, i);
    assert done + [] == done;
  }

  /** A statement that is not a declaration adds no name. */
  lemma AgreesPastStatement(src: string, i: nat, done: seq<string>)
    requires ScanAgrees(src, i, done) && i < |src| && IsLetterOrDigit([src[i]])
    requires !StartsWith(src[i..StatementEnd(src, i)], "void")
    requires !StartsWith(src[i..StatementEnd(src, i)], "uniform")
    ensures ScanAgrees(src, StatementEnd(src, i), done)
  {
    ScanStatement(src, i);
  }

  /** A declaration without a name ends the scan by throwing. */
  lemma AgreesAtCrash(src: string, i: nat, done: seq<string>)
    requires ScanAgrees(src, i, done) && i < |src| && IsLetterOrDigit([src[i]])
    requires !StartsWith(src[i..StatementEnd(src, i)], "void")
    requires StartsWith(src[i..StatementEnd(src, i)], "uniform")
    requires NameToken(src[i..StatementEnd(src, i)]).None?
    ensures ScanSource(src) == Scan(done, Crashed)
  {
    ScanStatement(src, i);
    assert done + [] == done;
  }

  /** A declaration with a name adds that name. */
  lemma AgreesPastDeclaration(src: string, i: nat, done: seq<string>)
    requires ScanAgrees(src, i, done) && i < |src| && IsLetterOrDigit([src[i]])
    requires !StartsWith(src[i..StatementEnd(src, i)], "void")
    requires StartsWith(src[i..StatementEnd(src, i)], "uniform")
    requires NameToken(src[i..StatementEnd(src, i)]).Some?
    ensures ScanAgrees(src, StatementEnd(src, i), done + [NameToken(src[i..StatementEnd(src, i)]).value])
  {
    var e := StatementEnd(src, i);
    var name := NameToken(src[i..e]).value;
    ScanStatement(src, i);
    assert done + ([name] + ScanFrom(src, e).names) == (done + [name]) + ScanFrom(src, e).names;
  }

  /** Registering one more declared name's entries continues the table. */
  lemma RegisterEntriesSnoc(table0: map<string, nat>, done: seq<string>, rname: string, locate: string -> Option<nat>)
    ensures RegisterAll(RegisterAll(table0, Entries(done), locate), Registered(rname), locate)
            == RegisterAll(table0, Entries(done + [rname]), locate)
  {
    RegisterAllAppend(table0, Entries(done), Registered(rname), locate);
    EntriesSnoc(done, rname);
  }

  /** Asking for one more declared name's entries continues the log. */
  lemma QueriesEntriesSnoc(program: Handle, log0: seq<Call>, done: seq<string>, rname: string)
    ensures log0 + Queries(program, Entries(done)) + Queries(program, Registered(rname))
            == log0 + Queries(program, Entries(done + [rname]))
  {
    var a := Queries(program, Entries(done));
    var b := Queries(program, Registered(rname));
    EntriesSnoc(done, rname);
    QueriesAppend(program, Entries(done), Registered(rname));
    AppendAssoc(log0, a, b);
  }

  /** Registering the entries of further declared names continues the table. */
  lemma RegisterEntriesAppend(table0: map<string, nat>, done: seq<string>, more: seq<string>, locate: string -> Option<nat>)
    ensures RegisterAll(RegisterAll(table0, Entries(done), locate), Entries(more), locate)
            == RegisterAll(table0, Entries(done + more), locate)
  {
    RegisterAllAppend(table0, Entries(done), Entries(more), locate);
    EntriesAppend(done, more);
  }

  /** Asking for the entries of further declared names continues the log. */
  lemma QueriesEntriesAppend(program: Handle, log0: seq<Call>, done: seq<string>, more: seq<string>)
    ensures log0 + Queries(program, Entries(done)) + Queries(program, Entries(more))
            == log0 + Queries(program, Entries(done + more))
  {
    var a := Queries(program, Entries(done));
    var b := Queries(program, Entries(more));
    EntriesAppend(done, more);
    QueriesAppend(program, Entries(done), Entries(more));
    AppendAssoc(log0, a, b);
  }

  /** What a link's scan comes to. */
  function OutcomeOf(halt: Halt): (o: LinkOutcome)
    ensures o == Linked <==> halt == Finished
    ensures o == ScanThrew <==> halt == Crashed
    ensures o == ScanHangs <==> halt.Hangs?
  {
    match halt
    case Finished => Linked
    case Crashed => ScanThrew
    case Hangs(_) => ScanHangs
  }

  class ShaderProgram {
    /** `_uniforms`: the location of every uniform GL reported. */
    var uniforms: map<string, nat>
    /** `_attributes`: the memoised attribute locations. */
    var attributes: map<string, int>
    /** `_sources`: every source that compiled, in the order added. */
    var sources: seq<string>
    /** `_valid`. */
    var valid: bool
    /** The names this program asked GL attribute locations for, in order. */
    ghost var attributeQueries: seq<string>
    const program: Handle
    const gl: Context

    /** Every attribute name was asked for at most once, and exactly the names asked for
        are memoised. */
    ghost predicate Valid()
      reads this
    {
      (forall j, k :: 0 <= j < k < |attributeQueries| ==> attributeQueries[j] != attributeQueries[k])
      && (forall n :: n in attributes <==> n in attributeQueries)
    }

    /** `new ShaderProgram()`: an empty, valid program. */
    constructor (gl: Context)
      modifies gl
      ensures Valid() && this.gl == gl
      ensures uniforms == map[] && attributes == map[] && sources == [] && valid
      ensures attributeQueries == []
      ensures program == old(gl.nextHandle) && gl.nextHandle == program + 1
      ensures gl.log == old(gl.log) + [Created(ProgramObject, program)]
    {
      var h := gl.Create(ProgramObject);
      this.gl := gl;
      program := h;
      uniforms := map[];
      attributes := map[];
      sources := [];
      valid := true;
      attributeQueries := [];
    }

    /** `bind`: uses the program only while it is valid. */
    method Bind()
      modifies gl
      ensures gl.nextHandle == old(gl.nextHandle)
      ensures gl.log == old(gl.log) + (if valid then [UseProgram(Some(program))] else [])
    {
      if valid {
        gl.Issue(UseProgram(Some(program)));
      }
    }

    /** `unbind`. */
    method Unbind()
      modifies gl
      ensures gl.nextHandle == old(gl.nextHandle)
      ensures gl.log == old(gl.log) + [UseProgram(None)]
    {
      gl.Issue(UseProgram(None));
    }

    /** `addShader`: a missing or empty source changes nothing; otherwise the source is
        compiled, and it is attached and kept when GL reports that it compiled, while a
        failed compile deletes the shader and invalidates the program. */
    method AddShader(src: Option<string>, t: ShaderType, compiles: bool)
      requires Valid()
      modifies this, gl
      ensures Valid()
      ensures uniforms == old(uniforms) && attributes == old(attributes)
      ensures attributeQueries == old(attributeQueries)
      ensures src.None? || src.value == "" ==>
        sources == old(sources) && valid == old(valid) && gl.log == old(gl.log)
        && gl.nextHandle == old(gl.nextHandle)
      ensures src.Some? && src.value != "" ==>
        var shader := old(gl.nextHandle);
        gl.nextHandle == shader + 1
        && sources == old(sources) + (if compiles then [src.value] else [])
        && valid == (old(valid) && compiles)
        && gl.log == old(gl.log) + [Created(ShaderObject(StageOf(t)), shader), ShaderSource(shader, src.value),
                                    CompileShader(shader)]
                                 + [if compiles then AttachShader(program, shader) else DeleteShader(shader)]
    {
      if src.None? {
        return;
      }
      if |src.value| == 0 {
        return;
      }
      var shader := gl.Create(ShaderObject(StageOf(t)));
      gl.Issue(ShaderSource(shader, src.value));
      gl.Issue(CompileShader(shader));
      if compiles {
        gl.Issue(AttachShader(program, shader));
        sources := sources + [src.value];
      } else {
        gl.Issue(DeleteShader(shader));
        valid := false;
      }
    }

    /** `link`: an invalid program is left alone; otherwise GL links it, and a failed
        link invalidates the program while a successful one scans every kept source in
        the order added, up to the first scan that throws or never ends. */
    method Link(linked: bool, locate: string -> Option<nat>) returns (outcome: LinkOutcome)
      modifies this, gl
      ensures !old(valid) ==> outcome == Skipped && !valid && uniforms == old(uniforms) && gl.log == old(gl.log)
      ensures old(valid) && !linked ==>
        outcome == LinkFailed && !valid && uniforms == old(uniforms) && gl.log == old(gl.log) + [LinkProgram(program)]
      ensures old(valid) && linked ==>
        valid && outcome == OutcomeOf(ScanAll(sources).halt)
        && uniforms == RegisterAll(old(uniforms), Entries(ScanAll(sources).names), locate)
        && gl.log == old(gl.log) + [LinkProgram(program)] + Queries(program, Entries(ScanAll(sources).names))
      ensures gl.nextHandle == old(gl.nextHandle)
      ensures attributes == old(attributes) && sources == old(sources) && attributeQueries == old(attributeQueries)
    {
      if !valid {
        return Skipped;
      }
      gl.Issue(LinkProgram(program));
      if !linked {
        valid := false;
        return LinkFailed;
      }
      ghost var log1 := gl.log;
      var k := 0;
      while k < |sources|
        invariant k <= |sources| && ScanAll(sources[..k]).halt == Finished
        invariant uniforms == RegisterAll(old(uniforms), Entries(ScanAll(sources[..k]).names), locate)
        invariant gl.log == log1 + Queries(program, Entries(ScanAll(sources[..k]).names))
        invariant valid && gl.nextHandle == old(gl.nextHandle)
        invariant attributes == old(attributes) && sources == old(sources) && attributeQueries == old(attributeQueries)
      {
        ghost var before := ScanAll(sources[..k]).names;
        ScanAllSnoc(sources, k);
        RegisterEntriesAppend(old(uniforms), before, ScanSource(sources[k]).names, locate);
        QueriesEntriesAppend(program, log1, before, ScanSource(sources[k]).names);
        var halt := ParseUniforms(sources[k], locate);
        if halt != Finished {
          ScanAllHalted(sources, k + 1);
          return OutcomeOf(halt);
        }
        k := k + 1;
      }
      assert sources[..k] == sources;
      return Linked;
    }

    /** `getAttributeLocation`: asks GL only for a name not asked for before, and
        answers every later call from the memo. */
    method GetAttributeLocation(name: string, attribLocation: string -> int) returns (loc: int)
      requires Valid()
      modifies this, gl
      ensures Valid()
      ensures name in old(attributes) ==>
        loc == old(attributes)[name] && attributes == old(attributes)
        && attributeQueries == old(attributeQueries) && gl.log == old(gl.log)
      ensures name !in old(attributes) ==>
        loc == attribLocation(name) && attributes == old(attributes)[name := loc]
        && attributeQueries == old(attributeQueries) + [name]
        && gl.log == old(gl.log) + [GetAttribLocation(program, name)]
      ensures gl.nextHandle == old(gl.nextHandle)
      ensures uniforms == old(uniforms) && sources == old(sources) && valid == old(valid)
    {
      if name !in attributes {
        gl.Issue(GetAttribLocation(program, name));
        attributes := attributes[name := attribLocation(name)];
        attributeQueries := attributeQueries + [name];
      }
      return attributes[name];
    }

    /** `hasUniform`. */
    predicate HasUniform(name: string)
      reads this
    {
      name in uniforms
    }

    /** `getUniform`: the recorded location, None (`null`) for a name not in the table. */
    function GetUniform(name: string): (loc: Option<nat>)
      reads this
      ensures loc.Some? <==> name in uniforms
      ensures loc.Some? ==> loc.value == uniforms[name]
    {
      if !HasUniform(name) then None else Some(uniforms[name])
    }

    /** The call a setter makes: a `uniform*` call for a name in the table, none for
        any other name. */
    function Sent(name: string, value: UniformValue): (calls: seq<Call>)
      reads this
      ensures |calls| <= 1
      ensures calls == [] <==> !HasUniform(name)
      ensures forall c :: c in calls ==> c == Uniform(uniforms[name], value)
    {
      if name in uniforms then [Uniform(uniforms[name], value)] else []
    }

    /** `setInt`. */
    method SetInt(name: string, value: int)
      modifies gl
      ensures gl.log == old(gl.log) + Sent(name, Int1(value)) && gl.nextHandle == old(gl.nextHandle)
    {
      if HasUniform(name) {
        gl.Issue(Uniform(GetUniform(name).value, Int1(value)));
      }
    }

    /** `setFloat`. */
    method SetFloat(name: string, value: real)
      modifies gl
      ensures gl.log == old(gl.log) + Sent(name, Float1(value)) && gl.nextHandle == old(gl.nextHandle)
    {
      if HasUniform(name) {
        gl.Issue(Uniform(GetUniform(name).value, Float1(value)));
      }
    }

    /** `setFloat2`. */
    method SetFloat2(name: string, x: real, y: real)
      modifies gl
      ensures gl.log == old(gl.log) + Sent(name, Float2(x, y)) && gl.nextHandle == old(gl.nextHandle)
    {
      if HasUniform(name) {
        gl.Issue(Uniform(GetUniform(name).value, Float2(x, y)));
      }
    }

    /** `setFloat3`. */
    method SetFloat3(name: string, x: real, y: real, z: real)
      modifies gl
      ensures gl.log == old(gl.log) + Sent(name, Float3(x, y, z)) && gl.nextHandle == old(gl.nextHandle)
    {
      if HasUniform(name) {
        gl.Issue(Uniform(GetUniform(name).value, Float3(x, y, z)));
      }
    }

    /** `setFloat4`. */
    method SetFloat4(name: string, x: real, y: real, z: real, w: real)
      modifies gl
      ensures gl.log == old(gl.log) + Sent(name, Float4(x, y, z, w)) && gl.nextHandle == old(gl.nextHandle)
    {
      if HasUniform(name) {
        gl.Issue(Uniform(GetUniform(name).value, Float4(x, y, z, w)));
      }
    }

    /** `setVector2`: `setFloat2` with the vector's components. */
    method SetVector2(name: string, v: Vec2)
      modifies gl
      ensures gl.log == old(gl.log) + Sent(name, Float2(v.x, v.y)) && gl.nextHandle == old(gl.nextHandle)
    {
      SetFloat2(name, v.x, v.y);
    }

    /** `setVector3`: `setFloat3` with the vector's components. */
    method SetVector3(name: string, v: Vec3)
      modifies gl
      ensures gl.log == old(gl.log) + Sent(name, Float3(v.x, v.y, v.z)) && gl.nextHandle == old(gl.nextHandle)
    {
      SetFloat3(name, v.x, v.y, v.z);
    }

    /** `setVector4`: `setFloat4` with the vector's components. */
    method SetVector4(name: string, v: Vec4)
      modifies gl
      ensures gl.log == old(gl.log) + Sent(name, Float4(v.x, v.y, v.z, v.w)) && gl.nextHandle == old(gl.nextHandle)
    {
      SetFloat4(name, v.x, v.y, v.z, v.w);
    }

    /** `setColor`: `setFloat4` with red, green, blue and alpha. */
    method SetColor(name: string, c: Color)
      modifies gl
      ensures gl.log == old(gl.log) + Sent(name, Float4(c.r, c.g, c.b, c.a)) && gl.nextHandle == old(gl.nextHandle)
    {
      SetFloat4(name, c.r, c.g, c.b, c.a);
    }

    /** `setMatrix4`: the matrix's 16 numbers. */
    method SetMatrix4(name: string, v: Matrix4)
      modifies gl
      ensures gl.log == old(gl.log) + Sent(name, Mat4(v.m)) && gl.nextHandle == old(gl.nextHandle)
    {
      if HasUniform(name) {
        gl.Issue(Uniform(GetUniform(name).value, Mat4(v.m)));
      }
    }

    /** `addUniform`: asks GL for the name's location and records it when there is one. */
    method AddUniform(name: string, locate: string -> Option<nat>) returns (ok: bool)
      modifies this, gl
      ensures ok == locate(name).Some?
      ensures uniforms == if ok then old(uniforms)[name := locate(name).value] else old(uniforms)
      ensures gl.log == old(gl.log) + [GetUniformLocation(program, name)] && gl.nextHandle == old(gl.nextHandle)
      ensures attributes == old(attributes) && sources == old(sources) && valid == old(valid)
      ensures attributeQueries == old(attributeQueries)
    {
      gl.Issue(GetUniformLocation(program, name));
      var loc := locate(name);
      if loc.Some? {
        uniforms := uniforms[name := loc.value];
        return true;
      }
      return false;
    }

    /** `addUniformArray(name, n)`: `addUniform` for `name[0]` up to `name[n-1]`; the
        result is that of the last attempt, and true when there is none. */
    method AddUniformArray(name: string, n: JsNumber, locate: string -> Option<nat>) returns (ok: bool)
      modifies this, gl
      ensures ok == (Iterations(n) == 0 || locate(EntryName(name, Iterations(n) - 1)).Some?)
      ensures uniforms == RegisterAll(old(uniforms), ArrayNames(name, n), locate)
      ensures gl.log == old(gl.log) + Queries(program, ArrayNames(name, n))
      ensures gl.nextHandle == old(gl.nextHandle)
      ensures attributes == old(attributes) && sources == old(sources) && valid == old(valid)
      ensures attributeQueries == old(attributeQueries)
    {
      ok := true;
      var i: nat := 0;
      while LessThan(i, n)
        invariant i <= Iterations(n)
        invariant ok == (i == 0 || locate(EntryName(name, i - 1)).Some?)
        invariant uniforms == RegisterAll(old(uniforms), EntryList(name, i), locate)
        invariant gl.log == old(gl.log) + Queries(program, EntryList(name, i))
        invariant gl.nextHandle == old(gl.nextHandle)
        invariant attributes == old(attributes) && sources == old(sources) && valid == old(valid)
        invariant attributeQueries == old(attributeQueries)
        decreases Iterations(n) - i
      {
        RegisterAllSnoc(old(uniforms), EntryList(name, i), EntryName(name, i), locate);
        QueriesSnoc(program, EntryList(name, i), EntryName(name, i));
        AppendAssoc(old(gl.log), Queries(program, EntryList(name, i)), [GetUniformLocation(program, EntryName(name, i))]);
        ok := AddUniform(EntryName(name, i), locate);
        i := i + 1;
      }
    }

    /** The declaration part of `parseUniforms`, on a statement's trimmed text: the third
        space-separated token is the declared name (None, as the source throws, when there
        is none), registered as an array when it holds a `[`. */
    method Declare(trimmed: string, locate: string -> Option<nat>) returns (rname: Option<string>)
      modifies this, gl
      ensures var tokens := Split(trimmed, ' ');
        rname == (if |tokens| < 3 then None else Some(tokens[2]))
      ensures rname.None? ==> uniforms == old(uniforms) && gl.log == old(gl.log)
      ensures rname.Some? ==>
        uniforms == RegisterAll(old(uniforms), Registered(rname.value), locate)
        && gl.log == old(gl.log) + Queries(program, Registered(rname.value))
      ensures gl.nextHandle == old(gl.nextHandle)
      ensures attributes == old(attributes) && sources == old(sources) && valid == old(valid)
      ensures attributeQueries == old(attributeQueries)
    {
      var raw := Split(trimmed, ' ');
      if |raw| < 3 {
        return None;
      }
      var name := raw[2];
      if IndexOf(name, '[') != -1 {
        var base := Substr(name, 0, IndexOf(name, '[') - 1);
        var countText := ReplaceFirst(ReplaceFirst(SubstrFrom(name, IndexOf(name, '[') + 1), '['), ']');
        // The source resets the count to 0 when it `== NaN`, which never holds
        // (`LooselyEqualsNaN`), so a non-numeric count stays NaN.
        var count := ToNumber(countText);
        DeclOfArrayAt(name, IndexOf(name, '['), base, countText);
        var _ := AddUniformArray(base, count, locate);
      } else {
        DeclOfPlain(name);
        var _ := AddUniform(name, locate);
      }
      return Some(name);
    }

    /** The table and the log after registering the names in `done`, starting from
        `table0` and `log0`. */
    ghost predicate Holds(done: seq<string>, table0: map<string, nat>, log0: seq<Call>, locate: string -> Option<nat>)
      reads this, gl
    {
      uniforms == RegisterAll(table0, Entries(done), locate)
      && gl.log == log0 + Queries(program, Entries(done))
    }

    /** One statement of `parseUniforms`, from its first letter or digit: reads it and,
        when it is a uniform declaration, registers the declared name. `stop` is the
        `void` statement that ends the pass; a declaration with no name throws. */
    method Statement(sr: StringReader.Reader, ghost src: string, ghost i: nat, c0: string, ghost done: seq<string>,
                     ghost table0: map<string, nat>, ghost log0: seq<Call>, locate: string -> Option<nat>)
      returns (c: string, stop: bool, halt: Option<Halt>, ghost next: nat, ghost done': seq<string>)
      requires At(sr, src, i, c0) && i < |src| && IsLetterOrDigit(c0)
      requires ScanAgrees(src, i, done) && Holds(done, table0, log0, locate)
      modifies this, gl, sr
      ensures At(sr, src, next, c) && i < next && Holds(done', table0, log0, locate)
      ensures halt.None? && !stop ==> ScanAgrees(src, next, done')
      ensures halt.None? && stop ==> ScanSource(src) == Scan(done', Finished)
      ensures halt.Some? ==> ScanSource(src) == Scan(done', halt.value)
      ensures gl.nextHandle == old(gl.nextHandle)
      ensures attributes == old(attributes) && sources == old(sources) && valid == old(valid)
      ensures attributeQueries == old(attributeQueries)
    {
      ghost var text := src[i..StatementEnd(src, i)];
      var str, found;
      str, found, stop, c, next := ReadStatement(sr, src, i, c0);
      halt := None;
      done' := done;
      if stop {
        AgreesAtVoid(src, i, done);
      } else if !found {
        AgreesPastStatement(src, i, done);
      } else {
        var rname := Declare(Trim(str), locate);
        if rname.None? {
          AgreesAtCrash(src, i, done);
          halt := Some(Crashed);
        } else {
          AgreesPastDeclaration(src, i, done);
          RegisterEntriesSnoc(table0, done, rname.value, locate);
          QueriesEntriesSnoc(program, log0, done, rname.value);
          done' := done + [rname.value];
        }
      }
    }

    /** One turn of the `parseUniforms` loop, at a character other than EOF. */
    method ParseStep(sr: StringReader.Reader, ghost src: string, ghost i: nat, c0: string, ghost done: seq<string>,
                     ghost table0: map<string, nat>, ghost log0: seq<Call>, locate: string -> Option<nat>)
      returns (c: string, stop: bool, halt: Option<Halt>, ghost next: nat, ghost done': seq<string>)
      requires At(sr, src, i, c0) && c0 != StringReader.EOF
      requires ScanAgrees(src, i, done) && Holds(done, table0, log0, locate)
      modifies this, gl, sr
      ensures At(sr, src, next, c) && (halt.None? ==> i < next) && Holds(done', table0, log0, locate)
      ensures halt.None? && !stop ==> ScanAgrees(src, next, done')
      ensures halt.None? && stop ==> ScanSource(src) == Scan(done', Finished)
      ensures halt.Some? ==> ScanSource(src) == Scan(done', halt.value)
      ensures gl.nextHandle == old(gl.nextHandle)
      ensures attributes == old(attributes) && sources == old(sources) && valid == old(valid)
      ensures attributeQueries == old(attributeQueries)
    {
      assert i < |src| && src[i] != '\0' && c0 == [src[i]];
      stop := false;
      halt := None;
      done' := done;
      if IsLetterOrDigit(c0) {
        c, stop, halt, next, done' := Statement(sr, src, i, c0, done, table0, log0, locate);
      } else if IsSymbol(c0) || IsWhitespace(c0) {
        ScanSkips(src, i);
        c := sr.Read();
        next := i + 1;
      } else {
        HangsOnUnclassified(src, i);
        assert done + [] == done;
        c := c0;
        next := i;
        halt := Some(Hangs(sr.pos - 1));
      }
    }

    /** `parseUniforms`: one pass of the reader over `src`, registering every declared
        uniform; it agrees with `ScanSource`, and stops where that scan throws or hangs. */
    method ParseUniforms(src: string, locate: string -> Option<nat>) returns (halt: Halt)
      modifies this, gl
      ensures halt == ScanSource(src).halt
      ensures uniforms == RegisterAll(old(uniforms), Entries(ScanSource(src).names), locate)
      ensures gl.log == old(gl.log) + Queries(program, Entries(ScanSource(src).names))
      ensures gl.nextHandle == old(gl.nextHandle)
      ensures attributes == old(attributes) && sources == old(sources) && valid == old(valid)
      ensures attributeQueries == old(attributeQueries)
    {
      var sr := new StringReader.Reader(Some(src));
      var stop := false;
      var c := sr.Read();
      ghost var i: nat := 0;
      ghost var done: seq<string> := [];
      while c != StringReader.EOF
        invariant At(sr, src, i, c)
        invariant !stop ==> ScanAgrees(src, i, done)
        invariant stop ==> ScanSource(src) == Scan(done, Finished)
        invariant Holds(done, old(uniforms), old(gl.log), locate)
        invariant gl.nextHandle == old(gl.nextHandle)
        invariant attributes == old(attributes) && sources == old(sources) && valid == old(valid)
        invariant attributeQueries == old(attributeQueries)
        decreases |src| - i, if stop then 0 else 1
      {
        if stop {
          break;
        }
        var h;
        c, stop, h, i, done := ParseStep(sr, src, i, c, done, old(uniforms), old(gl.log), locate);
        if h.Some? {
          return h.value;
        }
      }
      if !stop {
        ScanAtEnd(src, i);
        assert done + [] == done;
      }
      return Finished;
    }
  }

  /** The statement part of `parseUniforms`: from the statement's first character,
      reads up to `;` or EOF, noting whether the text read so far has been exactly
      "uniform", and stopping early with `stop` set once it is exactly "void". */
  method ReadStatement(sr: StringReader.Reader, ghost src: string, ghost start: nat, c0: string)
    returns (str: string, found: bool, stop: bool, c: string, ghost i: nat)
    requires At(sr, src, start, c0) && start < |src| && IsLetterOrDigit(c0)
    modifies sr
    ensures At(sr, src, i, c)
    ensures start < StatementEnd(src, start) && start < i <= StatementEnd(src, start)
    ensures stop ==> StartsWith(src[start..StatementEnd(src, start)], "void")
    ensures !stop ==> i == StatementEnd(src, start) && str == src[start..i]
                      && found == StartsWith(str, "uniform") && !StartsWith(str, "void")
  {
    ghost var e := StatementEnd(src, start);
    assert src[start] != ';' && src[start] != '\0';
    str := "";
    found := false;
    stop := false;
    c := c0;
    i := start;
    while c != ";" && c != StringReader.EOF
      invariant At(sr, src, i, c)
      invariant start <= i <= e && str == src[start..i]
      invariant found == StartsWith(str, "uniform")
      invariant !StartsWith(str, "void")
      invariant c != ";" && c != StringReader.EOF <==> i < e
      decreases e - i
    {
      assert c == [src[i]];
      StartsWithSnoc(str, src[i], "uniform");
      StartsWithSnoc(str, src[i], "void");
      str := str + c;
      c := sr.Read();
      i := i + 1;
      assert str == src[start..i];
      if str == "uniform" {
        found := true;
      } else if str == "void" {
        stop := true;
        StartsWithExtends(str, src[start..e], "void");
        return;
      }
      TerminatorIffAtEnd(src, start, i, c);
    }
  }

  /** The reader's current character stops a statement exactly at the statement's end. */
  lemma TerminatorIffAtEnd(src: string, start: nat, i: nat, c: string)
    requires start <= |src| && start <= i <= StatementEnd(src, start)
    requires c == (if i < |src| then [src[i]] else StringReader.EOF)
    ensures c != ";" && c != StringReader.EOF <==> i < StatementEnd(src, start)
  {
    if i < |src| {
      assert c == ";" <==> src[i] == ';';
      assert c == StringReader.EOF <==> src[i] == '\0';
    }
  }
}
