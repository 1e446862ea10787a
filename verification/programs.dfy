/**
 * Program objects: linking through scoped attachments, uniform reflection into
 * a table with a name index, lookup with a sentinel, and the two-stage factory.
 */
module Programs {
  import opened Wrappers
  import opened Logging
  import opened GL
  import opened Uniforms
  import opened Shaders

  // ---------------------------------------------------------------------------
  // Reflection, as values

  /** The name buffer is char[256] and glGetActiveUniform is told sizeof(name) - 1. */
  const NameBufferSize: int := 255

  /** The name InitUniforms reads back for an active uniform: at most 254 characters. */
  function ReflectedName(a: ActiveUniform): string {
    BufferCopy(a.name, NameBufferSize)
  }

  function ReflectedNames(r: LinkReport): seq<string> {
    seq(|r.active|, i requires 0 <= i < |r.active| => ReflectedName(r.active[i]))
  }

  /** The descriptor InitUniforms builds for one active uniform. */
  function Descriptor(r: LinkReport, types: TypeTable, a: ActiveUniform): Uniform {
    Uniform(LocationOf(r, ReflectedName(a)), types.fromGL(a.glType), a.size)
  }

  /** The uniform table after reflecting the link `r`: one descriptor per active uniform, in order. */
  function Reflect(r: LinkReport, types: TypeTable): seq<Uniform> {
    seq(|r.active|, i requires 0 <= i < |r.active| => Descriptor(r, types, r.active[i]))
  }

  /**
   * The index that `m_uniformMap[name] = size - 1` builds over `names`: every
   * name maps to the position of its LAST occurrence, since a later duplicate
   * overwrites an earlier one.
   */
  function NameIndex(names: seq<string>): map<string, int> {
    if names == [] then map[]
    else
      var last := |names| - 1;
      NameIndex(names[..last])[names[last] := last]
  }

  /**
   * The index holds exactly the names, each at a position where that name
   * stands, and no later position holds it.
   */
  lemma {:induction false} NameIndexLast(names: seq<string>)
    ensures forall k :: k in NameIndex(names) <==> k in names
    ensures forall k :: k in NameIndex(names) ==>
      && 0 <= NameIndex(names)[k] < |names|
      && names[NameIndex(names)[k]] == k
      && forall j :: NameIndex(names)[k] < j < |names| ==> names[j] != k
  {
    if names != [] {
      var last := |names| - 1;
      NameIndexLast(names[..last]);
      assert names == names[..last] + [names[last]];
    }
  }

  lemma NameIndexStep(before: map<string, int>, names: seq<string>, i: nat)
    requires i < |names|
    ensures before + NameIndex(names[..i + 1]) == (before + NameIndex(names[..i]))[names[i] := i]
  {
    assert names[..i + 1][..i] == names[..i];
  }

  /** GetUniform's answer from a table and an index. */
  function Lookup(table: seq<Uniform>, index: map<string, int>, name: string): (u: Uniform)
    requires name in index ==> 0 <= index[name] < |table|
  {
    if name in index then table[index[name]] else Sentinel
  }

  /**
   * Looking up a reflected name finds the descriptor of its last active
   * uniform; a name neither reflected now nor indexed before gets the sentinel.
   */
  lemma {:induction false} LookupAfterReflect(r: LinkReport, types: TypeTable, before: map<string, int>, name: string)
    requires name in before && name !in NameIndex(ReflectedNames(r)) ==> 0 <= before[name] < |r.active|
    ensures (NameIndexLast(ReflectedNames(r));
            var index := before + NameIndex(ReflectedNames(r));
            var u := Lookup(Reflect(r, types), index, name);
            && (name in ReflectedNames(r) ==>
                 exists i :: 0 <= i < |r.active| && ReflectedName(r.active[i]) == name &&
                   u == Descriptor(r, types, r.active[i]) && u.location == LocationOf(r, name) &&
                   forall j :: i < j < |r.active| ==> ReflectedName(r.active[j]) != name)
            && (name !in ReflectedNames(r) && name !in before ==> u == Sentinel))
  {
    var names := ReflectedNames(r);
    var index := before + NameIndex(names);
    NameIndexLast(names);
    if name in names {
      var k :| 0 <= k < |names| && names[k] == name;
      assert name in NameIndex(names);
      var i := index[name];
      assert ReflectedName(r.active[i]) == names[i] == name;
      assert Lookup(Reflect(r, types), index, name) == Descriptor(r, types, r.active[i]);
      forall j | i < j < |r.active|
        ensures ReflectedName(r.active[j]) != name
      {
        assert names[j] == ReflectedName(r.active[j]);
      }
    } else {
      assert name !in NameIndex(names);
    }
  }

  /**
   * InitUniforms never removes a name from the index: a name that the new
   * link no longer reflects keeps its old position, which may now be past
   * the end of the table or point at another uniform's descriptor.
   */
  lemma StaleNameSurvives(r: LinkReport, before: map<string, int>, name: string)
    requires name in before && name !in ReflectedNames(r)
    ensures name in before + NameIndex(ReflectedNames(r))
    ensures (before + NameIndex(ReflectedNames(r)))[name] == before[name]
  {
    NameIndexLast(ReflectedNames(r));
  }

  /**
   * A stale name whose old index still falls inside the new table is looked
   * up to the descriptor at that index: a uniform reflected under another name.
   */
  lemma StaleLookup(r: LinkReport, types: TypeTable, before: map<string, int>, name: string)
    requires name in before && name !in ReflectedNames(r) && 0 <= before[name] < |r.active|
    ensures (NameIndexLast(ReflectedNames(r));
            var u := Lookup(Reflect(r, types), before + NameIndex(ReflectedNames(r)), name);
            && u == Descriptor(r, types, r.active[before[name]])
            && ReflectedName(r.active[before[name]]) != name)
  {
    var names := ReflectedNames(r);
    NameIndexLast(names);
    assert names[before[name]] == ReflectedName(r.active[before[name]]);
  }

  /** The link verdict LinkImpl acts on: only a failed link with a real info log is a failure. */
  predicate LinkAccepted(r: LinkReport) {
    !(r.status == GL_FALSE && r.infoLogLength > 1)
  }

  /** What LinkImpl logs for the report `r`. */
  function LinkLog(r: LinkReport): seq<LogEntry> {
    if LinkAccepted(r) then [] else [LinkError(BufferCopy(r.infoLog, r.infoLogLength))]
  }

  /** The uniform table and index after a LinkImpl that saw `r`. */
  function TableAfterLink(r: LinkReport, types: TypeTable, table: seq<Uniform>, index: map<string, int>)
    : (after: (seq<Uniform>, map<string, int>))
    ensures !LinkAccepted(r) ==> after == (table, index)
    ensures LinkAccepted(r) ==> |after.0| == |r.active| && index.Keys <= after.1.Keys
  {
    if LinkAccepted(r) then (Reflect(r, types), index + NameIndex(ReflectedNames(r))) else (table, index)
  }

  // ---------------------------------------------------------------------------
  // The program object

  /** Attacher: attaches a shader for as long as it lives; Release is its destructor. */
  class Attacher {
    const ctx: Context
    const program: Name
    const shader: Name

    constructor (ctx: Context, program: Name, shader: Name)
      requires ctx.Valid()
      modifies ctx
      ensures ctx.Valid()
      ensures this.ctx == ctx && this.program == program && this.shader == shader
      ensures ctx.programs == if program in old(ctx.programs) && shader in old(ctx.shaders)
        then old(ctx.programs)[program := old(ctx.programs)[program].(attached := old(ctx.programs)[program].attached + {shader})]
        else old(ctx.programs)
      ensures ctx.shaders == old(ctx.shaders) && ctx.current == old(ctx.current)
    {
      this.ctx := ctx;
      this.program := program;
      this.shader := shader;
      ctx.AttachShader(program, shader);
    }

    method Release()
      requires ctx.Valid()
      modifies ctx
      ensures ctx.Valid()
      ensures ctx.programs == if program in old(ctx.programs)
        then old(ctx.programs)[program := old(ctx.programs)[program].(attached := old(ctx.programs)[program].attached - {shader})]
        else old(ctx.programs)
      ensures ctx.shaders == old(ctx.shaders) && ctx.current == old(ctx.current)
    {
      ctx.DetachShader(program, shader);
    }
  }

  class Program {
    const ctx: Context
    const handle: Name
    var uniforms: seq<Uniform>
    var uniformMap: map<string, int>

    ghost predicate Valid()
      reads this, ctx
    {
      ctx.Valid() && handle in ctx.programs
    }

    /** Creates the GL program object. */
    constructor (ctx: Context)
      requires ctx.Valid()
      modifies ctx
      ensures Valid() && this.ctx == ctx
      ensures handle !in old(ctx.programs) && handle !in old(ctx.shaders)
      ensures ctx.programs == old(ctx.programs)[handle := EmptyProgram]
      ensures ctx.shaders == old(ctx.shaders) && ctx.current == old(ctx.current)
      ensures uniforms == [] && uniformMap == map[]
    {
      this.ctx := ctx;
      var h := ctx.CreateProgram();
      handle := h;
      uniforms := [];
      uniformMap := map[];
    }

    /** Deletes the GL program object. */
    method Destroy()
      requires Valid()
      modifies ctx
      ensures ctx.Valid()
      ensures ctx.programs == old(ctx.programs) - {handle}
      ensures ctx.shaders == old(ctx.shaders) && ctx.current == old(ctx.current)
    {
      ctx.DeleteProgram(handle);
    }

    /**
     * Rebuilds the uniform table from the active uniforms of the last link.
     * The table is cleared first; the name index is not.
     */
    method InitUniforms(types: TypeTable)
      requires Valid()
      modifies this
      ensures Valid()
      ensures uniforms == Reflect(ctx.programs[handle].report, types)
      ensures uniformMap == old(uniformMap) + NameIndex(ReflectedNames(ctx.programs[handle].report))
    {
      var r := ctx.programs[handle].report;
      ghost var names := ReflectedNames(r);
      ghost var table := Reflect(r, types);
      var total := |r.active|;
      uniforms := [];
      var i := 0;
      while i < total
        invariant 0 <= i <= total
        invariant uniforms == table[..i]
        invariant uniformMap == old(uniformMap) + NameIndex(names[..i])
      {
        var a := r.active[i];
        var name := BufferCopy(a.name, NameBufferSize);
        var location := LocationOf(r, name);
        var u := Uniform(location, types.fromGL(a.glType), a.size);
        assert uniforms + [u] == table[..i + 1] by {
          assert table[..i + 1] == table[..i] + [table[i]];
        }
        assert uniformMap[name := i] == old(uniformMap) + NameIndex(names[..i + 1]) by {
          NameIndexStep(old(uniformMap), names, i);
        }
        uniforms := uniforms + [u];
        uniformMap := uniformMap[name := |uniforms| - 1];
        i := i + 1;
      }
      assert names[..i] == names;
      assert table[..i] == table;
    }

    /**
     * Links whatever is attached. A failed link whose info log holds more than
     * its terminator is logged and reported; otherwise the uniforms are
     * reflected and the link counts as done, even when the status was false.
     */
    method LinkImpl(types: TypeTable, log: Logger) returns (ok: bool)
      requires Valid()
      modifies this, ctx, log
      ensures Valid()
      ensures ctx.programs == old(ctx.programs)[handle :=
        AfterLink(old(ctx.programs[handle]), ctx.linker(Objects(old(ctx.shaders), old(ctx.programs[handle].attached))))]
      ensures ctx.shaders == old(ctx.shaders) && ctx.current == old(ctx.current)
      ensures ok == LinkAccepted(ctx.programs[handle].report)
      ensures (uniforms, uniformMap) == TableAfterLink(ctx.programs[handle].report, types, old(uniforms), old(uniformMap))
      ensures log.entries == old(log.entries) + LinkLog(ctx.programs[handle].report)
    {
      ctx.LinkProgram(handle);
      var r := ctx.programs[handle].report;
      var linked := r.status;
      if linked == GL_FALSE {
        var infoLen := r.infoLogLength;
        if infoLen > 1 {
          var buf := BufferCopy(r.infoLog, infoLen);
          log.Append([LinkError(buf)]);
          return false;
        }
      }
      InitUniforms(types);
      return true;
    }

    /** Link(shader): one scoped attachment around LinkImpl. */
    method Link1(s: Shader, types: TypeTable, log: Logger) returns (ok: bool)
      requires Valid() && s.Valid() && s.ctx == ctx
      modifies this, ctx, log
      ensures Valid() && s.Valid()
      ensures var o := old(ctx.programs[handle]);
              var r := ctx.linker(Objects(old(ctx.shaders), o.attached + {s.handle}));
              ctx.programs == old(ctx.programs)[handle := AfterLink(o, r).(attached := o.attached - {s.handle})]
      ensures s.handle !in old(ctx.programs[handle].attached) ==> ctx.programs[handle].attached == old(ctx.programs[handle].attached)
      ensures ctx.shaders == old(ctx.shaders) && ctx.current == old(ctx.current)
      ensures ok == LinkAccepted(ctx.programs[handle].report)
      ensures (uniforms, uniformMap) == TableAfterLink(ctx.programs[handle].report, types, old(uniforms), old(uniformMap))
      ensures log.entries == old(log.entries) + LinkLog(ctx.programs[handle].report)
    {
      ghost var o := ctx.programs[handle];
      ghost var r := ctx.linker(Objects(ctx.shaders, o.attached + {s.handle}));
      var attacher := new Attacher(ctx, handle, s.handle);
      assert ctx.programs == old(ctx.programs)[handle := o.(attached := o.attached + {s.handle})];
      ok := LinkImpl(types, log);
      assert ctx.programs == old(ctx.programs)[handle := AfterLink(o, r).(attached := o.attached + {s.handle})];
      attacher.Release();
      assert o.attached + {s.handle} - {s.handle} == o.attached - {s.handle};
    }

    /**
     * Link(vs, fs): two scoped attachments around LinkImpl, released in
     * reverse order. Attaching vs and then running Link(fs) issues the same
     * GL calls in the same order, so that is how the body is written.
     */
    method Link2(vs: Shader, fs: Shader, types: TypeTable, log: Logger) returns (ok: bool)
      requires Valid() && vs.Valid() && fs.Valid() && vs.ctx == ctx && fs.ctx == ctx
      modifies this, ctx, log
      ensures Valid() && vs.Valid() && fs.Valid()
      ensures var o := old(ctx.programs[handle]);
              var s := {vs.handle, fs.handle};
              var r := ctx.linker(Objects(old(ctx.shaders), o.attached + s));
              ctx.programs == old(ctx.programs)[handle := AfterLink(o, r).(attached := o.attached - s)]
      ensures {vs.handle, fs.handle} !! old(ctx.programs[handle].attached) ==>
        ctx.programs[handle].attached == old(ctx.programs[handle].attached)
      ensures ctx.shaders == old(ctx.shaders) && ctx.current == old(ctx.current)
      ensures ok == LinkAccepted(ctx.programs[handle].report)
      ensures (uniforms, uniformMap) == TableAfterLink(ctx.programs[handle].report, types, old(uniforms), old(uniformMap))
      ensures log.entries == old(log.entries) + LinkLog(ctx.programs[handle].report)
    {
      ghost var o := ctx.programs[handle];
      ghost var s := {vs.handle, fs.handle};
      ghost var r := ctx.linker(Objects(ctx.shaders, o.attached + s));
      var attacherVs := new Attacher(ctx, handle, vs.handle);
      assert o.attached + {vs.handle} + {fs.handle} == o.attached + s;
      ok := Link1(fs, types, log);
      ghost var linked := AfterLink(o, r);
      assert ctx.programs == old(ctx.programs)[handle := linked.(attached := o.attached + {vs.handle} - {fs.handle})];
      attacherVs.Release();
      assert o.attached + {vs.handle} - {fs.handle} - {vs.handle} == o.attached - s;
    }

    /**
     * Link(vs, gs, fs): three scoped attachments around LinkImpl, released in
     * reverse order; written as vs attached around Link(gs, fs), which issues
     * the same GL calls in the same order.
     */
    method Link3(vs: Shader, gs: Shader, fs: Shader, types: TypeTable, log: Logger) returns (ok: bool)
      requires Valid() && vs.Valid() && gs.Valid() && fs.Valid()
      requires vs.ctx == ctx && gs.ctx == ctx && fs.ctx == ctx
      modifies this, ctx, log
      ensures Valid() && vs.Valid() && gs.Valid() && fs.Valid()
      ensures var o := old(ctx.programs[handle]);
              var s := {vs.handle, gs.handle, fs.handle};
              var r := ctx.linker(Objects(old(ctx.shaders), o.attached + s));
              ctx.programs == old(ctx.programs)[handle := AfterLink(o, r).(attached := o.attached - s)]
      ensures {vs.handle, gs.handle, fs.handle} !! old(ctx.programs[handle].attached) ==>
        ctx.programs[handle].attached == old(ctx.programs[handle].attached)
      ensures ctx.shaders == old(ctx.shaders) && ctx.current == old(ctx.current)
      ensures ok == LinkAccepted(ctx.programs[handle].report)
      ensures (uniforms, uniformMap) == TableAfterLink(ctx.programs[handle].report, types, old(uniforms), old(uniformMap))
      ensures log.entries == old(log.entries) + LinkLog(ctx.programs[handle].report)
    {
      ghost var o := ctx.programs[handle];
      ghost var s := {vs.handle, gs.handle, fs.handle};
      ghost var r := ctx.linker(Objects(ctx.shaders, o.attached + s));
      var attacherVs := new Attacher(ctx, handle, vs.handle);
      assert o.attached + {vs.handle} + {gs.handle, fs.handle} == o.attached + s;
      ok := Link2(gs, fs, types, log);
      ghost var linked := AfterLink(o, r);
      assert ctx.programs == old(ctx.programs)[handle := linked.(attached := o.attached + {vs.handle} - {gs.handle, fs.handle})];
      attacherVs.Release();
      assert o.attached + {vs.handle} - {gs.handle, fs.handle} - {vs.handle} == o.attached - s;
    }

    /**
     * Makes this program the target of later glUniform* calls; the driver
     * refuses, keeping the previous target, when the last link failed.
     */
    method Use()
      requires Valid()
      modifies ctx
      ensures Valid()
      ensures ctx.programs == old(ctx.programs) && ctx.shaders == old(ctx.shaders)
      ensures ctx.current == if ctx.programs[handle].report.status == GL_TRUE then handle else old(ctx.current)
    {
      ctx.UseProgram(handle);
    }

    /** The raw glGetUniformLocation query, independent of the uniform table. */
    function GetUniformLocation(name: string): (loc: int)
      reads this, ctx
      requires Valid()
      ensures name !in ctx.programs[handle].report.locations ==> loc == -1
      ensures name in ctx.programs[handle].report.locations ==> loc == ctx.programs[handle].report.locations[name]
    {
      LocationOf(ctx.programs[handle].report, name)
    }

    /**
     * The stored descriptor for `name`, or the sentinel. An index entry past
     * the end of the table (a name left over from an earlier link) would be
     * read out of bounds, so that case is excluded.
     */
    function GetUniform(name: string): (u: Uniform)
      reads this
      requires name in uniformMap ==> 0 <= uniformMap[name] < |uniforms|
      ensures name !in uniformMap ==> u == Sentinel
      ensures name in uniformMap ==> u == uniforms[uniformMap[name]] && u in uniforms
    {
      Lookup(uniforms, uniformMap, name)
    }
  }

  lemma RemoveAdded<K, V>(m: map<K, V>, k: K, v: V)
    requires k !in m
    ensures m[k := v] - {k} == m
  {
  }

  /** A Shader of stage `t` constructed and then compiled from `src`. */
  method NewCompiledShader(ctx: Context, t: ShaderType, src: string, log: Logger) returns (sh: Shader, ok: bool)
    requires ctx.Valid() && !t.Unlisted?
    modifies ctx, log
    ensures fresh(sh) && sh.Valid() && sh.ctx == ctx && sh.shaderType == t
    ensures sh.handle !in old(ctx.shaders) && sh.handle !in old(ctx.programs)
    ensures var text := CStr(src);
            var report := ctx.compiler(GLStage(t), text);
            && ctx.shaders == old(ctx.shaders)[sh.handle := ShaderObject(GLStage(t), text, report)]
            && ok == (report.status == GL_TRUE)
            && log.entries == old(log.entries) + (if report.infoLogLength > 1 then Diagnostic(t, text, report) else [])
    ensures ctx.programs == old(ctx.programs) && ctx.current == old(ctx.current)
  {
    sh := new Shader(ctx, t);
    ok := sh.CompileShader(src, log);
    assert old(ctx.shaders)[sh.handle := ShaderObject(GLStage(t), "", NotCompiled)][sh.handle := ctx.shaders[sh.handle]]
      == old(ctx.shaders)[sh.handle := ctx.shaders[sh.handle]];
  }

  /** `new Program` followed by Link(vs, fs): a fresh program linked from exactly the two shaders. */
  method NewLinkedProgram(ctx: Context, vs: Shader, fs: Shader, types: TypeTable, log: Logger)
    returns (p: Program, ok: bool)
    requires ctx.Valid() && vs.Valid() && fs.Valid() && vs.ctx == ctx && fs.ctx == ctx
    modifies ctx, log
    ensures fresh(p) && p.Valid() && p.ctx == ctx && vs.Valid() && fs.Valid()
    ensures p.handle !in old(ctx.programs) && p.handle !in old(ctx.shaders)
    ensures var r := ctx.linker(map[vs.handle := old(ctx.shaders)[vs.handle], fs.handle := old(ctx.shaders)[fs.handle]]);
            && ctx.programs == old(ctx.programs)[p.handle := AfterLink(EmptyProgram, r)]
            && ok == LinkAccepted(r)
            && (LinkAccepted(r) ==> p.uniforms == Reflect(r, types) && p.uniformMap == NameIndex(ReflectedNames(r)))
            && log.entries == old(log.entries) + LinkLog(r)
    ensures ctx.shaders == old(ctx.shaders) && ctx.current == old(ctx.current)
  {
    p := new Program(ctx);
    assert Objects(ctx.shaders, {} + {vs.handle, fs.handle}) == map[vs.handle := ctx.shaders[vs.handle], fs.handle := ctx.shaders[fs.handle]] by {
      assert {} + {vs.handle, fs.handle} == {vs.handle, fs.handle};
      ObjectsOfPair(ctx.shaders, vs.handle, fs.handle);
    }
    ok := p.Link2(vs, fs, types, log);
    ghost var r := ctx.programs[p.handle].report;
    assert AfterLink(EmptyProgram, r).(attached := {} - {vs.handle, fs.handle}) == AfterLink(EmptyProgram, r);
    assert map[] + NameIndex(ReflectedNames(r)) == NameIndex(ReflectedNames(r));
  }

  /** The two compiles at the head of MakeProgram: a vertex and a fragment Shader, each compiled. */
  method CompilePair(ctx: Context, vertexShader: string, fragmentShader: string, log: Logger)
    returns (vs: Shader, fs: Shader, ok: bool)
    requires ctx.Valid()
    modifies ctx, log
    ensures fresh(vs) && fresh(fs) && vs.Valid() && fs.Valid() && vs.ctx == ctx && fs.ctx == ctx
    ensures vs.handle !in old(ctx.shaders) && fs.handle !in old(ctx.shaders) && vs.handle != fs.handle
    ensures vs.handle !in old(ctx.programs) && fs.handle !in old(ctx.programs)
    ensures var vsText, fsText := CStr(vertexShader), CStr(fragmentShader);
            var vsReport := ctx.compiler(GL_VERTEX_SHADER, vsText);
            var fsReport := ctx.compiler(GL_FRAGMENT_SHADER, fsText);
            && ctx.shaders == old(ctx.shaders)[vs.handle := ShaderObject(GL_VERTEX_SHADER, vsText, vsReport)]
                                              [fs.handle := ShaderObject(GL_FRAGMENT_SHADER, fsText, fsReport)]
            && ok == (vsReport.status == GL_TRUE && fsReport.status == GL_TRUE)
            && log.entries == old(log.entries)
                 + (if vsReport.infoLogLength > 1 then Diagnostic(VertexShader, vsText, vsReport) else [])
                 + (if fsReport.infoLogLength > 1 then Diagnostic(FragmentShader, fsText, fsReport) else [])
    ensures ctx.programs == old(ctx.programs) && ctx.current == old(ctx.current)
  {
    var succeeded := true;
    var vsOk, fsOk;
    vs, vsOk := NewCompiledShader(ctx, VertexShader, vertexShader, log);
    succeeded := succeeded && vsOk;
    fs, fsOk := NewCompiledShader(ctx, FragmentShader, fragmentShader, log);
    succeeded := succeeded && fsOk;
    ok := succeeded;
  }

  /** The two-stage factory: both compiles and the link always run; any failure gives null. */
  method MakeProgram(ctx: Context, vertexShader: string, fragmentShader: string, types: TypeTable, log: Logger)
    returns (program: Program?, ghost linkReport: LinkReport, ghost vsName: Name, ghost fsName: Name)
    requires ctx.Valid()
    modifies ctx, log
    ensures ctx.Valid()
    ensures var vsText, fsText := CStr(vertexShader), CStr(fragmentShader);
            var vsReport := ctx.compiler(GL_VERTEX_SHADER, vsText);
            var fsReport := ctx.compiler(GL_FRAGMENT_SHADER, fsText);
            && (program != null <==> vsReport.status == GL_TRUE && fsReport.status == GL_TRUE && LinkAccepted(linkReport))
            && log.entries == old(log.entries)
                 + (if vsReport.infoLogLength > 1 then Diagnostic(VertexShader, vsText, vsReport) else [])
                 + (if fsReport.infoLogLength > 1 then Diagnostic(FragmentShader, fsText, fsReport) else [])
                 + LinkLog(linkReport)
            && vsName !in old(ctx.shaders) && fsName !in old(ctx.shaders) && vsName != fsName
            && linkReport == ctx.linker(map[vsName := ShaderObject(GL_VERTEX_SHADER, vsText, vsReport),
                                            fsName := ShaderObject(GL_FRAGMENT_SHADER, fsText, fsReport)])
    ensures ctx.shaders == old(ctx.shaders) && ctx.current == old(ctx.current)
    ensures program == null ==> ctx.programs == old(ctx.programs)
    ensures program != null ==>
      && fresh(program) && program.Valid() && program.ctx == ctx
      && ctx.programs == old(ctx.programs)[program.handle := AfterLink(EmptyProgram, linkReport)]
      && program.uniforms == Reflect(linkReport, types)
      && program.uniformMap == NameIndex(ReflectedNames(linkReport))
  {
    ghost var vsText, fsText := CStr(vertexShader), CStr(fragmentShader);
    ghost var vsObject := ShaderObject(GL_VERTEX_SHADER, vsText, ctx.compiler(GL_VERTEX_SHADER, vsText));
    ghost var fsObject := ShaderObject(GL_FRAGMENT_SHADER, fsText, ctx.compiler(GL_FRAGMENT_SHADER, fsText));
    var vs, fs, succeeded := CompilePair(ctx, vertexShader, fragmentShader, log);
    vsName, fsName := vs.handle, fs.handle;
    ghost var compiledLog := log.entries;
    linkReport := ctx.linker(map[vs.handle := vsObject, fs.handle := fsObject]);
    assert vsObject == ctx.shaders[vs.handle] && fsObject == ctx.shaders[fs.handle];
    var p, linked := NewLinkedProgram(ctx, vs, fs, types, log);
    assert log.entries == compiledLog + LinkLog(linkReport);
    succeeded := succeeded && linked;
    if succeeded {
      program := p;
    } else {
      p.Destroy();
      program := null;
      assert ctx.programs == old(ctx.programs) by {
        RemoveAdded(old(ctx.programs), p.handle, AfterLink(EmptyProgram, linkReport));
      }
    }
    fs.Destroy();
    vs.Destroy();
    assert ctx.shaders == old(ctx.shaders) by {
      RemoveAdded(old(ctx.shaders)[vs.handle := vsObject], fs.handle, fsObject);
      RemoveAdded(old(ctx.shaders), vs.handle, vsObject);
    }
  }
}
