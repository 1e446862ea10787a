/**
 * The OpenGL state this core talks to, owned by the model instead of a driver.
 *
 * Object names, shader objects, program objects with their attached-shader
 * sets, link reports and the current program follow the OpenGL 3.3 Core
 * Profile, with two exceptions: the shader stages are those of a 4.3 context,
 * which adds the compute stage, and a program is deleted at once even while
 * it is current.
 * A uniform call is stored at its location without the driver's type and
 * range checks. What the driver decides (whether a source compiles, whether a
 * set of shaders links, which uniforms a link makes active and where they
 * live) cannot be seen from this code, so it enters as two oracle functions
 * fixed when the context is created.
 */
module GL {

  type Name = nat

  const GL_FALSE: int := 0
  const GL_TRUE: int := 1

  const GL_FRAGMENT_SHADER: int := 0x8B30
  const GL_VERTEX_SHADER: int := 0x8B31
  const GL_GEOMETRY_SHADER: int := 0x8DD9
  const GL_COMPUTE_SHADER: int := 0x91B9

  /** The stages glCreateShader accepts in a 4.3 context; 3.3 lacks the compute stage. */
  predicate IsShaderStage(stage: int) {
    stage == GL_VERTEX_SHADER || stage == GL_FRAGMENT_SHADER ||
    stage == GL_GEOMETRY_SHADER || stage == GL_COMPUTE_SHADER
  }

  /** What glGetShaderiv/glGetShaderInfoLog report after one glCompileShader. */
  datatype CompileReport = CompileReport(status: int, infoLogLength: int, infoLog: string)

  const NotCompiled := CompileReport(GL_FALSE, 0, "")

  datatype ShaderObject = ShaderObject(stage: int, source: string, compile: CompileReport)

  /** One entry of glGetActiveUniform: the full name, the array size and the type code. */
  datatype ActiveUniform = ActiveUniform(name: string, size: int, glType: int)

  /**
   * What the program queries report after one glLinkProgram: link status and
   * info log, the active uniforms in the driver's order, and the locations
   * that glGetUniformLocation answers for (any other name answers -1).
   */
  datatype LinkReport = LinkReport(
    status: int,
    infoLogLength: int,
    infoLog: string,
    active: seq<ActiveUniform>,
    locations: map<string, int>)

  const NotLinked := LinkReport(GL_FALSE, 0, "", [], map[])

  /** The glUniform* entry points this core calls. */
  datatype UniformFn =
    | Uniform1iv
    | Uniform1uiv
    | UniformFv(components: nat)        // glUniform{1,2,3,4}fv
    | UniformIv(components: nat)        // glUniform{2,3,4}iv
    | UniformMatrixFv(rows: nat)        // glUniformMatrix{2,3,4}fv

  datatype UniformCall = UniformCall(fn: UniformFn, location: int, count: int, transpose: bool)

  datatype ProgramObject = ProgramObject(attached: set<Name>, report: LinkReport, values: map<int, UniformCall>)

  const EmptyProgram := ProgramObject({}, NotLinked, map[])

  /** The shader objects among `names` that exist: what a link step sees. */
  function Objects(shaders: map<Name, ShaderObject>, names: set<Name>): map<Name, ShaderObject> {
    map n | n in names && n in shaders :: shaders[n]
  }

  lemma ObjectsOfPair(shaders: map<Name, ShaderObject>, a: Name, b: Name)
    requires a in shaders && b in shaders
    ensures Objects(shaders, {a, b}) == map[a := shaders[a], b := shaders[b]]
  {
  }

  /**
   * The characters a string query (glGet*InfoLog, glGetActiveUniform) copies
   * into a buffer of `bufSize` chars: at most bufSize - 1 of them, the last
   * slot being the terminator.
   */
  function BufferCopy(text: string, bufSize: int): (r: string)
    ensures r <= text
    ensures |r| == if bufSize <= 1 then 0 else if |text| < bufSize then |text| else bufSize - 1
  {
    if bufSize <= 1 then "" else if |text| < bufSize then text else text[..bufSize - 1]
  }

  /** The location glGetUniformLocation answers for `name` after the link described by `r`. */
  function LocationOf(r: LinkReport, name: string): (loc: int)
    ensures name !in r.locations ==> loc == -1
    ensures name in r.locations ==> loc == r.locations[name]
  {
    if name in r.locations then r.locations[name] else -1
  }

  /**
   * A program object after glLinkProgram produced `r`: the attached set is
   * kept, and a successful link discards the uniform values of the previous
   * executable.
   */
  function AfterLink(o: ProgramObject, r: LinkReport): ProgramObject {
    ProgramObject(o.attached, r, if r.status == GL_TRUE then map[] else o.values)
  }

  class Context {
    /** Driver oracle: the report of compiling `source` for a stage constant. */
    const compiler: (int, string) -> CompileReport
    /** Driver oracle: the report of linking the given attached shader objects. */
    const linker: map<Name, ShaderObject> -> LinkReport

    var nextName: Name
    var shaders: map<Name, ShaderObject>
    var programs: map<Name, ProgramObject>
    var current: Name

    /** Names are never reused and 0 is never an object. */
    ghost predicate Valid()
      reads this
    {
      && 0 < nextName
      && (forall n :: n in shaders ==> 0 < n < nextName)
      && (forall n :: n in programs ==> 0 < n < nextName)
    }

    constructor (compiler: (int, string) -> CompileReport, linker: map<Name, ShaderObject> -> LinkReport)
      ensures Valid()
      ensures this.compiler == compiler && this.linker == linker
      ensures shaders == map[] && programs == map[] && current == 0
    {
      this.compiler := compiler;
      this.linker := linker;
      nextName := 1;
      shaders := map[];
      programs := map[];
      current := 0;
    }

    /** glCreateShader: a fresh name, or 0 (and no object) for an unknown stage constant. */
    method CreateShader(stage: int) returns (s: Name)
      requires Valid()
      modifies this
      ensures Valid()
      ensures IsShaderStage(stage) ==>
        && s != 0 && s !in old(shaders) && s !in old(programs)
        && shaders == old(shaders)[s := ShaderObject(stage, "", NotCompiled)]
      ensures !IsShaderStage(stage) ==> s == 0 && shaders == old(shaders)
      ensures programs == old(programs) && current == old(current)
    {
      if !IsShaderStage(stage) {
        return 0;
      }
      s := nextName;
      nextName := nextName + 1;
      shaders := shaders[s := ShaderObject(stage, "", NotCompiled)];
    }

    /** glShaderSource with a NUL-terminated string: replaces the source text. */
    method ShaderSource(s: Name, source: string)
      requires Valid()
      modifies this
      ensures Valid()
      ensures shaders == if s in old(shaders) then old(shaders)[s := old(shaders)[s].(source := source)] else old(shaders)
      ensures programs == old(programs) && current == old(current)
    {
      if s in shaders {
        shaders := shaders[s := shaders[s].(source := source)];
      }
    }

    /** glCompileShader: records the compiler's report for the current source. */
    method CompileShader(s: Name)
      requires Valid()
      modifies this
      ensures Valid()
      ensures shaders == if s in old(shaders)
        then old(shaders)[s := old(shaders)[s].(compile := compiler(old(shaders)[s].stage, old(shaders)[s].source))]
        else old(shaders)
      ensures programs == old(programs) && current == old(current)
    {
      if s in shaders {
        var o := shaders[s];
        shaders := shaders[s := o.(compile := compiler(o.stage, o.source))];
      }
    }

    /** glDeleteShader; name 0 and unknown names are ignored. */
    method DeleteShader(s: Name)
      requires Valid()
      modifies this
      ensures Valid()
      ensures shaders == old(shaders) - {s}
      ensures programs == old(programs) && current == old(current)
    {
      shaders := shaders - {s};
    }

    /** glCreateProgram: a fresh, empty, unlinked program object. */
    method CreateProgram() returns (p: Name)
      requires Valid()
      modifies this
      ensures Valid()
      ensures p != 0 && p !in old(programs) && p !in old(shaders)
      ensures programs == old(programs)[p := EmptyProgram]
      ensures shaders == old(shaders) && current == old(current)
    {
      p := nextName;
      nextName := nextName + 1;
      programs := programs[p := EmptyProgram];
    }

    /** glDeleteProgram; name 0 and unknown names are ignored. */
    method DeleteProgram(p: Name)
      requires Valid()
      modifies this
      ensures Valid()
      ensures programs == old(programs) - {p}
      ensures shaders == old(shaders) && current == old(current)
    {
      programs := programs - {p};
    }

    /**
     * glAttachShader: adds `s` to the attached set. Attaching a shader that is
     * already attached, or an unknown name, is an error with no effect.
     */
    method AttachShader(p: Name, s: Name)
      requires Valid()
      modifies this
      ensures Valid()
      ensures programs == if p in old(programs) && s in old(shaders)
        then old(programs)[p := old(programs)[p].(attached := old(programs)[p].attached + {s})]
        else old(programs)
      ensures shaders == old(shaders) && current == old(current)
    {
      if p in programs && s in shaders {
        // already attached: an error with no effect, which the union also gives
        programs := programs[p := programs[p].(attached := programs[p].attached + {s})];
      }
    }

    /** glDetachShader: removes `s` from the attached set; a shader not attached is an error with no effect. */
    method DetachShader(p: Name, s: Name)
      requires Valid()
      modifies this
      ensures Valid()
      ensures programs == if p in old(programs)
        then old(programs)[p := old(programs)[p].(attached := old(programs)[p].attached - {s})]
        else old(programs)
      ensures shaders == old(shaders) && current == old(current)
    {
      if p in programs {
        // not attached: an error with no effect, which the difference also gives
        programs := programs[p := programs[p].(attached := programs[p].attached - {s})];
      }
    }

    /** glLinkProgram: the program's report becomes the linker's verdict on the shader objects attached now. */
    method LinkProgram(p: Name)
      requires Valid()
      modifies this
      ensures Valid()
      ensures programs == if p in old(programs)
        then old(programs)[p := AfterLink(old(programs)[p], linker(Objects(old(shaders), old(programs)[p].attached)))]
        else old(programs)
      ensures shaders == old(shaders) && current == old(current)
    {
      if p in programs {
        var o := programs[p];
        programs := programs[p := AfterLink(o, linker(Objects(shaders, o.attached)))];
      }
    }

    /**
     * glUseProgram: the program later glUniform* calls target (0 for none).
     * A program whose last link did not succeed, or an unknown name, is an
     * error that leaves the current program as it was (section 2.11.2 of the
     * OpenGL 3.3 Core Profile).
     */
    method UseProgram(p: Name)
      requires Valid()
      modifies this
      ensures Valid()
      ensures current == if p == 0 || (p in old(programs) && old(programs)[p].report.status == GL_TRUE)
        then p else old(current)
      ensures shaders == old(shaders) && programs == old(programs)
    {
      if p == 0 || (p in programs && programs[p].report.status == GL_TRUE) {
        current := p;
      }
    }

    /**
     * A glUniform* call: loads the value at `call.location` of the current
     * program. Location -1 is silently ignored (section 2.11.4 of the OpenGL
     * 3.3 Core Profile), and so is a call with no current program.
     */
    method SubmitUniform(call: UniformCall)
      requires Valid()
      modifies this
      ensures Valid()
      ensures programs == if current in old(programs) && call.location != -1
        then old(programs)[current := old(programs)[current].(values := old(programs)[current].values[call.location := call])]
        else old(programs)
      ensures call.location == -1 ==> programs == old(programs)
      ensures shaders == old(shaders) && current == old(current)
    {
      if current in programs && call.location != -1 {
        programs := programs[current := programs[current].(values := programs[current].values[call.location := call])];
      }
    }
  }
}
