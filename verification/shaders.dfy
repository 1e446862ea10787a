/**
 * Shader objects: the stage table, the numbered source listing printed with
 * compile diagnostics, and compilation against the GL state.
 */
module Shaders {
  import opened GL
  import opened Logging

  /** SHADER_TYPE::Type. Unlisted is any value outside the four enumerators. */
  datatype ShaderType = ComputeShader | GeometryShader | VertexShader | FragmentShader | Unlisted(raw: int)

  /** The GL stage constant the constructor's switch picks; each stage gets its own. */
  function GLStage(t: ShaderType): (stage: int)
    requires !t.Unlisted?
    ensures IsShaderStage(stage)
    ensures stage == GL_COMPUTE_SHADER <==> t == ComputeShader
    ensures stage == GL_GEOMETRY_SHADER <==> t == GeometryShader
    ensures stage == GL_VERTEX_SHADER <==> t == VertexShader
    ensures stage == GL_FRAGMENT_SHADER <==> t == FragmentShader
  {
    match t
    case ComputeShader => GL_COMPUTE_SHADER
    case GeometryShader => GL_GEOMETRY_SHADER
    case VertexShader => GL_VERTEX_SHADER
    case FragmentShader => GL_FRAGMENT_SHADER
  }

  /** GetShaderTypeName: the enumerator's name, "INVALID_SHADER" for anything else. */
  function GetShaderTypeName(t: ShaderType): (name: string)
    ensures name == "INVALID_SHADER" <==> t.Unlisted?
    ensures |name| > 7 && name[|name| - 7..] == "_SHADER"
  {
    match t
    case ComputeShader => "COMPUTE_SHADER"
    case GeometryShader => "GEOMETRY_SHADER"
    case VertexShader => "VERTEX_SHADER"
    case FragmentShader => "FRAGMENT_SHADER"
    case Unlisted(_) => "INVALID_SHADER"
  }

  lemma ShaderTypeNamesDistinct(a: ShaderType, b: ShaderType)
    requires GetShaderTypeName(a) == GetShaderTypeName(b)
    ensures a == b || (a.Unlisted? && b.Unlisted?)
  {
  }

  // ---------------------------------------------------------------------------
  // C strings and source lines

  /** Index of the first NUL in `s`, or |s| when there is none. */
  function NulIndex(s: string): (i: nat)
    ensures i <= |s|
    ensures i < |s| ==> s[i] == '\0'
    ensures forall j :: 0 <= j < i ==> s[j] != '\0'
  {
    if s == [] || s[0] == '\0' then 0 else 1 + NulIndex(s[1..])
  }

  /** The text a `const char*` denotes: everything before its terminator. */
  function CStr(s: string): (c: string)
    ensures c <= s && '\0' !in c
    ensures |c| < |s| ==> s[|c|] == '\0'
  {
    s[..NulIndex(s)]
  }

  /** The segments of `s` between '\n' characters, the last one after the final '\n'. */
  function Lines(s: string): (ls: seq<string>)
    ensures |ls| >= 1
  {
    if s == [] then [""]
    else
      var rest := Lines(s[1..]);
      if s[0] == '\n' then [""] + rest else [[s[0]] + rest[0]] + rest[1..]
  }

  /** The inverse of Lines: the segments with a '\n' between each two. */
  function Join(ls: seq<string>): string {
    if ls == [] then "" else if |ls| == 1 then ls[0] else ls[0] + "\n" + Join(ls[1..])
  }

  lemma {:induction false} LinesHaveNoNewline(s: string)
    ensures forall k :: 0 <= k < |Lines(s)| ==> '\n' !in Lines(s)[k]
  {
    if s != [] {
      LinesHaveNoNewline(s[1..]);
    }
  }

  /** A source with k newlines is k + 1 lines. */
  lemma {:induction false} LineCount(s: string)
    ensures |Lines(s)| == multiset(s)['\n'] + 1
  {
    if s != [] {
      LineCount(s[1..]);
      assert s == [s[0]] + s[1..];
    }
  }

  /** Joining the lines gives back the source: nothing is lost or added. */
  lemma {:induction false} JoinLines(s: string)
    ensures Join(Lines(s)) == s
  {
    if s != [] {
      var rest := Lines(s[1..]);
      JoinLines(s[1..]);
      if s[0] == '\n' {
        assert Lines(s) == [""] + rest;
        assert Join(Lines(s)) == "" + "\n" + Join(rest);
      } else {
        if |rest| == 1 {
          assert Join(Lines(s)) == [s[0]] + rest[0];
        } else {
          assert rest == [rest[0]] + rest[1..];
          assert Join(rest) == rest[0] + "\n" + Join(rest[1..]);
          assert Join(Lines(s)) == ([s[0]] + rest[0]) + "\n" + Join(rest[1..]);
        }
        assert s == [s[0]] + s[1..];
      }
    }
  }

  /** A source that ends in '\n' ends in an empty line. */
  lemma {:induction false} TrailingNewline(s: string)
    requires s != [] && s[|s| - 1] == '\n'
    ensures Lines(s)[|Lines(s)| - 1] == ""
  {
    if |s| == 1 {
      assert Lines(s) == [""] + Lines([]);
    } else {
      TrailingNewline(s[1..]);
      LineCount(s[1..]);
    }
  }

  lemma {:induction false} LinesNoNewline(s: string)
    requires '\n' !in s
    ensures Lines(s) == [s]
  {
    if s != [] {
      LinesNoNewline(s[1..]);
      assert s == [s[0]] + s[1..];
    }
  }

  /** Lines splits at the first '\n'. */
  lemma {:induction false} LinesSplit(s: string, j: nat)
    requires j < |s| && s[j] == '\n'
    requires forall i :: 0 <= i < j ==> s[i] != '\n'
    ensures Lines(s) == [s[..j]] + Lines(s[j + 1..])
  {
    if j > 0 {
      LinesSplit(s[1..], j - 1);
      assert s[1..][j..] == s[j + 1..];
      assert [s[0]] + s[1..][..j - 1] == s[..j];
    }
  }

  /** Lines of a Join of newline-free segments gives the segments back. */
  lemma {:induction false} LinesJoin(ls: seq<string>)
    requires |ls| >= 1
    requires forall k :: 0 <= k < |ls| ==> '\n' !in ls[k]
    ensures Lines(Join(ls)) == ls
  {
    if |ls| == 1 {
      LinesNoNewline(ls[0]);
    } else {
      var s := ls[0] + "\n" + Join(ls[1..]);
      LinesJoin(ls[1..]);
      LinesSplit(s, |ls[0]|);
      assert s[..|ls[0]|] == ls[0];
      assert s[|ls[0]| + 1..] == Join(ls[1..]);
    }
  }

  /** The info-level entries "<n>:\t<line>" for consecutive line numbers from `first`. */
  function NumberedLines(ls: seq<string>, first: int): seq<LogEntry> {
    if ls == [] then [] else [SourceLine(first, ls[0])] + NumberedLines(ls[1..], first + 1)
  }

  /** One entry per line, in order, carrying the line and its number. */
  lemma {:induction false} NumberedLinesAt(ls: seq<string>, first: int)
    ensures |NumberedLines(ls, first)| == |ls|
    ensures forall k :: 0 <= k < |ls| ==> NumberedLines(ls, first)[k] == SourceLine(first + k, ls[k])
  {
    if ls != [] {
      NumberedLinesAt(ls[1..], first + 1);
    }
  }

  lemma {:induction false} NumberedAppend(ls: seq<string>, first: int, l: string)
    ensures NumberedLines(ls + [l], first) == NumberedLines(ls, first) + [SourceLine(first + |ls|, l)]
  {
    if ls != [] {
      NumberedAppend(ls[1..], first + 1, l);
      assert (ls + [l])[1..] == ls[1..] + [l];
    }
  }

  /**
   * The inner scan of PrintSource: from `start` to the next '\n' or the
   * terminator; the text scanned over is the next line of the C string.
   */
  method SegmentEnd(source: string, start: nat) returns (pos: nat)
    requires start <= |CStr(source)|
    ensures start <= pos <= |CStr(source)|
    ensures pos < |CStr(source)| <==> pos < |source| && source[pos] != '\0'
    ensures pos < |CStr(source)| ==>
      Lines(CStr(source)[start..]) == [source[start..pos]] + Lines(CStr(source)[pos + 1..])
    ensures pos == |CStr(source)| ==> Lines(CStr(source)[start..]) == [source[start..pos]]
  {
    pos := start;
    while pos < |source| && source[pos] != '\n' && source[pos] != '\0'
      invariant start <= pos <= |CStr(source)|
      invariant forall j :: start <= j < pos ==> source[j] != '\n'
      decreases |source| - pos
    {
      pos := pos + 1;
    }
    ghost var c := CStr(source);
    assert source[start..pos] == c[start..pos];
    if pos < |c| {
      NextSegment(c, start, pos);
    } else {
      LastSegment(c, start, pos);
    }
  }

  /**
   * PrintSource: walks the C string, emitting one numbered entry per
   * '\n'-separated segment, numbers counting up from startLine.
   */
  method PrintSource(source: string, startLine: int) returns (emitted: seq<LogEntry>)
    ensures emitted == NumberedLines(Lines(CStr(source)), startLine)
  {
    ghost var c := CStr(source);
    ghost var done: seq<string> := [];
    var line := startLine;
    var pos := 0;
    emitted := [];
    while true
      invariant 0 <= pos <= |c|
      invariant Lines(c) == done + Lines(c[pos..])
      invariant emitted == NumberedLines(done, startLine)
      invariant line == startLine + |done|
      decreases |c| - pos
    {
      var start := pos;
      pos := SegmentEnd(source, start);
      var l := source[start..pos];
      assert emitted + [SourceLine(line, l)] == NumberedLines(done + [l], startLine) by {
        NumberedAppend(done, startLine, l);
      }
      emitted := emitted + [SourceLine(line, l)];
      line := line + 1;
      if pos == |source| || source[pos] == '\0' {
        ScanDone(Lines(c), done, Lines(c[start..]), l);
        done := done + [l];
        break;
      }
      ScanStep(Lines(c), done, Lines(c[start..]), l, Lines(c[pos + 1..]));
      done := done + [l];
      pos := pos + 1;
    }
  }

  lemma ScanStep(all: seq<string>, done: seq<string>, rest: seq<string>, l: string, later: seq<string>)
    requires all == done + rest && rest == [l] + later
    ensures all == (done + [l]) + later
  {
  }

  lemma ScanDone(all: seq<string>, done: seq<string>, rest: seq<string>, l: string)
    requires all == done + rest && rest == [l]
    ensures all == done + [l]
  {
  }

  lemma LastSegment(c: string, start: nat, pos: nat)
    requires start <= pos == |c|
    requires forall j :: start <= j < pos ==> c[j] != '\n'
    ensures Lines(c[start..]) == [c[start..pos]]
  {
    assert c[start..] == c[start..pos];
    LinesNoNewline(c[start..pos]);
  }

  lemma NextSegment(c: string, start: nat, pos: nat)
    requires start <= pos < |c| && c[pos] == '\n'
    requires forall j :: start <= j < pos ==> c[j] != '\n'
    ensures Lines(c[start..]) == [c[start..pos]] + Lines(c[pos + 1..])
  {
    LinesSplit(c[start..], pos - start);
    assert c[start..][..pos - start] == c[start..pos];
    assert c[start..][pos - start + 1..] == c[pos + 1..];
  }

  // ---------------------------------------------------------------------------
  // Shader objects

  function Severity(status: int): string {
    if status == GL_TRUE then "Warning" else "Error"
  }

  /** The block CompileShader logs: header, the source numbered from 1, the compiler's log. */
  function Diagnostic(t: ShaderType, text: string, report: CompileReport): seq<LogEntry> {
    [CompileHeader(Severity(report.status), GetShaderTypeName(t))]
    + NumberedLines(Lines(text), 1)
    + [CompileLog(BufferCopy(report.infoLog, report.infoLogLength))]
  }

  class Shader {
    const ctx: Context
    const shaderType: ShaderType
    const handle: Name

    ghost predicate Valid()
      reads this, ctx
    {
      && ctx.Valid()
      && !shaderType.Unlisted?
      && handle in ctx.shaders
      && ctx.shaders[handle].stage == GLStage(shaderType)
    }

    /** Creates the GL shader object for the stage. */
    constructor (ctx: Context, t: ShaderType)
      requires ctx.Valid() && !t.Unlisted?
      modifies ctx
      ensures Valid() && this.ctx == ctx && shaderType == t
      ensures handle !in old(ctx.shaders) && handle !in old(ctx.programs)
      ensures ctx.shaders == old(ctx.shaders)[handle := ShaderObject(GLStage(t), "", NotCompiled)]
      ensures ctx.programs == old(ctx.programs) && ctx.current == old(ctx.current)
    {
      this.ctx := ctx;
      shaderType := t;
      var h := ctx.CreateShader(GLStage(t));
      handle := h;
    }

    /**
     * Sets the source, compiles, and reports the compile status. When the
     * info log is longer than its terminator, logs the diagnostic block.
     */
    method CompileShader(src: string, log: Logger) returns (ok: bool)
      requires Valid()
      modifies ctx, log
      ensures Valid()
      ensures var text := CStr(src);
              var report := ctx.compiler(GLStage(shaderType), text);
              && ctx.shaders == old(ctx.shaders)[handle := ShaderObject(GLStage(shaderType), text, report)]
              && ok == (report.status == GL_TRUE)
              && log.entries == old(log.entries) + (if report.infoLogLength > 1 then Diagnostic(shaderType, text, report) else [])
      ensures ctx.programs == old(ctx.programs) && ctx.current == old(ctx.current)
    {
      var text := CStr(src);
      ghost var report := ctx.compiler(GLStage(shaderType), text);
      ctx.ShaderSource(handle, text);
      ctx.CompileShader(handle);
      assert ctx.shaders[handle] == ShaderObject(GLStage(shaderType), text, report);
      var compiled := ctx.shaders[handle].compile.status;
      var infoLen := ctx.shaders[handle].compile.infoLogLength;
      if infoLen > 1 {
        var header := CompileHeader(Severity(compiled), GetShaderTypeName(shaderType));
        var listing := PrintSource(src, 1);
        var buf := BufferCopy(ctx.shaders[handle].compile.infoLog, infoLen);
        assert [header] + listing + [CompileLog(buf)] == Diagnostic(shaderType, text, report);
        log.Append([header] + listing + [CompileLog(buf)]);
      }
      ok := compiled == GL_TRUE;
    }

    /** Deletes the GL shader object. */
    method Destroy()
      requires Valid()
      modifies ctx
      ensures ctx.Valid()
      ensures ctx.shaders == old(ctx.shaders) - {handle}
      ensures ctx.programs == old(ctx.programs) && ctx.current == old(ctx.current)
    {
      ctx.DeleteShader(handle);
    }
  }
}
