# ImageAnnotationToolkit core, modelled in Dafny

This project models three parts of the image annotation toolkit.

- **Shaders** (`sources/Shader.cpp`). A shader object is created for one of
  four stages. It compiles a NUL-terminated source. When the driver reports
  an info log longer than its terminator, a diagnostic block is logged. The
  block holds a header naming the severity and the stage, the source listed
  line by line with numbers from 1, and the compiler's log.
- **Programs** (`sources/Program.cpp`). A program object links whatever
  shaders are attached to it. The `Link` overloads attach one, two or three
  shaders for the duration of the link and detach them in reverse order.
  After a link, the uniforms are reflected into a table and a name index.
  `GetUniform` looks a name up and answers a sentinel for an unknown one.
  The typed `ApplyValue` specialisations check the reflected type and issue
  one `glUniform*` call. `MakeProgram` builds a program from a vertex and a
  fragment source and returns null if any step fails.
- **The face annotation session** (`face_anno.py`).
  - Construction lists the image files under the library, sorted. It loads
    the saved dictionary, adds the `__banned` set, drops empty entries and
    unbans every listed path that has points.
  - The four navigation loops move a cyclic cursor to the next or previous
    path that passes the `Fiship` filter and is not banned. The
    `_not_annotated` loops also require the path to have no entry in the
    dictionary, or to be index 0. A path whose points were all removed
    keeps an empty entry and is skipped.
  - The mouse handlers add points and drag them. The keyboard handler
    navigates, deletes points, removes the last point and bans the current
    image.

The OpenGL driver is a `GL.Context` object. Its shader and program objects,
attached sets and link reports follow the OpenGL 3.3 Core Profile, except
that the shader stages are those of a 4.3 context, which adds the compute
stage (see "## Left out"). So does the current program: `glUseProgram` on a program whose last link failed is
refused and leaves it unchanged. Deleting the current program and storing a
uniform call skip some of the driver's rules (see "## Left out"). Whether a
source compiles and what a set of shaders links to are two oracle functions
fixed when the context is created. Logging is a list of structured entries
(`Logging.Logger`).

Some behaviours look unintended but are modelled as written:

- A failed link whose info log is empty (length at most 1, counting the
  terminator) still reflects the uniforms and counts as a success
  (`LinkAccepted`). `MakeProgram` then returns a program, but `Use` on it
  is refused by the driver and changes nothing.
- `InitUniforms` clears the uniform table but never the name index.
  - A name from an earlier link that the new link no longer reflects keeps
    its old position (`StaleNameSurvives`).
  - If that old position still falls inside the new table, `GetUniform`
    returns the descriptor of a uniform reflected under another name
    (`StaleLookup`).
  - A duplicate reflected name maps to its last occurrence (`NameIndexLast`).
- The pointer overload of the matrix `ApplyValue` submits one matrix,
  whatever `count` says.
- `moving` survives navigation. Dragging can therefore continue on another
  image.
  - If that image's entry has a point at the dragged index, the drag
    silently moves it, and the release overwrites and saves it.
  - Only when that image has no entry, or too few points, does it raise
    `KeyError` or `IndexError`. `OnMousePosition` and `OnMouseButton`
    report that as `ok == false`.
- The ban branch of `on_keyboard` compares the key with the str `'B'`. Key
  codes are ints, so only a `StrKey("B")` bans.

## Model

| member | source | states |
|---|---|---|
| Shaders.GLStage | sources/Shader.cpp:10-29 | each of the four enumerators selects its own GL stage constant, in both directions, and the result is always a shader stage |
| Shaders.GetShaderTypeName | sources/Shader.cpp:31-45 | the name is "INVALID_SHADER" exactly for a value outside the enumeration, and every name ends in "_SHADER" |
| Shaders.ShaderTypeNamesDistinct | sources/Shader.cpp:31-45 | two enumerators with the same name are the same enumerator |
| Shaders.NulIndex | sources/Shader.cpp:57-61 | the scan stops at the first NUL: no earlier character is NUL, and the stopping point is NUL or the end |
| Shaders.CStr | sources/Shader.cpp:73-75 | the text a `const char*` denotes is a NUL-free prefix of the buffer, followed by a NUL when shorter |
| Shaders.LinesHaveNoNewline | sources/Shader.cpp:52-71 | no printed line contains a newline |
| Shaders.LineCount | sources/Shader.cpp:52-71 | a source with k newlines prints k + 1 lines |
| Shaders.JoinLines | sources/Shader.cpp:52-71 | joining the printed lines with newlines gives the source back: the listing loses and adds nothing |
| Shaders.LinesJoin | sources/Shader.cpp:52-71 | splitting a join of newline-free lines gives those lines back |
| Shaders.TrailingNewline | sources/Shader.cpp:64-69 | a source ending in a newline prints a final empty line, since the loop only stops at the terminator |
| Shaders.LinesSplit | sources/Shader.cpp:57-70 | the first line ends at the first newline and the rest are the lines after it |
| Shaders.NumberedLinesAt | sources/Shader.cpp:54-63 | the listing has one entry per line, in order, the k-th numbered startLine + k |
| Shaders.NumberedAppend | sources/Shader.cpp:62-63 | printing one more line appends one entry numbered after the previous ones |
| Shaders.SegmentEnd | sources/Shader.cpp:57-61 | the inner scan stops at the next newline or the terminator, and the text it passes over is the next line of the C string |
| Shaders.PrintSource | sources/Shader.cpp:52-71 | the entries logged are the lines of the C string, numbered consecutively from startLine |
| Shaders.Shader.constructor | sources/Shader.cpp:10-29 | a fresh shader object of the selected stage, with no source and not compiled; nothing else changes |
| Shaders.Shader.CompileShader | sources/Shader.cpp:73-96 | the object holds the C string and the compiler's report; the result is the compile status; the diagnostic block is logged exactly when the info log is longer than 1 |
| Shaders.Shader.Destroy | sources/Shader.cpp:47-50 | the shader object is deleted and nothing else changes |
| GL.BufferCopy | sources/Program.cpp:35-37 | a query into a buffer of n chars copies a prefix of at most n - 1 characters of the text |
| Programs.NameIndexLast | sources/Program.cpp:53-63 | the index holds exactly the reflected names, each at the last position where that name was reflected |
| Programs.LookupAfterReflect | sources/Program.cpp:46-65 | after reflection, looking up a reflected name yields the descriptor of its last active uniform, with the location glGetUniformLocation gives; a name never indexed yields the sentinel; this holds even when other stale indices lie past the new table |
| Programs.StaleLookup | sources/Program.cpp:121-128 | a stale name whose old index lies inside the new table is looked up to the descriptor at that index, which belongs to a uniform with a different name |
| Programs.StaleNameSurvives | sources/Program.cpp:51-63 | a name indexed before that the new link does not reflect keeps its old index |
| Programs.TableAfterLink | sources/Program.cpp:23-44 | a rejected link leaves table and index untouched; an accepted one gives one descriptor per active uniform and keeps every indexed name |
| Programs.Attacher.constructor | sources/Program.cpp:72-75 | the shader is added to the program's attached set and nothing else changes |
| Programs.Attacher.Release | sources/Program.cpp:76-79 | the shader is removed from the program's attached set and nothing else changes |
| Programs.Program.constructor | sources/Program.cpp:13-16 | a fresh, empty, unlinked program object with an empty uniform table and index |
| Programs.Program.Destroy | sources/Program.cpp:18-21 | the program object is deleted and nothing else changes |
| Programs.Program.InitUniforms | sources/Program.cpp:46-65 | the table becomes the reflection of the last link, and the index becomes the old index overridden by the new names |
| Programs.Program.LinkImpl | sources/Program.cpp:23-44 | the program is linked from what is attached; the result is false exactly when the link failed with a real info log, which is then logged; otherwise the uniforms are reflected |
| Programs.Program.Link1 | sources/Program.cpp:85-89 | linked with the shader attached, which is detached afterwards; result, table and log as for LinkImpl |
| Programs.Program.Link2 | sources/Program.cpp:91-96 | linked with both shaders attached, which are detached afterwards; a program with no prior attachments ends with none |
| Programs.Program.Link3 | sources/Program.cpp:98-104 | linked with all three shaders attached, which are detached afterwards; a program with no prior attachments ends with none |
| Programs.Program.Use | sources/Program.cpp:106-109 | the program becomes the current one only if its last link succeeded, otherwise the current program is kept; no object changes |
| Programs.Program.GetUniformLocation | sources/Program.cpp:116-119 | a name answers the location the last link gave it, and -1 when the link gave it none, whatever the uniform table holds |
| Programs.Program.GetUniform | sources/Program.cpp:121-130 | an unindexed name gives the sentinel; an indexed one gives the table entry at its stored index |
| Programs.NewCompiledShader | sources/Program.cpp:135-138 | a fresh shader of the stage holds the C string and the compiler's report; the result is the compile status |
| Programs.NewLinkedProgram | sources/Program.cpp:139-140 | a fresh program linked from exactly the two shader objects; on an accepted link its table and index are the reflection of that link |
| Programs.CompilePair | sources/Program.cpp:134-138 | two fresh, distinct shaders compiled from the two sources; success exactly when both compile; both diagnostics logged in order |
| Programs.MakeProgram | sources/Program.cpp:132-146 | non-null exactly when both compiles and the link succeed; the log holds both diagnostics and the link error in order; both shaders are deleted; on failure no program remains, on success the program holds the reflected uniforms |
| Uniforms.ApplyValue | sources/Program.cpp:148-248 | int and unsigned int accept signed/unsigned integer or sampler types, every other specialisation exactly its own type, and the generic template nothing; on success the call uses the type's entry point and the uniform's location, and passes count 1 for a matrix |
| Uniforms.Apply | sources/Program.cpp:148-248 | the checked call's value is stored in the current program at the uniform's location; location -1, a failed check or no current program leaves every program unchanged; only an unsupported type is logged |
| Text.ContainsOccurs | face_anno.py:66 | `FILTER in path` holds exactly when the filter occurs at some position of the path |
| Text.LexLeTotal | face_anno.py:25 | any two paths are ordered one way or the other |
| Text.LexLeTransitive | face_anno.py:25 | the str order is transitive |
| Text.LexLeAntisymmetric | face_anno.py:25 | two paths ordered both ways are equal |
| Text.InsertPermutes | face_anno.py:25 | inserting adds exactly the one element |
| Text.InsertSorted | face_anno.py:25 | inserting into a sorted list keeps it sorted |
| Text.SortSorted | face_anno.py:25 | `paths.sort()` yields an ascending list |
| Text.SortPermutes | face_anno.py:25 | `paths.sort()` keeps every path with its multiplicity |
| Annotation.CollectPaths | face_anno.py:22-24 | the loop collects the image paths of the walk in walk order |
| Annotation.SelectExactly | face_anno.py:24 | a directory contributes exactly the relative paths of its .jpg, .jpeg and .png files |
| Annotation.ImagePathsExactly | face_anno.py:23-24 | the walk contributes exactly what its directories contribute |
| Annotation.ImagePathsAreImages | face_anno.py:23-24 | every collected path keeps an image extension, so none is the `__banned` key |
| Annotation.SortedPathsAreImages | face_anno.py:23-25 | after sorting, every path is still an image path and none is the `__banned` key |
| Annotation.EmptyKeysOf | face_anno.py:47-50 | `to_delete` is exactly the keys other than `__banned` whose value is empty |
| Annotation.InitialAnnotationShape | face_anno.py:27-56 | after clean-up the banned set is present, no other entry is empty, no listed annotated path is banned, every non-empty saved entry survives unchanged, and the banned set only shrinks |
| Annotation.ForwardStep | face_anno.py:62-64 | each forward step brings the cursor one step further from where it started, until it has gone round once |
| Annotation.BackwardStep | face_anno.py:90-92 | each backward step brings the cursor one step further from where it started, until it has gone round once |
| Annotation.NextIndex | face_anno.py:63-64 | `(iter + 1) % n` is the next index, wrapping to 0 |
| Annotation.PrevIndex | face_anno.py:91-92 | `(iter - 1 + n) % n` is the previous index, wrapping to n - 1 |
| Annotation.App.constructor | face_anno.py:18-59 | the paths are the sorted image paths and the dictionary is the cleaned-up one; the cursor is on the first eligible path, which is shown |
| Annotation.App.CleanUp | face_anno.py:31-56 | the dictionary gains the banned set if missing, loses its empty entries, and every listed annotated path is unbanned |
| Annotation.App.DeleteKeys | face_anno.py:51-52 | exactly the collected keys are removed |
| Annotation.App.UnbanAnnotated | face_anno.py:54-56 | every listed path that has an entry leaves the banned set, and nothing else changes |
| Annotation.App.LoadNext | face_anno.py:61-71 | the cursor moves forward to the nearest eligible path, skipping only ineligible ones; that path is shown; the dictionary and drag state are unchanged |
| Annotation.App.LoadPrev | face_anno.py:89-99 | the cursor moves backward to the nearest eligible path, skipping only ineligible ones; that path is shown; nothing else changes |
| Annotation.App.LoadNextNotAnnotated | face_anno.py:73-87 | the cursor moves forward to the nearest eligible path that is unannotated or index 0; every path skipped is not such a path |
| Annotation.App.LoadPrevNotAnnotated | face_anno.py:101-115 | the cursor moves backward to the nearest eligible path that is unannotated or index 0; every path skipped is not such a path |
| Annotation.App.OnMouseButton | face_anno.py:128-151 | a press starts dragging the nearby point only when the image has points; a release moves the dragged point or appends a new one and saves; a dragged index past the end fails after the empty list was inserted |
| Annotation.App.OnMousePosition | face_anno.py:153-156 | while dragging, the point moves to the cursor; with no entry or too few points it fails and nothing changes |
| Annotation.App.OnKeyboard | face_anno.py:158-183 | each navigation key gives its loop's result; Delete drops the image's points and saves; Backspace drops the last point, if any, and saves; 'B' bans the image without saving; other keys change nothing |

## Left out

- The OpenGL driver. Compiler and linker verdicts, active uniforms and
  their locations are oracles of `GL.Context`. Which stage constants and
  sources compile is not modelled.
- spdlog formatting. Log entries are structured values, and widths such as
  `{:3d}` are not modelled.
- `Shader.h`. The VarType enumeration, `FromGLMapping`, `GetType<T>` and the
  integer, unsigned and sampler family predicates are not part of this
  model. They enter as the fields of `Uniforms.TypeTable`.
- `Program::GetAttribLocation`, a bare pass-through to the driver, for
  which the driver model has no attribute locations.
- Deferred deletion of a shader that is still attached. Every shader
  `MakeProgram` deletes has already been detached.
- Release builds, where `assert` is a no-op. A failed `ApplyValue` type
  check is an error result here, and nothing is submitted.
- The `GLsizei` cast of a vector's size, and 32-bit wrap-around of counts.
- Uniform values. `GL.UniformCall` records the entry point, location,
  count and transpose flag, not the floats or ints passed.
- GL.Context.DeleteProgram: removes the program at once, even while it is
  current. The driver only flags a current program for deletion and keeps
  it until it stops being current.
- GL.Context.SubmitUniform: stores any call at any location other than -1.
  The driver's rejections are not modelled: INVALID_OPERATION for a
  location not in the current program, a size or type mismatch, or a
  count above 1 for a non-array, and INVALID_VALUE for a negative count.
  A call the driver would reject is still recorded.
- GL.Context.CreateShader: accepts `GL_COMPUTE_SHADER` as a 4.3 context
  does, so a compute `Shader` always gets a live object. In the 3.3 Core
  Profile, and in the 3.0 or 3.2 context `main.cpp` asks for,
  `glCreateShader(GL_COMPUTE_SHADER)` is INVALID_ENUM and returns 0. The
  source would then compile and attach name 0; the model does not capture
  that.
- Shaders.Shader.constructor: requires one of the four enumerators. Any
  other value leaves the local stage uninitialised in the source.
- Programs.Program.GetUniform: requires an index entry to lie within the
  table. A stale entry past the end (see `StaleNameSurvives`) is an
  out-of-bounds read in the source.
- `main.cpp`, `build_dataset.py`, `reactor_downloader.py` and the toolkit's
  Python binding are not part of this model. Only the binding's key codes
  are used.
- Image decoding and the `ValueError` retry. Every listed image loads, and
  `shown` records which path was handed to `set_image`.
- Annotation.App.LoadNext, Annotation.App.LoadPrev,
  Annotation.App.LoadNextNotAnnotated and
  Annotation.App.LoadPrevNotAnnotated require a stopping point to exist.
  Without one, the source's `while True` never ends.
- Annotation.App.constructor requires an eligible path. With no image
  files at all, the source's `% len(self.paths)` raises ZeroDivisionError.
  With images but none eligible, its `load_next` loop never ends. It also
  requires the saved dictionary to keep the banned set under `__banned`
  and point lists elsewhere.
- Pickle and the save file. The `stored` field is the file's contents, and
  the unpickled dictionary is a constructor argument.
- `os.walk` and `os.path.relpath`. The walk is a list of directories
  relative to the library ("" for the root) with their files, and a
  relative path joins them with "/".
- The numpy nearest-point search. `OnMouseButton` takes the index argmin
  picks when that point is closer than 2, or none.
- `on_update` (drawing text and points) and `print`.
