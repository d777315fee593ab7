# Glob state-caching core, in Dafny

Glob is a thin C# layer over OpenGL 4.5 that caches GPU state, so that it
only issues calls that change something. This project models its core as
pure functions over immutable records:

- **Shader sources.** Parsing `#version`/`#include` directives, ordering
  the include graph, building the resolved GLSL unit with its table of
  line origins, and mapping a compiler log line back to a file and line.
- **Shader programs.** Compilation outcomes, and the uniform and
  block-binding caches that are replayed after every recompilation.
- **Pipelines.** The program-pipeline rebuild/bind state machine.
- **Textures.** Storage allocation, views, disposal and mip-level
  counting.
- **Stream buffers.** The fenced ring of regions in a persistently
  mapped buffer.
- **Device.** Dispatch, framebuffer binds, vertex format and source binds,
  and the rasterizer, depth and blend caches. It also covers the caches it
  owns: texture units, indexed buffer bindings, vertex attribute formats
  and blend modes.

Every OpenGL call that changes driver state, every uniform-location
query, and every line printed to the text output is an element of a
returned `seq<Gl.Event>`; the cycle errors of `GetDependencyOrder`
are the trace `ShaderSource.CycleReports`. "Issues a call iff ..." is
therefore a statement about that trace. The remaining queries are not events; their
answers are inputs. These are the link status and info log, the
uniform and storage block indices, and the buffer creation and mapping
of the `StreamBuffer` constructor. The driver's answers are
explicit inputs: `Driver` for uniform locations and block indices, and
`CompileOutcome` for the new program handle, link status, info log and
work-group size. An object reference is an `id: nat`, and a null
reference is `None`.

A thrown exception is modelled as follows:

- a `Failure` of `Result` (`NullReference`, `TooManyAttributes`,
  `Overflow`, `DivideByZero`);
- or a `thrown` flag that keeps the state reached before the throw.

Integers of C# `int` width are `Int32.int32`. Unchecked arithmetic is
wrapped explicitly with `Int32.Wrap`, and hash codes are `bv32`.

The files follow the source's structure:

- `directive_regex.dfy`, `source_parse.dfy`, `include_graph.dfy`,
  `resolved_glsl.dfy` and `shader_source.dfy` model `ShaderSource`:
  the directive regexes, `Parse`, the dependency order, the resolved
  unit, and all of them composed;
- `resolved_shader.dfy` models `ResolvedShader`;
- `shader_log.dfy` and `shader.dfy` model `Shader`;
- `uniform.dfy` models `Uniform`;
- `shader_pipeline.dfy` models `ShaderPipeline`;
- `texture.dfy` models `Texture`;
- `stream_buffer.dfy` models `StreamBuffer`;
- `blend_state.dfy`, `texture_unit_state.dfy`,
  `buffer_binding_manager.dfy` and `vertex_buffer_format.dfy` model the
  `States` classes;
- `device.dfy` models `Device`.

The helper modules are `wrappers.dfy`, `int32.dfy`, `text.dfy`,
`ordered_map.dfy` (a `Dictionary` that enumerates in insertion order) and
`gl.dfy` (the event vocabulary).

## Model

| member | source | states |
|---|---|---|
| DirectiveRegex.MatchAt | Glob/Shaders/ShaderSource.cs:64 | the match at a directive start begins there, its keyword follows the leading whitespace, and it lies inside the text |
| DirectiveRegex.MatchAtSplits | Glob/Shaders/ShaderSource.cs:64 | the match found is a way of matching `^\s*\#keyword\s+(.*?)\s*$` in multiline mode |
| DirectiveRegex.SplitIsDirective | Glob/Shaders/ShaderSource.cs:64 | the pattern can match at a position only where a directive starts |
| DirectiveRegex.MatchAtIsFirst | Glob/Shaders/ShaderSource.cs:64 | of all ways to match at a position, the one found is first in backtracking order: longest `\s+`, then shortest lazy group, then longest trailing `\s*` |
| DirectiveRegex.MatchCoversLine | Glob/Shaders/ShaderSource.cs:64 | a match starts with whitespace only and reaches at least the end of its keyword's line |
| DirectiveRegex.NextDirective | Glob/Shaders/ShaderSource.cs:64 | the first directive start at or after a position, and none before it |
| DirectiveRegex.MatchesFrom | Glob/Shaders/ShaderSource.cs:64 | the matches lie in the text in order, without overlap |
| DirectiveRegex.MatchesFound | Glob/Shaders/ShaderSource.cs:64 | every match of the scan is the first-order match at a directive start |
| DirectiveRegex.MatchesCover | Glob/Shaders/ShaderSource.cs:82 | every directive start lies inside some match, which reaches the end of its keyword's line |
| DirectiveRegex.EveryDirectiveCovered | Glob/Shaders/ShaderSource.cs:82 | the same, for every directive of the text |
| DirectiveRegex.CoveringMatch | Glob/Shaders/ShaderSource.cs:82 | the index of the match holding a given directive start |
| DirectiveRegex.PiecesRestore | Glob/Shaders/ShaderSource.cs:96-106 | the replacement's pieces, with the comment delimiters removed, are the input |
| DirectiveRegex.ReplaceRestores | Glob/Shaders/ShaderSource.cs:96-106 | `Regex.Replace` with the `/* ... */` evaluator loses nothing and keeps every line break |
| DirectiveRegex.CommentedAreMatches | Glob/Shaders/ShaderSource.cs:96-106 | the commented pieces are exactly the matches, in order, between kept text |
| DirectiveRegex.GroupShape | Glob/Shaders/ShaderSource.cs:64-68 | a captured argument lies on one line and has no whitespace at either end |
| DirectiveRegex.SingleMatch | Glob/Shaders/ShaderSource.cs:64-106 | a text with one match has one group, and its replacement wraps exactly the matched text |
| DirectiveRegex.BlankLineAfterExample | Glob/Shaders/ShaderSource.cs:99-106 | `#version 450`, a blank line and code: the trailing `\s*` takes the blank line's break, so the comment closes on that line |
| DirectiveRegex.BlankLineBeforeExample | Glob/Shaders/ShaderSource.cs:62-64 | a blank line before `#version 450` is taken by the leading `^\s*`, so the comment opens on it |
| DirectiveRegex.ArgumentOnNextLineExample | Glob/Shaders/ShaderSource.cs:82 | an `#include` with nothing after it on its line takes the next line as its argument |
| SourceParse.IncludePaths | Glob/Shaders/ShaderSource.cs:82-88 | one path per `#include` match |
| SourceParse.VersionMessages | Glob/Shaders/ShaderSource.cs:66-80 | one debug message when there is no `#version`, one warning when there are several, nothing for exactly one |
| SourceParse.Parse | Glob/Shaders/ShaderSource.cs:59-107 | the version is group 1 of the first `#version` match or the default, with the matching message; the includes are the trimmed `#include` groups in match order; the parsed code keeps the line count |
| SourceParse.CreateNullSource | Glob/Shaders/ShaderSource.cs:50-57 | a single empty line, no dependencies, the given version |
| SourceParse.ParsedCodeRestores | Glob/Shaders/ShaderSource.cs:94-106 | each pass, with its delimiters removed, gives back its input (the CRLF-normalised source, then the first pass's output); the line count is the source's |
| SourceParse.ParsedCodeCommentsDirectives | Glob/Shaders/ShaderSource.cs:94-106 | every `#include` of the normalised source, and every `#version` left after the first pass, lies inside a commented match reaching the end of its keyword's line |
| IncludeGraph.Bump | Glob/Shaders/ShaderSource.cs:111-114 | a new file is recorded at `level` and appended to the discovery order; a known file keeps its place and gets the larger of its level and `level`; nothing else changes |
| IncludeGraph.Visit | Glob/Shaders/ShaderSource.cs:109-130 | the visited file is recorded at least `level` deep; only graph nodes are added; no recorded level decreases |
| IncludeGraph.VisitAll | Glob/Shaders/ShaderSource.cs:124-127 | every dependency is recorded at least `level` deep; levels only grow |
| IncludeGraph.VisitKeepsWellFormed | Glob/Shaders/ShaderSource.cs:111-114 | the order dictionary lists every file once, exactly when it has a level |
| IncludeGraph.ReachableFilesExactly | Glob/Shaders/ShaderSource.cs:109-141 | the emitted files are exactly those reachable from the entry, each once |
| IncludeGraph.AcyclicGraphIsLayered | Glob/Shaders/ShaderSource.cs:109-130 | in an acyclic graph no cycle is reported, and every included file sits deeper than every file including it |
| IncludeGraph.DependenciesComeFirst | Glob/Shaders/ShaderSource.cs:139-171 | in an acyclic graph every file is emitted before each file that includes it |
| IncludeGraph.SortDesc | Glob/Shaders/ShaderSource.cs:141 | the result is a permutation of the discovery order |
| IncludeGraph.SortDescSorted | Glob/Shaders/ShaderSource.cs:141 | the order is by descending level |
| IncludeGraph.InsertSorted | Glob/Shaders/ShaderSource.cs:141 | stable insertion keeps descending order |
| IncludeGraph.InsertStable | Glob/Shaders/ShaderSource.cs:141 | insertion puts a file after every file of its own level |
| IncludeGraph.SortDescStable | Glob/Shaders/ShaderSource.cs:141 | the sort is stable: the files of each level keep their discovery order |
| IncludeGraph.LevelIsLongestPath | Glob/Shaders/ShaderSource.cs:109-141 | in an acyclic graph the entry is at level 0 and every other file one below its deepest includer: its level is the longest include path from the entry |
| IncludeGraph.SortDescDistinct | Glob/Shaders/ShaderSource.cs:141 | sorting keeps the files distinct |
| IncludeGraph.MutualIncludeExample | Glob/Shaders/ShaderSource.cs:116-120 | two files including each other: one cycle reported for the entry, and the entry emitted first |
| IncludeGraph.DiamondExample | Glob/Shaders/ShaderSource.cs:109-141 | a shared include is recorded once at the deepest level and emitted first; ties keep discovery order |
| ResolvedGlsl.CountLinesIsLineCount | Glob/Shaders/ShaderSource.cs:180-189 | the count is the number of pieces the text splits into at '\n', so at least one |
| ResolvedGlsl.ResolvedCodeLines | Glob/Shaders/ShaderSource.cs:143-171 | the unit's lines are the preamble lines, then a marker line and the parsed code's lines of each file in order |
| ResolvedGlsl.PreambleLineCount | Glob/Shaders/ShaderSource.cs:145-152 | the preamble is one version line, the header's lines and one line per macro |
| ResolvedGlsl.GetResolvedGlslAsWritten | Glob/Shaders/ShaderSource.cs:135-178 | the table as the source builds it: header row at 0, then one row per file, with no row for the macros |
| ResolvedGlsl.GetResolvedGlsl | Glob/Shaders/ShaderSource.cs:135-178 | the corrected table, which counts the macro lines; starts strictly increasing; one row per file |
| ResolvedGlsl.ResolvedLineProvenance | Glob/Shaders/ShaderSource.cs:158-171 | with the corrected table, the unit's lines from file k's start are exactly file k's parsed lines, and all of them select file k's row |
| ResolvedGlsl.FileLineOrigin | Glob/Shaders/ResolvedShader.cs:23-32 | with the corrected table, unit line `start + j` of file k's row is reported as line j of file k, for every line j of its code |
| ResolvedGlsl.AsWrittenShiftedByMacros | Glob/Shaders/ShaderSource.cs:151-158 | as written, every file row starts one line earlier per macro than its code |
| ResolvedGlsl.AsWrittenAgreesIffNoMacros | Glob/Shaders/ShaderSource.cs:149-167 | the written and corrected tables agree exactly when there are no macros or no files |
| ResolvedGlsl.MacroMisattributionExample | Glob/Shaders/ShaderSource.cs:149-167 | one macro and one single-line file: the written table attributes unit line 4 to the right file but at line 1 of it instead of line 0 |
| ShaderSource.Resolve | Glob/Shaders/ShaderSource.cs:135-178 | the unit built from the entry's dependency order has a header row at line 0 and one row per ordered file, starting at strictly increasing lines |
| ShaderSource.CycleReports | Glob/Shaders/ShaderSource.cs:109-120 | one `Error` line "Shader source file f contains cyclical dependency!" per file the walk reaches again on its own include path, in the order reached |
| ShaderSource.AcyclicPrintsNothing | Glob/Shaders/ShaderSource.cs:115-119 | an acyclic include graph prints no cycle error |
| ShaderSource.SelfIncludePrintsOnce | Glob/Shaders/ShaderSource.cs:109-130 | a file including itself prints one cycle error naming it, and is still emitted once |
| ShaderSource.ResolveRows | Glob/Shaders/ShaderSource.cs:137-167 | after the header row, row k names the k-th file of the dependency order; no file has two rows; a file has a row exactly when it is reachable from the entry |
| ShaderSource.IncludesPrecedeIncluders | Glob/Shaders/ShaderSource.cs:137-171 | in an acyclic include graph, every included file's code starts in the unit before the code of each file including it |
| ResolvedShader.SelectBlock | Glob/Shaders/ResolvedShader.cs:25-30 | the loop stops at the block satisfying the stopping condition |
| ResolvedShader.SelectionIsUnique | Glob/Shaders/ResolvedShader.cs:25-30 | only one block satisfies the loop's stopping condition |
| ResolvedShader.SelectsContainingBlock | Glob/Shaders/ResolvedShader.cs:23-32 | with increasing starts, the selected block is the last one starting at or before the line |
| ResolvedShader.OffsetWithinBlock | Glob/Shaders/ResolvedShader.cs:31 | the reported offset is non-negative and below the distance to the next block |
| ResolvedShader.OriginWithinBlock | Glob/Shaders/ResolvedShader.cs:23-32 | line j of block i is reported as line j in that block's name |
| ResolvedShader.PastLastBlock | Glob/Shaders/ResolvedShader.cs:26-30 | every line from the last start on maps to the last block |
| ResolvedShader.BeforeFirstBlock | Glob/Shaders/ResolvedShader.cs:25-31 | a line before the first start is reported against block 0 at a negative offset |
| ResolvedShader.LineOriginExample | Glob/Shaders/ResolvedShader.cs:23-32 | with rows at 0, 3 and 10, unit line 12 is reported as "line 2 in b.glsl" |
| ShaderLog.SplitLog | Glob/Shaders/Shader.cs:75 | at least one piece, and no piece holds a `\r` or `\n` |
| ShaderLog.SplitLogOfJoin | Glob/Shaders/Shader.cs:75 | splitting undoes a `\n` join of break-free lines |
| ShaderLog.SplitLogAtSeparator | Glob/Shaders/Shader.cs:75 | `\r\n`, a lone `\r` and `\n` each end one line |
| ShaderLog.ReportedLine | Glob/Shaders/Shader.cs:82-94 | the labelled form `ERROR:...:N:` wins; otherwise the terse form `0(N)` gives N-1; there is no line exactly when neither form matches |
| ShaderLog.LastColonNumber | Glob/Shaders/Shader.cs:82 | the greedy `.*` makes the match use the last `:N:` after `ERROR:`; no later position matches |
| ShaderLog.ReportLength | Glob/Shaders/Shader.cs:80-95 | the report has one line per log line plus one `At:` line per located log line |
| ShaderLog.ReportShape | Glob/Shaders/Shader.cs:80-95 | each log line is echoed in order, followed by `At: ` and its origin exactly when it names a line |
| ShaderLog.LastNumberWinsExample | Glob/Shaders/Shader.cs:82 | in `ERROR: 0:1:2:` both `:1:` and `:2:` are candidates, and the later one gives line 2 |
| ShaderLog.OverflowsIffOutOfRange | Glob/Shaders/Shader.cs:86-91 | `int.Parse` throws exactly when the reported line would not be an `int` |
| ShaderLog.FirstOverflow | Glob/Shaders/Shader.cs:80-91 | the first log line whose number overflows, with none before it; none when no line overflows |
| ShaderLog.Diagnostic | Glob/Shaders/Shader.cs:75-95 | `OverflowException` exactly when some log line's number exceeds `int.MaxValue`; otherwise the annotated report |
| ShaderLog.TerseOverflowBoundary | Glob/Shaders/Shader.cs:83-91 | `0(n)` names line n-1, and the diagnostic throws exactly when n exceeds `int.MaxValue` |
| ShaderLog.TerseFormExample | Glob/Shaders/Shader.cs:83-93 | the terse form is one-based |
| ShaderProgram.NewShader | Glob/Shaders/Shader.cs:40-52 | no program, not valid, all caches empty |
| ShaderProgram.GetUniformLocation | Glob/Shaders/Shader.cs:182-198 | a cached name is answered from the cache; an uncached name on an invalid program gives 0 uncached; otherwise the driver is asked once and the answer cached |
| ShaderProgram.LocationLookupIsCached | Glob/Shaders/Shader.cs:184-196 | a second lookup of the same name issues nothing and returns the same location |
| ShaderProgram.SetUniform | Glob/Shaders/Shader.cs:200-219 | the value is always stored (new names appended); a call is issued iff the program is valid and the stored value was not `Equals` to the new one |
| ShaderProgram.SetUniformTwice | Glob/Shaders/Shader.cs:202-218 | setting the same value again issues nothing and changes nothing |
| ShaderProgram.SetUniformIssuesChanges | Glob/Shaders/Shader.cs:215-218 | a different value on a valid program is issued at the cached or queried location |
| ShaderProgram.SetFreshUniform | Glob/Shaders/Shader.cs:200-218 | a new name on a valid program queries, caches and sets; on an invalid one it is only stored |
| ShaderProgram.UniformBlockBinding | Glob/Shaders/Shader.cs:154-166 | the binding is recorded (new names appended) and always issued with the driver's block index |
| ShaderProgram.ShaderStorageBlockBinding | Glob/Shaders/Shader.cs:168-180 | the same for storage blocks, with the program-resource index |
| ShaderProgram.FinalizeCompilation | Glob/Shaders/Shader.cs:126-150 | every table ends as it began; the location cache holds exactly the replayed uniforms of a valid program; each entry is reissued once, in enumeration order |
| ShaderProgram.ReplayUniforms | Glob/Shaders/Shader.cs:129-136 | clearing and re-setting the uniforms restores the table and issues a query and a set per uniform on a valid program |
| ShaderProgram.ReplayBlockBindings | Glob/Shaders/Shader.cs:137-142 | clearing and re-binding restores the table and issues one call per binding |
| ShaderProgram.ReplayStorageBindings | Glob/Shaders/Shader.cs:144-149 | the same for storage block bindings |
| ShaderProgram.ReplayLengths | Glob/Shaders/Shader.cs:126-150 | two calls per uniform on a valid program and none on an invalid one; one call per binding |
| ShaderProgram.CompileFromSource | Glob/Shaders/Shader.cs:54-124 | valid iff linked; a positive old handle is deleted; a failed link deletes the new program, sets handle 0 and prints the annotated log, or throws after the delete when a line number overflows; the work-group size is read only for a compute program that exists; an existing program is labelled and replayed |
| ShaderProgram.FailLink | Glob/Shaders/Shader.cs:66-98 | a failed link leaves the shader invalid at handle 0 and prints the error, deletes the program and prints the translated log, or throws exactly when the translation overflows, before the log and the work-group reset |
| ShaderProgram.LinkProgram | Glob/Shaders/Shader.cs:100-123 | a link to an existing program makes the shader valid on it, keeps the work-group size only for compute, and replays every cache against it |
| ShaderProgram.CompileThenSetUniform | Glob/Shaders/Shader.cs:54-150 | after a recompilation the uniform cache is intact: a set issues calls exactly when the link succeeded and the value differs from the cached one |
| Uniform.EqualsIsValueEquality | Glob/Shaders/Uniform.cs:24-37 | two values are `Equals` exactly when they have the same runtime type and the same payload |
| Uniform.EqualsNullIsFalse | Glob/Shaders/Uniform.cs:26 | no value equals null |
| Uniform.DifferentKindsNeverEqual | Glob/Shaders/Uniform.cs:35 | values of different runtime types are never equal |
| Uniform.FloatIsNotInt | Glob/Shaders/Uniform.cs:35 | a float and an int holding the same number are different values |
| Uniform.EqualsIsSymmetric | Glob/Shaders/Uniform.cs:31-37 | equality is symmetric |
| Uniform.EqualsUniformAgrees | Glob/Shaders/Uniform.cs:54-57 | `Equals(IUniformValue)` agrees with `Equals(object)` |
| Uniform.NotEqualsNegates | Glob/Shaders/Uniform.cs:44-52 | `!=` is the negation of `==`, and `==` is null-safe value equality |
| Uniform.EqualValuesHashEqually | Glob/Shaders/Uniform.cs:39-42 | equal values have equal hash codes |
| Uniform.Int2EqualsIsComponentwise | Glob/Shaders/Uniform.cs:131-134 | `Int2.Equals` compares both components |
| Uniform.Int3EqualsIsComponentwise | Glob/Shaders/Uniform.cs:150-153 | `Int3.Equals` compares all three components |
| Uniform.Int4EqualsIsComponentwise | Glob/Shaders/Uniform.cs:171-174 | `Int4.Equals` compares all four components |
| ShaderPipelines.EqualsIsSlotwise | Glob/Shaders/ShaderPipeline.cs:87-92 | descriptions are equal exactly when every stage holds the same shader or both hold null |
| ShaderPipelines.EqualsNullIsFalse | Glob/Shaders/ShaderPipeline.cs:89 | no description equals null |
| ShaderPipelines.EqualDescriptionsHashEqually | Glob/Shaders/ShaderPipeline.cs:102-114 | equal descriptions have equal hash codes |
| ShaderPipelines.NotEqualsNegates | Glob/Shaders/ShaderPipeline.cs:116-124 | `!=` is the negation of `==` |
| ShaderPipelines.EmptyDescriptionHash | Glob/Shaders/ShaderPipeline.cs:104-112 | the all-null description hashes to 0 |
| ShaderPipelines.NewPipeline | Glob/Shaders/ShaderPipeline.cs:17-21 | handle 0, marked for rebuild |
| ShaderPipelines.Build | Glob/Shaders/ShaderPipeline.cs:42-62 | the flag is cleared, a positive old handle deleted, a new one generated, and each non-null stage attached |
| ShaderPipelines.AttachIsExact | Glob/Shaders/ShaderPipeline.cs:50-61 | a stage is attached iff its slot is non-null, with that shader's program |
| ShaderPipelines.Bind | Glob/Shaders/ShaderPipeline.cs:23-40 | a pipeline marked for rebuild is built and bound; otherwise it is bound only when it is not the device's current one; either way it becomes current |
| ShaderPipelines.FirstBindBuilds | Glob/Shaders/ShaderPipeline.cs:17-40 | the first bind builds without deleting anything |
| ShaderPipelines.BindIsIdempotent | Glob/Shaders/ShaderPipeline.cs:34-38 | binding the current pipeline again issues nothing |
| ShaderPipelines.RebuildShaderPipeline | Glob/Shaders/ShaderPipeline.cs:64-67 | only the rebuild flag changes |
| ShaderPipelines.RebuildThenBind | Glob/Shaders/ShaderPipeline.cs:25-29 | after a rebuild request the next bind deletes the old pipeline and builds a new one |
| ShaderPipelines.Dispose | Glob/Shaders/ShaderPipeline.cs:69-75 | a positive handle is deleted; the handle becomes 0 and the flag is cleared |
| ShaderPipelines.BindAfterDispose | Glob/Shaders/ShaderPipeline.cs:69-75 | a disposed pipeline is not rebuilt by a later bind: handle 0 is bound |
| Blending.NewBlendMode | Glob/States/BlendState.cs:59-67 | the factors are as given and both equations default to `FuncAdd` |
| Blending.DefaultBlendState | Glob/States/BlendState.cs:12-16 | all colour channels are writable and the mode is `Overwrite` |
| Blending.BlendingDisabledOnlyForOverwrite | Glob/States/BlendState.cs:47-57 | blending is disabled exactly for the `Overwrite` mode |
| Blending.Presets | Glob/States/BlendState.cs:111-121 | `Overwrite` disables blending; `Additive` and `AlphaBlending` enable it |
| Blending.EqualsIsFieldwise | Glob/States/BlendState.cs:69-74 | modes are equal exactly when all six fields agree; never equal to null |
| Blending.EqualModesHashEqually | Glob/States/BlendState.cs:84-96 | equal modes have equal hash codes |
| Blending.NotEqualsNegates | Glob/States/BlendState.cs:98-106 | `!=` is the negation of `==` |
| Blending.FactorValueInjective | Glob/States/BlendState.cs:88-91 | distinct blend factors have distinct OpenGL values |
| TextureUnits.Invalidate | Glob/States/TextureUnitState.cs:24-31 | no active unit, and every one of the 32 slots empty |
| TextureUnits.GetCurrentBinding | Glob/States/TextureUnitState.cs:33-43 | throws outside the 32 units; an empty slot reads as texture 0 on `Texture2D` |
| TextureUnits.UseTextureUnit | Glob/States/TextureUnitState.cs:61-68 | `ActiveTexture` is issued iff the unit changes and is not negative; the unit becomes active either way |
| TextureUnits.EffectiveUnit | Glob/States/TextureUnitState.cs:47-48 | a negative unit means the last unit |
| TextureUnits.BindTexture | Glob/States/TextureUnitState.cs:45-59 | the unit is activated first; a unit past 31 throws with the bindings unchanged; otherwise the slot holds the binding, and `BindTexture` is issued iff it differed |
| TextureUnits.BindingEqualsIsFieldwise | Glob/States/TextureUnitState.cs:81-102 | bindings are equal exactly when target and texture agree, never equal to null, and equal bindings hash equally |
| TextureUnits.BindTextureTwice | Glob/States/TextureUnitState.cs:52-58 | repeating a bind issues nothing and changes nothing |
| TextureUnits.BindTextureTouchesOneSlot | Glob/States/TextureUnitState.cs:54-58 | a bind changes only its own slot |
| TextureUnits.InvalidateForcesBind | Glob/States/TextureUnitState.cs:24-31 | after `Invalidate` every bind in range issues `ActiveTexture` and `BindTexture` |
| TextureUnits.BindThenGet | Glob/States/TextureUnitState.cs:33-59 | a bound texture is what `GetCurrentBinding` then reports |
| BufferBindings.Invalidate | Glob/States/BufferBindingManager.cs:17-20 | every target's array is dropped |
| BufferBindings.EnsureArray | Glob/States/BufferBindingManager.cs:24-25 | a missing target gets 32 empty binding points; an existing one is kept |
| BufferBindings.Bind | Glob/States/BufferBindingManager.cs:22-61 | a point outside 0..31 throws once the array exists; otherwise the call is issued and recorded iff the slot is empty or any of buffer, offset and size differ |
| BufferBindings.BindTouchesOneSlot | Glob/States/BufferBindingManager.cs:28-32 | a bind changes no other slot of any target |
| BufferBindings.BindIsIdempotent | Glob/States/BufferBindingManager.cs:41-45 | after a bind the slot holds it, and repeating it issues nothing |
| BufferBindings.InvalidateForcesBind | Glob/States/BufferBindingManager.cs:17-20 | after `Invalidate` every bind in range is issued |
| BufferBindings.BaseDiffersFromRange | Glob/States/BufferBindingManager.cs:27-33 | a base bind after a non-zero range bind of the same buffer is issued again |
| VertexFormats.NewAttribAsWritten | Glob/States/VertexBufferFormat.cs:103-114 | as written the index check reads the unassigned field and never fails |
| VertexFormats.NewAttrib | Glob/States/VertexBufferFormat.cs:103-114 | the corrected constructor fails iff the index is 16 or more |
| VertexFormats.AttribIndexCheckIsIneffective | Glob/States/VertexBufferFormat.cs:105-106 | index 40 passes the written check, and its mask bit coincides with index 8's |
| VertexFormats.AttribEqualsIsFieldwise | Glob/States/VertexBufferFormat.cs:139-167 | attributes are equal exactly when all fields agree; never equal to null; equal ones hash equally |
| VertexFormats.AttribNotEqualsNegates | Glob/States/VertexBufferFormat.cs:169-177 | `!=` is the negation of `==` |
| VertexFormats.AttribBind | Glob/States/VertexBufferFormat.cs:116-137 | the format call matches the data class (I, L or plain), followed by the binding call |
| VertexFormats.AttribBit | Glob/States/VertexBufferFormat.cs:39 | `1 << index` sets exactly bit `index mod 32` |
| VertexFormats.MaskOfBits | Glob/States/VertexBufferFormat.cs:36-40 | bit j of the mask is set iff some attribute's index is j modulo 32 |
| VertexFormats.NewFormat | Glob/States/VertexBufferFormat.cs:28-41 | null gives no attributes and an empty mask; more than 16 attributes throws; otherwise the mask has exactly the attributes' bits |
| VertexFormats.MaskDiff | Glob/States/VertexBufferFormat.cs:47-48 | the disable and enable masks are disjoint, and applying them to the old mask gives the new one |
| VertexFormats.Bind | Glob/States/VertexBufferFormat.cs:43-80 | with no old format every attribute is enabled (twice) and bound; otherwise only changed indices below 16 are disabled or enabled, then all are enabled and bound |
| VertexFormats.BindEnablesExactly | Glob/States/VertexBufferFormat.cs:43-80 | after a bind from a previous format the enabled arrays are exactly the new format's; from none, the new ones are added to what was enabled |
| Textures.NewTexture | Glob/Textures/Texture.cs:26-32 | a texture of the given handle and target, not a view |
| Textures.CountLevels | Glob/Textures/Texture.cs:210-221 | at least one level |
| Textures.CountLevelsIsLog2 | Glob/Textures/Texture.cs:210-221 | for a positive width, `2^(levels-1) <= width < 2^levels` |
| Textures.Log2IsUnique | Glob/Textures/Texture.cs:210-221 | that bracket determines the level count |
| Textures.SmallWidthHasOneLevel | Glob/Textures/Texture.cs:213-214 | widths of 1 or less have one level |
| Textures.CountLevelsMonotone | Glob/Textures/Texture.cs:210-221 | a wider texture never has fewer levels |
| Textures.LargestAxisDecides | Glob/Textures/Texture.cs:226-237 | the 2D and 3D counts are the count of the largest axis |
| Textures.OnTextureStorage | Glob/Textures/Texture.cs:178-196 | format, levels, samples and size are recorded, the view fields reset to -1, and the object labelled |
| Textures.TexStorage1D | Glob/Textures/Texture.cs:40-47 | levels 0 means the full chain; storage is allocated, then recorded with height and depth 0 |
| Textures.TexStorage2D | Glob/Textures/Texture.cs:56-63 | as above in two dimensions, with depth 0 |
| Textures.TexStorage3D | Glob/Textures/Texture.cs:86-93 | as above in three dimensions |
| Textures.TexStorage2DMultisample | Glob/Textures/Texture.cs:72-76 | one level with the given sample count |
| Textures.TexStorage3DMultisample | Glob/Textures/Texture.cs:103-107 | one level with the given sample count |
| Textures.DefaultLevelsReachOneTexel | Glob/Textures/Texture.cs:56-63 | the default chain halves the largest axis down to exactly one texel |
| Textures.TextureView | Glob/Textures/Texture.cs:158-176 | a null original throws `NullReferenceException` before any call; otherwise one `TextureView` call, and the view records its original and range, with its size the original's shifted right by `minLevel` |
| Textures.ViewDropsLevels | Glob/Textures/Texture.cs:167-172 | a view from level k has k fewer levels than the original's full chain |
| Textures.ViewOfFullChain | Glob/Textures/Texture.cs:158-172 | a view from level k of a texture has k fewer levels than the original's full chain, and a null original is refused |
| Textures.Dispose | Glob/Textures/Texture.cs:201-205 | the texture is deleted and its handle set to -1 |
| Textures.StorageEndsView | Glob/Textures/Texture.cs:178-196 | allocating storage on a view clears its view fields |
| StreamBuffers.NewStreamBuffer | Glob/StreamBuffer.cs:55-78 | the frame total grows by the size with wrap-around; a negative buffering level throws; otherwise position 0 and no fences |
| StreamBuffers.CurrentOffset | Glob/StreamBuffer.cs:53 | the wrapped product of size and position |
| StreamBuffers.OffsetWithinBuffer | Glob/StreamBuffer.cs:53 | without overflow, the region lies inside the buffer |
| StreamBuffers.Advance | Glob/StreamBuffer.cs:84-91 | level 0 throws; otherwise the old fence of the slot is waited on if present, replaced by the new one, and the position moves to the next slot |
| StreamBuffers.AdvanceAllPosition | Glob/StreamBuffer.cs:84-91 | n advances within one turn move the position n slots ahead, cyclically |
| StreamBuffers.FullCycleReturns | Glob/StreamBuffer.cs:84-91 | `level` advances return to the starting slot |
| StreamBuffers.AdvanceAllFences | Glob/StreamBuffer.cs:87-89 | after a turn each slot holds the fence given when it was left |
| StreamBuffers.WaitsOnPreviousUse | Glob/StreamBuffer.cs:86-87 | after a full turn, the next advance waits on the fence of the region about to be reused |
| Devices.DefaultRasterizerState | Glob/States/RasterizerState.cs:1-31 | back-face culling and filled polygons |
| Devices.DefaultDepthState | Glob/States/DepthState.cs:1-24 | depth test `Always`, no depth writes |
| Devices.NewDevice | Glob/Device.cs:104-109 | default rasterizer, depth and blend states are recorded as current, with fresh texture-unit and buffer caches |
| Devices.Invalidate | Glob/Device.cs:139-152 | every cached state becomes null, the framebuffers -1, and the sub-caches are invalidated |
| Devices.BindFrameBuffer | Glob/Device.cs:223-254 | null throws; a bind is issued and recorded iff the target's cached handle differs; other targets are untouched |
| Devices.BindFrameBufferTwice | Glob/Device.cs:223-254 | the second identical bind reports no change |
| Devices.InvalidateForcesFramebufferBind | Glob/Device.cs:146-148 | after `Invalidate` every framebuffer bind is issued |
| Devices.DivInt | Glob/Device.cs:210-212 | C# `int` division: truncating, throwing for zero, and overflowing for `MinValue / -1` |
| Devices.GroupCountIsCeiling | Glob/Device.cs:210-212 | for positive sizes and no overflow, the group count is the ceiling of threads over size |
| Devices.DispatchComputeGroups | Glob/Device.cs:194-198 | no compute shader throws; a dispatch is issued iff the shader is valid |
| Devices.DispatchComputeThreads | Glob/Device.cs:204-215 | the group counts are the rounded-up divisions, then dispatched as above |
| Devices.InvalidShaderNeverDispatches | Glob/Device.cs:196-197 | an invalid shader issues nothing |
| Devices.DispatchCoversThreads | Glob/Device.cs:204-215 | for a valid shader and positive sizes, the dispatched groups cover every thread |
| Devices.BindVertexFormat | Glob/Device.cs:307-314 | nothing happens for the current format; otherwise a null format throws, and a non-null one is bound against the previous one and becomes current |
| Devices.BindVertexFormatTwice | Glob/Device.cs:309-313 | rebinding the current format issues nothing |
| Devices.InvalidateRebindsFormat | Glob/Device.cs:149 | after `Invalidate` the format is bound in full, with nothing disabled |
| Devices.BindVertexBufferSource | Glob/Device.cs:319-324 | a different source is bound, and a null one then throws; otherwise the source becomes current, whether or not it was bound |
| Devices.BindVertexBufferSourceTwice | Glob/Device.cs:321 | rebinding the current source issues nothing |
| Devices.RasterizerEventsAsWritten | Glob/Device.cs:339-386 | as written nothing is issued when the cull mode is unchanged, even if polygon modes differ |
| Devices.RasterizerEvents | Glob/Device.cs:339-386 | the corrected binding checks cull and polygon modes separately |
| Devices.CullToggleOnlyOnSwitch | Glob/Device.cs:349-361 | `Enable`/`Disable(CullFace)` is issued only when culling switches on or off |
| Devices.BindRasterizerState | Glob/Device.cs:339-386 | null throws; the state becomes current, with the corrected calls |
| Devices.BindRasterizerStateAsWritten | Glob/Device.cs:339-386 | as written: null throws; the state becomes current, with the written calls |
| Devices.RasterizerAsWrittenAgreement | Glob/Device.cs:347-383 | the written and corrected binds leave the same device, and issue the same calls exactly when the cull setting changes, nothing was cached, the state is the same, or no polygon call is needed |
| Devices.RasterizerBindMirrors | Glob/Device.cs:339-386 | after the calls the driver's cull and polygon state match the new state, whatever the cache held |
| Devices.RasterizerAsWrittenKeepsPolygonMode | Glob/Device.cs:347-383 | as written, switching only the polygon mode to lines leaves the driver filling |
| Devices.BindDepthState | Glob/Device.cs:391-418 | the state becomes current; depth function and mask are issued when they differ |
| Devices.DepthBindMirrors | Glob/Device.cs:391-418 | after the calls the driver's depth state matches the new state |
| Devices.BindDepthStateTwice | Glob/Device.cs:396-417 | rebinding the current depth state issues nothing |
| Devices.BlendEventsAsWritten | Glob/Device.cs:423-456 | as written, with nothing cached the mask, `Enable`, `Disable`, function and equation are all issued |
| Devices.BlendEvents | Glob/Device.cs:423-456 | the corrected calls, equal to the written ones whenever a state is cached |
| Devices.BindBlendState | Glob/Device.cs:423-456 | the state becomes current, with the corrected calls |
| Devices.BindBlendStateAsWritten | Glob/Device.cs:423-456 | as written: the state becomes current, with the written calls |
| Devices.BlendAsWrittenAfterInvalidate | Glob/Device.cs:423-456 | after `Invalidate` the written bind issues mask, `Enable`, `Disable`, function and equation; the corrected one issues the single switch the mode asks for; with a cached state the two agree |
| Devices.BlendBindMirrors | Glob/Device.cs:423-456 | after the corrected calls the driver's mask, blend switch, function and equation match the new state |
| Devices.BlendAsWrittenDisablesAfterInvalidate | Glob/Device.cs:436-439 | as written, the first blend bind after `Invalidate` leaves blending disabled |
| Devices.AlphaBlendingAfterInvalidate | Glob/Device.cs:436-439 | so alpha blending bound after `Invalidate` is not in effect |
| Devices.BlendRebindIssuesNothing | Glob/Device.cs:427-455 | rebinding the current blend state issues nothing |

## Left out

- **The driver.** OpenGL is not executed. Every state-changing call is
  an event in a returned trace. Driver answers (handles, link status,
  logs, uniform locations, block indices, work-group size, fence
  objects) are inputs. The queries `GetProgramInfoLog`,
  `GetProgram(LinkStatus)`, `GetUniformBlockIndex` and
  `GetProgramResourceIndex` issue no event.
- **ShaderRepository and the file watcher.** Neither is part of this
  model. The include graph is given as a map from file to its includes,
  which is what `AddDependency` builds.
- **The `\r?` of the `#include` replacement.** It is folded into the
  preceding `\s*`, which already takes a `\r`, so both patterns end
  their matches at the same place.
- **Dependencies as a set.** `Dependencies` is a `HashSet`, so a file
  included twice is one dependency in the source. The include graph keeps
  each file's includes as a sequence, in which a repeated include is
  visited twice and can repeat a cycle report. `AddDependency` and the
  set's enumeration order are not part of this model.
- **Environment.NewLine.** `AppendLine` ends each line of the resolved
  unit and of the compile report with `\n`. On Windows
  `Environment.NewLine` is `\r\n`, so the printed report and the unit
  text differ there by a `\r` before each break.
- **Devices.BindVertexBufferSource.** The source's own bind (a
  `VertexBufferSource` that issues `BindVertexBuffers` over its buffer
  list) is one `BindVertexBuffers(id)` event.
- **Uniform payloads and Device.cs methods.**
  - `Uniform` payloads are opaque values with value equality. IEEE float
    equality and the OpenTK vector and matrix types are not modelled.
  - `Set` is the `SetUniform` event.
  - The typed `SetUniformF/I/D` wrappers only construct a value, so they
    are not modelled separately.
  - `Print`, `GetShader`, `Update`, `BindPipeline` and
    `BindFrameBufferPushViewport` are not modelled.
  - `BindVertexBuffer` and `BindImage*` are not modelled either: they
    only forward to other classes.
  - `Device.BindTexture` and `Device.BindBufferBase/Range` are one-line
    delegations to `TextureUnits.BindTexture` and `BufferBindings.Bind`.
- **The Device constructor.** It prints device information and creates a
  vertex array object. Only its state defaults are modelled.
- **ShaderProgram.CompileFromSource.** It requires a non-empty block
  table. Every resolved unit has its header row, and `GetLineOrigin`
  reads row 0 unconditionally.
- **Textures.** The subclasses and `SizedInternalFormatGlob` are not
  part of this model; the format is an opaque value. `Clear` is a
  direct upload and is not modelled.
- **StreamBuffers.** `AdvanceAllPosition` and `AdvanceAllFences` are
  stated for at most one full turn of the ring, because `%` with a
  variable modulus makes the general case expensive. `FullCycleReturns`
  covers the wrap.
- **StreamBuffer mapping.** The constructor's buffer creation, storage
  allocation, label and `MapBufferRange` issue no event. Mapping the
  buffer and the `IntPtr` arithmetic of `CurrentStart` are not
  modelled.
- **Device.cs null states.** `BindDepthState` and `BindBlendState` take
  non-null states. Both dereference a null argument at once, which is
  the same exception as the modelled null paths elsewhere.
- **FrameBuffer.** It is an opaque handle; the null check is modelled.
- **Hash codes.** Hash codes of shaders and other reference types are a
  parameter.
- **Devices.BindRasterizerState.** It models the corrected calls. The
  code as written is `Devices.BindRasterizerStateAsWritten`.
- **Devices.BindBlendState.** It models the corrected calls. The code
  as written is `Devices.BindBlendStateAsWritten`.
- Uniform.FloatIsNotInt: says nothing about hash codes. C# hashes a
  `float` by its bit pattern, and payloads here are opaque numbers, so
  the model's hash of a float is not the program's.
- **Devices.BlendBindMirrors.** The driver-state model records the four
  blend factors and the two equations as whole values set by one call
  each. Per-draw-buffer blend state is not modelled.

## Findings

| source | as written | input that shows it | evidently intended | confidence | as-written member | corrected member |
|---|---|---|---|---|---|---|
| Glob/Shaders/ShaderSource.cs:149-158 | the line counter starts after the header without counting the `#define` lines of the macros | one macro and a one-line file: the file's only line is reported as its line 1 instead of line 0 (right file, wrong offset) | the counter also counts one line per macro, so every row starts at its file's marker line | not executed | ResolvedGlsl.MacroMisattributionExample | ResolvedGlsl.FileLineOrigin |
| Glob/Device.cs:436-439 | with no cached blend state, both `Enable(Blend)` and `Disable(Blend)` are issued, in that order | `Invalidate` then bind alpha blending: blending ends disabled | enable or disable according to the new mode | not executed | Devices.BlendAsWrittenDisablesAfterInvalidate | Devices.BlendBindMirrors |
| Glob/Device.cs:347-383 | the polygon-mode update sits inside the cull-mode comparison | back culling and fill, then back culling and line: no polygon call | polygon modes are compared independently of the cull mode | not executed | Devices.RasterizerAsWrittenKeepsPolygonMode | Devices.RasterizerBindMirrors |
| Glob/States/VertexBufferFormat.cs:105-106 | the index check reads the field before it is assigned, so it always sees 0 | attribute index 40: accepted, and its mask bit collides with index 8 | the argument is checked, and 16 or more throws | not executed | VertexFormats.AttribIndexCheckIsIneffective | VertexFormats.NewAttrib |
