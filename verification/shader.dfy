/** `Shader`: one compiled program for one stage, with the caches that
    outlive a rebuild. The uniform values and the two block-binding tables
    are kept across recompilation and replayed, in the order they were
    first set, against the new program; the location cache is dropped.

    The driver's answers (the new program, its link status and info log,
    the work-group size of a compute program, uniform locations and block
    indices) are inputs. */
module ShaderProgram {
  import opened Wrappers
  import opened Text
  import opened Gl
  import opened Uniform
  import opened OrderedMap
  import opened ResolvedShader
  import ShaderLog

  /** The per-program lookups of the driver. */
  datatype Driver = Driver(
    uniformLocation: (int, string) -> int,
    uniformBlockIndex: (int, string) -> int,
    storageBlockIndex: (int, string) -> int)

  /** What the driver reports about one `CreateShaderProgram`. */
  datatype CompileOutcome = CompileOutcome(program: int, linked: bool, infoLog: string, workGroupSize: (int, int, int))

  datatype Shader = Shader(
    stage: ShaderStage,
    filename: string,
    handle: int,
    valid: bool,
    locations: map<string, int>,
    uniforms: OMap<string, UniformValue>,
    blockBindings: OMap<string, int>,
    storageBindings: OMap<string, int>,
    workGroupSize: (int, int, int),
    lastLog: string)

  predicate Consistent(s: Shader) {
    OrderedMap.Valid(s.uniforms) && OrderedMap.Valid(s.blockBindings) && OrderedMap.Valid(s.storageBindings)
  }

  /** The fields other than the four caches agree. */
  predicate Unchanged(a: Shader, b: Shader) {
    && a.stage == b.stage && a.filename == b.filename && a.handle == b.handle && a.valid == b.valid
    && a.workGroupSize == b.workGroupSize && a.lastLog == b.lastLog
  }

  /** A result together with the shader after the call and the events it
      issued. */
  datatype Step<T> = Step(value: T, shader: Shader, events: seq<Event>)

  /** The constructor: no program, not valid, empty caches. */
  function NewShader(stage: ShaderStage, filename: string): (s: Shader)
    ensures Consistent(s) && s.handle == 0 && !s.valid
    ensures s.locations == map[] && s.uniforms.values == map[]
    ensures s.blockBindings.values == map[] && s.storageBindings.values == map[]
  {
    Shader(stage, filename, 0, false, map[], Empty(), Empty(), Empty(), (0, 0, 0), "")
  }

  // ---------------------------------------------------------------------
  // Uniform locations and values.

  /** `GetUniformLocation`: a cached location is returned as is; an
      uncached name on an invalid program gives 0 and is not cached;
      otherwise the driver is asked once and the answer is cached. */
  function GetUniformLocation(s: Shader, d: Driver, name: string): (r: Step<int>)
    ensures r.events != [] <==> name !in s.locations && s.valid
    ensures r.events != [] ==> r.events == [QueryUniformLocation(s.handle, name)] && r.value == d.uniformLocation(s.handle, name)
    ensures name in s.locations ==> r.value == s.locations[name]
    ensures name !in s.locations && !s.valid ==> r.value == 0
    ensures Unchanged(r.shader, s) && r.shader.uniforms == s.uniforms
    ensures r.shader.blockBindings == s.blockBindings && r.shader.storageBindings == s.storageBindings
    ensures r.shader.locations == if r.events == [] then s.locations else s.locations[name := r.value]
  {
    if name in s.locations then Step(s.locations[name], s, [])
    else if !s.valid then Step(0, s, [])
    else
      var loc := d.uniformLocation(s.handle, name);
      Step(loc, s.(locations := s.locations[name := loc]), [QueryUniformLocation(s.handle, name)])
  }

  /** Whether the value stored for `name` already `Equals` `v`. */
  predicate SameValue(s: Shader, name: string, v: UniformValue) {
    name in s.uniforms.values && Uniform.Equals(s.uniforms.values[name], Some(v))
  }

  /** `SetUniform`: the value is stored whatever the program's state; the
      driver is told only when the program is valid and the value
      changed. */
  function SetUniform(s: Shader, d: Driver, name: string, v: UniformValue): (r: Step<()>)
    requires Consistent(s)
    ensures Consistent(r.shader)
    ensures r.shader.uniforms.values == s.uniforms.values[name := v]
    ensures name in s.uniforms.values ==> r.shader.uniforms.keys == s.uniforms.keys
    ensures name !in s.uniforms.values ==> r.shader.uniforms.keys == s.uniforms.keys + [name]
    ensures Unchanged(r.shader, s) && r.shader.blockBindings == s.blockBindings && r.shader.storageBindings == s.storageBindings
    ensures (r.events != []) <==> (s.valid && !SameValue(s, name, v))
    ensures r.events != [] ==>
      var l := GetUniformLocation(s, d, name);
      && r.events == l.events + [ProgramUniform(s.handle, l.value, v)]
      && r.shader.locations == l.shader.locations
    ensures r.events == [] ==> r.shader.locations == s.locations
  {
    var same := SameValue(s, name, v);
    var s1 := s.(uniforms := Put(s.uniforms, name, v));
    if !same && s.valid then
      var l := GetUniformLocation(s1, d, name);
      Step((), l.shader, l.events + [ProgramUniform(s.handle, l.value, v)])
    else Step((), s1, [])
  }

  /** `UniformBlockBinding`: the binding is recorded and issued, even on an
      invalid program. */
  function UniformBlockBinding(s: Shader, d: Driver, blockName: string, point: int): (r: Step<()>)
    requires Consistent(s)
    ensures Consistent(r.shader)
    ensures r.shader.blockBindings.values == s.blockBindings.values[blockName := point]
    ensures blockName in s.blockBindings.values ==> r.shader.blockBindings.keys == s.blockBindings.keys
    ensures blockName !in s.blockBindings.values ==> r.shader.blockBindings.keys == s.blockBindings.keys + [blockName]
    ensures Unchanged(r.shader, s) && r.shader.locations == s.locations
    ensures r.shader.uniforms == s.uniforms && r.shader.storageBindings == s.storageBindings
    ensures r.events == [Gl.UniformBlockBinding(s.handle, d.uniformBlockIndex(s.handle, blockName), point)]
  {
    Step((), s.(blockBindings := Put(s.blockBindings, blockName, point)),
         [Gl.UniformBlockBinding(s.handle, d.uniformBlockIndex(s.handle, blockName), point)])
  }

  /** `ShaderStorageBlockBinding`, the same for storage blocks. */
  function ShaderStorageBlockBinding(s: Shader, d: Driver, blockName: string, point: int): (r: Step<()>)
    requires Consistent(s)
    ensures Consistent(r.shader)
    ensures r.shader.storageBindings.values == s.storageBindings.values[blockName := point]
    ensures blockName in s.storageBindings.values ==> r.shader.storageBindings.keys == s.storageBindings.keys
    ensures blockName !in s.storageBindings.values ==> r.shader.storageBindings.keys == s.storageBindings.keys + [blockName]
    ensures Unchanged(r.shader, s) && r.shader.locations == s.locations
    ensures r.shader.uniforms == s.uniforms && r.shader.blockBindings == s.blockBindings
    ensures r.events == [Gl.ShaderStorageBlockBinding(s.handle, d.storageBlockIndex(s.handle, blockName), point)]
  {
    Step((), s.(storageBindings := Put(s.storageBindings, blockName, point)),
         [Gl.ShaderStorageBlockBinding(s.handle, d.storageBlockIndex(s.handle, blockName), point)])
  }

  /** A second lookup of the same name is answered without the driver,
      with the same location. */
  lemma LocationLookupIsCached(s: Shader, d: Driver, name: string)
    ensures var first := GetUniformLocation(s, d, name);
      var second := GetUniformLocation(first.shader, d, name);
      && second.events == [] && second.value == first.value && second.shader == first.shader
  {
  }

  /** Setting a uniform to the value it already holds issues nothing and
      changes nothing. */
  lemma SetUniformTwice(s: Shader, d: Driver, name: string, v: UniformValue)
    requires Consistent(s)
    ensures var first := SetUniform(s, d, name, v);
      var second := SetUniform(first.shader, d, name, v);
      && second.events == [] && second.shader == first.shader
  {
    var first := SetUniform(s, d, name, v);
    EqualsReflexive(v);
    assert SameValue(first.shader, name, v);
    assert first.shader.uniforms.values[name := v] == first.shader.uniforms.values;
  }

  /** A different value on a valid program is always issued, with the
      location the cache or the driver gives. */
  lemma SetUniformIssuesChanges(s: Shader, d: Driver, name: string, v: UniformValue)
    requires Consistent(s) && s.valid
    requires name in s.uniforms.values ==> s.uniforms.values[name] != v
    ensures var r := SetUniform(s, d, name, v);
      && |r.events| > 0
      && r.events[|r.events| - 1] == ProgramUniform(s.handle, GetUniformLocation(s, d, name).value, v)
  {
    if name in s.uniforms.values {
      EqualsIsValueEquality(s.uniforms.values[name], v);
    }
  }

  // ---------------------------------------------------------------------
  // Replay after a rebuild.

  /** What replaying the uniforms `keys` issues: on a valid program, a
      location query and a set for each, in order; nothing otherwise. */
  function UniformReplay(h: int, valid: bool, d: Driver, keys: seq<string>, values: map<string, UniformValue>): seq<Event>
    requires forall i | 0 <= i < |keys| :: keys[i] in values
  {
    if keys == [] then []
    else
      var k := keys[|keys| - 1];
      UniformReplay(h, valid, d, keys[..|keys| - 1], values)
        + (if valid then [QueryUniformLocation(h, k), ProgramUniform(h, d.uniformLocation(h, k), values[k])] else [])
  }

  /** What replaying the uniform block bindings `keys` issues. */
  function BlockReplay(h: int, d: Driver, keys: seq<string>, values: map<string, int>): seq<Event>
    requires forall i | 0 <= i < |keys| :: keys[i] in values
  {
    if keys == [] then []
    else
      var k := keys[|keys| - 1];
      BlockReplay(h, d, keys[..|keys| - 1], values) + [Gl.UniformBlockBinding(h, d.uniformBlockIndex(h, k), values[k])]
  }

  /** What replaying the storage block bindings `keys` issues. */
  function StorageReplay(h: int, d: Driver, keys: seq<string>, values: map<string, int>): seq<Event>
    requires forall i | 0 <= i < |keys| :: keys[i] in values
  {
    if keys == [] then []
    else
      var k := keys[|keys| - 1];
      StorageReplay(h, d, keys[..|keys| - 1], values) + [Gl.ShaderStorageBlockBinding(h, d.storageBlockIndex(h, k), values[k])]
  }

  /** Every replayed uniform costs a query and a set on a valid program
      and nothing on an invalid one; every binding costs one call. */
  lemma {:induction false} ReplayLengths(h: int, valid: bool, d: Driver, keys: seq<string>, uvalues: map<string, UniformValue>, bvalues: map<string, int>)
    requires forall i | 0 <= i < |keys| :: keys[i] in uvalues && keys[i] in bvalues
    ensures |UniformReplay(h, valid, d, keys, uvalues)| == (if valid then 2 * |keys| else 0)
    ensures |BlockReplay(h, d, keys, bvalues)| == |keys|
    ensures |StorageReplay(h, d, keys, bvalues)| == |keys|
  {
    if keys != [] {
      ReplayLengths(h, valid, d, keys[..|keys| - 1], uvalues, bvalues);
    }
  }

  /** The location cache after the replay: every replayed uniform of a
      valid program, with the driver's location. */
  function LocationsOf(h: int, valid: bool, d: Driver, keys: seq<string>): map<string, int> {
    if valid then map k | k in keys :: d.uniformLocation(h, k) else map[]
  }

  /** `FinalizeCompilation`: drop the location cache, then clear each
      table and set its entries again in enumeration order. Each table ends
      as it began, and every entry is issued once. */
  method FinalizeCompilation(s: Shader, d: Driver) returns (r: Shader, events: seq<Event>)
    requires Consistent(s)
    ensures Consistent(r)
    ensures r.uniforms == s.uniforms && r.blockBindings == s.blockBindings && r.storageBindings == s.storageBindings
    ensures r.locations == LocationsOf(s.handle, s.valid, d, s.uniforms.keys)
    ensures Unchanged(r, s)
    ensures r == s.(locations := LocationsOf(s.handle, s.valid, d, s.uniforms.keys))
    ensures events == UniformReplay(s.handle, s.valid, d, s.uniforms.keys, s.uniforms.values)
                      + BlockReplay(s.handle, d, s.blockBindings.keys, s.blockBindings.values)
                      + StorageReplay(s.handle, d, s.storageBindings.keys, s.storageBindings.values)
  {
    var e1, e2, e3;
    r, e1 := ReplayUniforms(s, d);
    r, e2 := ReplayBlockBindings(r, d);
    r, e3 := ReplayStorageBindings(r, d);
    events := e1 + e2 + e3;
  }

  /** The first loop of `FinalizeCompilation`: the location cache and the
      uniform table are cleared and every uniform is set again. */
  method ReplayUniforms(s: Shader, d: Driver) returns (r: Shader, events: seq<Event>)
    requires Consistent(s)
    ensures Consistent(r)
    ensures Unchanged(r, s) && r.uniforms == s.uniforms && r.blockBindings == s.blockBindings && r.storageBindings == s.storageBindings
    ensures r.locations == LocationsOf(s.handle, s.valid, d, s.uniforms.keys)
    ensures events == UniformReplay(s.handle, s.valid, d, s.uniforms.keys, s.uniforms.values)
  {
    var us := s.uniforms;
    r := s.(locations := map[], uniforms := Empty());
    events := [];
    var i := 0;
    while i < |us.keys|
      invariant 0 <= i <= |us.keys|
      invariant Unchanged(r, s) && r.blockBindings == s.blockBindings && r.storageBindings == s.storageBindings
      invariant r.locations == LocationsOf(s.handle, s.valid, d, us.keys[..i]) && r.uniforms == Prefix(us, i)
      invariant events == UniformReplay(s.handle, s.valid, d, us.keys[..i], us.values)
    {
      var k := us.keys[i];
      PutNext(us, i);
      ReplayedLocations(s.handle, s.valid, d, us.keys, i);
      var st := SetUniform(r, d, k, us.values[k]);
      SetFreshUniform(r, d, k, us.values[k]);
      UniformReplayStep(s.handle, s.valid, d, us.keys, us.values, i);
      r, events := st.shader, events + st.events;
      i := i + 1;
    }
    PrefixAll(us);
    assert us.keys[..i] == us.keys;
  }

  /** The second loop: the uniform block table is cleared and every
      binding is issued again. */
  method ReplayBlockBindings(s: Shader, d: Driver) returns (r: Shader, events: seq<Event>)
    requires Consistent(s)
    ensures Consistent(r) && Unchanged(r, s) && r.locations == s.locations && r.uniforms == s.uniforms
    ensures r.blockBindings == s.blockBindings && r.storageBindings == s.storageBindings
    ensures events == BlockReplay(s.handle, d, s.blockBindings.keys, s.blockBindings.values)
  {
    var bs := s.blockBindings;
    r := s.(blockBindings := Empty());
    events := [];
    var i := 0;
    while i < |bs.keys|
      invariant 0 <= i <= |bs.keys|
      invariant r == s.(blockBindings := Prefix(bs, i))
      invariant events == BlockReplay(s.handle, d, bs.keys[..i], bs.values)
    {
      var st := UniformBlockBinding(r, d, bs.keys[i], bs.values[bs.keys[i]]);
      BlockReplayNext(s, d, i);
      r, events := st.shader, events + st.events;
      i := i + 1;
    }
    PrefixAll(bs);
    assert bs.keys[..i] == bs.keys;
  }

  /** The third loop, for the storage block table. */
  method ReplayStorageBindings(s: Shader, d: Driver) returns (r: Shader, events: seq<Event>)
    requires Consistent(s)
    ensures Consistent(r) && Unchanged(r, s) && r.locations == s.locations && r.uniforms == s.uniforms
    ensures r.blockBindings == s.blockBindings && r.storageBindings == s.storageBindings
    ensures events == StorageReplay(s.handle, d, s.storageBindings.keys, s.storageBindings.values)
  {
    var ss := s.storageBindings;
    r := s.(storageBindings := Empty());
    events := [];
    var i := 0;
    while i < |ss.keys|
      invariant 0 <= i <= |ss.keys|
      invariant r == s.(storageBindings := Prefix(ss, i))
      invariant events == StorageReplay(s.handle, d, ss.keys[..i], ss.values)
    {
      var st := ShaderStorageBlockBinding(r, d, ss.keys[i], ss.values[ss.keys[i]]);
      StorageReplayNext(s, d, i);
      r, events := st.shader, events + st.events;
      i := i + 1;
    }
    PrefixAll(ss);
    assert ss.keys[..i] == ss.keys;
  }

  /** One iteration of the second loop: binding the next block extends
      the rebuilt table by one entry and the replay by one call. */
  lemma BlockReplayNext(s: Shader, d: Driver, i: nat)
    requires Consistent(s) && i < |s.blockBindings.keys|
    ensures var bs := s.blockBindings;
      var st := UniformBlockBinding(s.(blockBindings := Prefix(bs, i)), d, bs.keys[i], bs.values[bs.keys[i]]);
      && st.shader == s.(blockBindings := Prefix(bs, i + 1))
      && BlockReplay(s.handle, d, bs.keys[..i + 1], bs.values) == BlockReplay(s.handle, d, bs.keys[..i], bs.values) + st.events
  {
    PutNext(s.blockBindings, i);
    BindingReplayStep(s.handle, d, s.blockBindings.keys, s.blockBindings.values, i);
  }

  /** One iteration of the third loop, for storage blocks. */
  lemma StorageReplayNext(s: Shader, d: Driver, i: nat)
    requires Consistent(s) && i < |s.storageBindings.keys|
    ensures var ss := s.storageBindings;
      var st := ShaderStorageBlockBinding(s.(storageBindings := Prefix(ss, i)), d, ss.keys[i], ss.values[ss.keys[i]]);
      && st.shader == s.(storageBindings := Prefix(ss, i + 1))
      && StorageReplay(s.handle, d, ss.keys[..i + 1], ss.values) == StorageReplay(s.handle, d, ss.keys[..i], ss.values) + st.events
  {
    PutNext(s.storageBindings, i);
    BindingReplayStep(s.handle, d, s.storageBindings.keys, s.storageBindings.values, i);
  }

  /** Setting a uniform that has neither a value nor a cached location:
      on a valid program the location is queried and cached and the value
      issued; on an invalid one only the value is stored. */
  lemma SetFreshUniform(s: Shader, d: Driver, name: string, v: UniformValue)
    requires Consistent(s) && name !in s.uniforms.values && name !in s.locations
    ensures var st := SetUniform(s, d, name, v);
      && Unchanged(st.shader, s) && st.shader.blockBindings == s.blockBindings && st.shader.storageBindings == s.storageBindings
      && st.shader.uniforms == Put(s.uniforms, name, v)
      && st.shader.locations == (if s.valid then s.locations[name := d.uniformLocation(s.handle, name)] else s.locations)
      && st.events == (if s.valid then [QueryUniformLocation(s.handle, name), ProgramUniform(s.handle, d.uniformLocation(s.handle, name), v)] else [])
  {
  }

  /** One more uniform replayed: its query and set come last. */
  lemma UniformReplayStep(h: int, valid: bool, d: Driver, keys: seq<string>, values: map<string, UniformValue>, i: nat)
    requires forall j | 0 <= j < |keys| :: keys[j] in values
    requires i < |keys|
    ensures UniformReplay(h, valid, d, keys[..i + 1], values)
      == UniformReplay(h, valid, d, keys[..i], values)
         + (if valid then [QueryUniformLocation(h, keys[i]), ProgramUniform(h, d.uniformLocation(h, keys[i]), values[keys[i]])] else [])
  {
    assert keys[..i + 1][..i] == keys[..i];
  }

  /** One more binding replayed: its call comes last. */
  lemma BindingReplayStep(h: int, d: Driver, keys: seq<string>, values: map<string, int>, i: nat)
    requires forall j | 0 <= j < |keys| :: keys[j] in values
    requires i < |keys|
    ensures BlockReplay(h, d, keys[..i + 1], values)
      == BlockReplay(h, d, keys[..i], values) + [Gl.UniformBlockBinding(h, d.uniformBlockIndex(h, keys[i]), values[keys[i]])]
    ensures StorageReplay(h, d, keys[..i + 1], values)
      == StorageReplay(h, d, keys[..i], values) + [Gl.ShaderStorageBlockBinding(h, d.storageBlockIndex(h, keys[i]), values[keys[i]])]
  {
    assert keys[..i + 1][..i] == keys[..i];
  }

  /** The `i`-th uniform is not yet in the location cache when it is
      replayed, and caching it extends the cache by one key. */
  lemma ReplayedLocations(h: int, valid: bool, d: Driver, keys: seq<string>, i: nat)
    requires Distinct(keys) && i < |keys|
    ensures keys[i] !in LocationsOf(h, valid, d, keys[..i])
    ensures valid ==> LocationsOf(h, valid, d, keys[..i])[keys[i] := d.uniformLocation(h, keys[i])] == LocationsOf(h, valid, d, keys[..i + 1])
  {
    assert keys[..i + 1] == keys[..i] + [keys[i]];
    forall j | 0 <= j < i
      ensures keys[..i][j] != keys[i]
    {
      assert keys[..i][j] == keys[j];
    }
  }

  // ---------------------------------------------------------------------
  // Compilation.

  /** `_stage.ToString()`. */
  function StageName(stage: ShaderStage): string {
    match stage
    case Vertex => "Vertex"
    case TessControl => "TessControl"
    case TessEvaluation => "TessEvaluation"
    case Geometry => "Geometry"
    case Fragment => "Fragment"
    case Compute => "Compute"
  }

  /** The label `Utils.SetObjectLabel` gives a program. */
  function ProgramLabelText(filename: string, handle: int): string {
    "Program: " + filename + " (handle: " + IntToString(handle) + ")"
  }

  /** What a failed link does before reading the log: the error, then the
      deletion of the new program. */
  function FailurePrefix(s: Shader, out: CompileOutcome): seq<Event> {
    [ Print(Error, "Error compiling " + StageName(s.stage) + " shader " + s.filename),
      DeleteProgram(out.program) ]
  }

  /** What a failed link prints and deletes: the error, the deletion of the
      new program, then the log with an `At: ` line after every line that
      names a resolved line. */
  function FailureEvents(s: Shader, blocks: seq<Block>, out: CompileOutcome): seq<Event>
    requires |blocks| > 0
  {
    FailurePrefix(s, out) + [Print(Debug, ShaderLog.DiagnosticText(blocks, out.infoLog))]
  }

  /** The first calls of every compilation: the old program is deleted
      when its handle is positive, then the new one is created. */
  function CreateEvents(s: Shader, code: string, program: int): seq<Event> {
    (if s.handle > 0 then [DeleteProgram(s.handle)] else []) + [CreateShaderProgram(s.stage, code, program)]
  }

  /** What follows a successful link to program `h != 0` before the
      replay: the work-group size query of a compute program, then the
      label. */
  function SetupEvents(stage: ShaderStage, filename: string, h: int): seq<Event> {
    (if stage == Compute then [QueryWorkGroupSize(h)] else [])
      + [ObjectLabel(ProgramLabel, h, ProgramLabelText(filename, h))]
  }

  /** A failed link: the shader becomes invalid without a program, and the
      error and deletion are followed by the translated log, unless a line
      number in the log overflows `int` and the translation throws. */
  method FailLink(s: Shader, blocks: seq<Block>, out: CompileOutcome) returns (r: Shader, events: seq<Event>, thrown: bool)
    requires |blocks| > 0
    ensures thrown <==> ShaderLog.Diagnostic(blocks, out.infoLog).Failure?
    ensures r == s.(valid := false, handle := 0, lastLog := out.infoLog,
                    workGroupSize := if thrown then s.workGroupSize else (0, 0, 0))
    ensures events == if thrown then FailurePrefix(s, out) else FailureEvents(s, blocks, out)
  {
    match ShaderLog.Diagnostic(blocks, out.infoLog)
    case Failure(_) =>
      r := s.(valid := false, handle := 0, lastLog := out.infoLog);
      events := FailurePrefix(s, out);
      thrown := true;
    case Success(text) =>
      r := s.(valid := false, handle := 0, workGroupSize := (0, 0, 0), lastLog := out.infoLog);
      events := FailurePrefix(s, out) + [Print(Debug, text)];
      thrown := false;
  }

  /** A successful link to program `out.program`: the shader becomes valid
      on it, only a compute program keeps the reported work-group size, and
      every cache is replayed against the new program. */
  method LinkProgram(s: Shader, d: Driver, out: CompileOutcome) returns (r: Shader, events: seq<Event>)
    requires Consistent(s)
    ensures Consistent(r)
    ensures r == s.(valid := true, handle := out.program, lastLog := out.infoLog,
                    workGroupSize := if s.stage == Compute then out.workGroupSize else (0, 0, 0),
                    locations := LocationsOf(out.program, true, d, s.uniforms.keys))
    ensures events == UniformReplay(out.program, true, d, s.uniforms.keys, s.uniforms.values)
                      + BlockReplay(out.program, d, s.blockBindings.keys, s.blockBindings.values)
                      + StorageReplay(out.program, d, s.storageBindings.keys, s.storageBindings.values)
  {
    var size := if s.stage == Compute then out.workGroupSize else (0, 0, 0);
    var linked := s.(valid := true, handle := out.program, workGroupSize := size, lastLog := out.infoLog);
    r, events := FinalizeCompilation(linked, d);
  }

  /** `CompileFromSource`. The old program is deleted first when its handle
      is positive. A failed link leaves the shader invalid without a
      program and prints the translated log, unless a line number in the
      log overflows `int`: then `OverflowException` escapes (`thrown`)
      after the program is deleted and before the log is printed or the
      work-group size is reset. A successful link makes the shader valid.
      The work-group size is reset and then read back only for a compute
      program that exists; an existing program is labelled and gets every
      cached uniform and binding replayed. */
  method CompileFromSource(s: Shader, d: Driver, resolved: Resolved, out: CompileOutcome)
    returns (r: Shader, events: seq<Event>, thrown: bool)
    requires Consistent(s) && |resolved.blocks| > 0
    ensures Consistent(r)
    ensures thrown <==> !out.linked && ShaderLog.Diagnostic(resolved.blocks, out.infoLog).Failure?
    ensures r.valid <==> out.linked
    ensures r.handle == (if out.linked then out.program else 0)
    ensures r.lastLog == out.infoLog && r.stage == s.stage && r.filename == s.filename
    ensures r.workGroupSize == (if thrown then s.workGroupSize
      else if s.stage == Compute && r.handle != 0 then out.workGroupSize else (0, 0, 0))
    ensures r.uniforms == s.uniforms && r.blockBindings == s.blockBindings && r.storageBindings == s.storageBindings
    ensures r.handle != 0 ==> r.locations == LocationsOf(r.handle, true, d, s.uniforms.keys)
    ensures r.handle == 0 ==> r.locations == s.locations
    ensures thrown ==> events == CreateEvents(s, resolved.code, out.program) + FailurePrefix(s, out)
    ensures !out.linked && !thrown ==> events == CreateEvents(s, resolved.code, out.program) + FailureEvents(s, resolved.blocks, out)
    ensures out.linked && out.program == 0 ==> events == CreateEvents(s, resolved.code, out.program)
    ensures out.linked && out.program != 0 ==>
      events == CreateEvents(s, resolved.code, out.program) + SetupEvents(s.stage, s.filename, out.program)
        + UniformReplay(out.program, true, d, s.uniforms.keys, s.uniforms.values)
        + BlockReplay(out.program, d, s.blockBindings.keys, s.blockBindings.values)
        + StorageReplay(out.program, d, s.storageBindings.keys, s.storageBindings.values)
  {
    var created := CreateEvents(s, resolved.code, out.program);
    thrown := false;
    if !out.linked {
      var failed;
      r, failed, thrown := FailLink(s, resolved.blocks, out);
      events := created + failed;
    } else if out.program == 0 {
      r := s.(valid := true, handle := 0, workGroupSize := (0, 0, 0), lastLog := out.infoLog);
      events := created;
    } else {
      var replayed;
      r, replayed := LinkProgram(s, d, out);
      events := created + SetupEvents(s.stage, s.filename, out.program) + replayed;
    }
  }
  /** A recompilation followed by `SetUniform`: the cached values survive
      it, so the set issues calls exactly when the link succeeded and the
      value differs from the one cached before; after a failed link every
      set is silent. */
  method CompileThenSetUniform(s: Shader, d: Driver, resolved: Resolved, out: CompileOutcome, name: string, v: UniformValue)
    returns (events: seq<Event>)
    requires Consistent(s) && |resolved.blocks| > 0
    ensures events != [] <==> out.linked && !SameValue(s, name, v)
  {
    var r, _, _ := CompileFromSource(s, d, resolved, out);
    events := SetUniform(r, d, name, v).events;
  }

}
