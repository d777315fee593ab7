/** `ShaderPipeline`: a program pipeline object that combines separable
    programs, one per stage, and is rebuilt lazily. Shaders are referred
    to by identity (`ShaderId`); their current program handles come from
    `handleOf`, which the caller reads off the shaders at the time of the
    build. */
module ShaderPipelines {
  import opened Wrappers
  import opened Gl
  import opened Int32

  /** The identity of a `Shader` object. `Shader` does not override
      `Equals`, so two slots are equal exactly when they hold the same
      object. */
  type ShaderId = nat

  /** `ShaderPipelineDescription`: one optional shader per stage. */
  datatype Description = Description(
    vertex: Option<ShaderId>,
    tessControl: Option<ShaderId>,
    tessEvaluation: Option<ShaderId>,
    geometry: Option<ShaderId>,
    fragment: Option<ShaderId>,
    compute: Option<ShaderId>)

  /** The order in which `Build` visits the slots. */
  const Stages: seq<ShaderStage> := [Vertex, TessControl, TessEvaluation, Geometry, Fragment, Compute]

  function Slot(desc: Description, stage: ShaderStage): Option<ShaderId> {
    match stage
    case Vertex => desc.vertex
    case TessControl => desc.tessControl
    case TessEvaluation => desc.tessEvaluation
    case Geometry => desc.geometry
    case Fragment => desc.fragment
    case Compute => desc.compute
  }

  // ---------------------------------------------------------------------
  // Description equality and hash.

  /** `Equals(ShaderPipelineDescription)` on a non-null argument: every
      slot holds the same object (or both are null). */
  predicate SlotsEqual(a: Description, b: Description) {
    && a.vertex == b.vertex && a.tessControl == b.tessControl && a.tessEvaluation == b.tessEvaluation
    && a.geometry == b.geometry && a.fragment == b.fragment && a.compute == b.compute
  }

  /** `Equals(ShaderPipelineDescription other)`: false for null. The
      same-reference shortcut agrees with the slot comparison, since a
      description has the same slots as itself. */
  predicate Equals(a: Description, other: Option<Description>) {
    other.Some? && SlotsEqual(a, other.value)
  }

  /** The static `operator ==` (`object.Equals(left, right)`). */
  predicate OpEquals(left: Option<Description>, right: Option<Description>) {
    if left.None? || right.None? then left.None? && right.None?
    else Equals(left.value, right)
  }

  predicate OpNotEquals(left: Option<Description>, right: Option<Description>) {
    !OpEquals(left, right)
  }

  function SlotHash(slot: Option<ShaderId>, objectHash: ShaderId -> bv32): bv32 {
    if slot.Some? then objectHash(slot.value) else 0
  }

  /** `GetHashCode`, with the identity hash of each shader as a parameter. */
  function Hash(d: Description, objectHash: ShaderId -> bv32): bv32 {
    var h := SlotHash(d.vertex, objectHash);
    var h := Combine(h, SlotHash(d.tessControl, objectHash));
    var h := Combine(h, SlotHash(d.tessEvaluation, objectHash));
    var h := Combine(h, SlotHash(d.geometry, objectHash));
    var h := Combine(h, SlotHash(d.fragment, objectHash));
    Combine(h, SlotHash(d.compute, objectHash))
  }

  /** Descriptions are equal exactly when every stage holds the same
      shader. */
  lemma EqualsIsSlotwise(a: Description, b: Description)
    ensures Equals(a, Some(b)) <==> (forall st :: Slot(a, st) == Slot(b, st))
    ensures Equals(a, Some(b)) <==> a == b
  {
    if forall st :: Slot(a, st) == Slot(b, st) {
      assert Slot(a, Vertex) == Slot(b, Vertex) && Slot(a, TessControl) == Slot(b, TessControl);
      assert Slot(a, TessEvaluation) == Slot(b, TessEvaluation) && Slot(a, Geometry) == Slot(b, Geometry);
      assert Slot(a, Fragment) == Slot(b, Fragment) && Slot(a, Compute) == Slot(b, Compute);
    }
  }

  lemma EqualsNullIsFalse(a: Description)
    ensures !Equals(a, None)
  {
  }

  lemma EqualDescriptionsHashEqually(a: Description, b: Description, objectHash: ShaderId -> bv32)
    requires Equals(a, Some(b))
    ensures Hash(a, objectHash) == Hash(b, objectHash)
  {
  }

  lemma NotEqualsNegates(left: Option<Description>, right: Option<Description>)
    ensures OpNotEquals(left, right) <==> !OpEquals(left, right)
    ensures OpEquals(left, right) <==> left == right
  {
  }

  /** An empty description hashes to 0. */
  lemma EmptyDescriptionHash(objectHash: ShaderId -> bv32)
    ensures Hash(Description(None, None, None, None, None, None), objectHash) == 0
  {
  }

  // ---------------------------------------------------------------------
  // The pipeline object.

  /** A pipeline: its identity (what `device.ShaderPipeline` refers to),
      its description, the rebuild flag and the GL handle. */
  datatype Pipeline = Pipeline(id: nat, description: Description, rebuild: bool, handle: int)

  /** A call's result: the pipeline afterwards, the device's current
      pipeline afterwards and the GL calls issued. */
  datatype PipelineStep = PipelineStep(pipeline: Pipeline, current: Option<nat>, events: seq<Event>)

  /** The constructor: handle 0, to be built on the first bind. */
  function NewPipeline(id: nat, description: Description): (p: Pipeline)
    ensures p.rebuild && p.handle == 0 && p.id == id && p.description == description
  {
    Pipeline(id, description, true, 0)
  }

  /** The `UseProgramStages` calls of `Build` for `stages`, in order: one
      per non-null slot, to that slot's stage bit. */
  function Attach(h: int, desc: Description, handleOf: ShaderId -> int, stages: seq<ShaderStage>): seq<Event> {
    if stages == [] then []
    else
      (match Slot(desc, stages[0])
       case Some(id) => [UseProgramStages(h, stages[0], handleOf(id))]
       case None => [])
      + Attach(h, desc, handleOf, stages[1..])
  }

  /** `Build`: the flag is cleared, a positive old handle deleted, a new
      pipeline generated (`generated` is the driver's answer) and the
      non-null stages attached. */
  function Build(p: Pipeline, generated: int, handleOf: ShaderId -> int): (r: (Pipeline, seq<Event>))
    ensures !r.0.rebuild && r.0.handle == generated && r.0.id == p.id && r.0.description == p.description
    ensures |r.1| >= 1
    ensures p.handle > 0 ==> r.1[0] == DeleteProgramPipeline(p.handle) && r.1[1..] == [GenProgramPipeline(generated)] + Attach(generated, p.description, handleOf, Stages)
    ensures p.handle <= 0 ==> r.1 == [GenProgramPipeline(generated)] + Attach(generated, p.description, handleOf, Stages)
  {
    var deleted := if p.handle > 0 then [DeleteProgramPipeline(p.handle)] else [];
    (p.(rebuild := false, handle := generated), deleted + [GenProgramPipeline(generated)] + Attach(generated, p.description, handleOf, Stages))
  }

  /** `Bind(device)`: a pipeline marked for rebuild is built and bound; a
      built one is bound only when it is not the device's current
      pipeline. Either way it is current afterwards. */
  function Bind(p: Pipeline, current: Option<nat>, generated: int, handleOf: ShaderId -> int): (r: PipelineStep)
    ensures r.current == Some(p.id)
    ensures !r.pipeline.rebuild && r.pipeline.id == p.id && r.pipeline.description == p.description
    ensures p.rebuild ==> r.pipeline.handle == generated
    ensures p.rebuild ==> r.events == Build(p, generated, handleOf).1 + [BindProgramPipeline(generated)]
    ensures !p.rebuild ==> r.pipeline == p
    ensures !p.rebuild ==> (r.events != [] <==> current != Some(p.id))
    ensures !p.rebuild && current != Some(p.id) ==> r.events == [BindProgramPipeline(p.handle)]
  {
    if p.rebuild then
      var (built, events) := Build(p, generated, handleOf);
      PipelineStep(built, Some(p.id), events + [BindProgramPipeline(built.handle)])
    else if current != Some(p.id) then
      PipelineStep(p, Some(p.id), [BindProgramPipeline(p.handle)])
    else
      PipelineStep(p, current, [])
  }

  /** `RebuildShaderPipeline`: only the flag changes. */
  function RebuildShaderPipeline(p: Pipeline): (r: Pipeline)
    ensures r.rebuild && r.(rebuild := p.rebuild) == p
  {
    p.(rebuild := true)
  }

  /** `Dispose`: a positive handle is deleted; the handle becomes 0 and the
      pipeline is no longer marked for rebuild. */
  function Dispose(p: Pipeline): (r: (Pipeline, seq<Event>))
    ensures r.0.handle == 0 && !r.0.rebuild && r.0.id == p.id && r.0.description == p.description
    ensures r.1 == (if p.handle > 0 then [DeleteProgramPipeline(p.handle)] else [])
  {
    (p.(handle := 0, rebuild := false), if p.handle > 0 then [DeleteProgramPipeline(p.handle)] else [])
  }

  // ---------------------------------------------------------------------
  // Properties of the state machine.

  /** `Build` attaches exactly the non-null slots, each to its own stage,
      with the shader's current program. */
  lemma {:induction false} AttachIsExact(h: int, desc: Description, handleOf: ShaderId -> int, stages: seq<ShaderStage>, stage: ShaderStage, program: int)
    ensures UseProgramStages(h, stage, program) in Attach(h, desc, handleOf, stages)
      <==> stage in stages && Slot(desc, stage).Some? && program == handleOf(Slot(desc, stage).value)
  {
    if stages != [] {
      AttachIsExact(h, desc, handleOf, stages[1..], stage, program);
      assert stage in stages <==> stage == stages[0] || stage in stages[1..];
    }
  }

  /** Every call `Attach` issues is a `UseProgramStages` on the new
      pipeline, and there is one per non-null slot. */
  lemma {:induction false} AttachShape(h: int, desc: Description, handleOf: ShaderId -> int, stages: seq<ShaderStage>)
    ensures forall i | 0 <= i < |Attach(h, desc, handleOf, stages)| ::
      Attach(h, desc, handleOf, stages)[i].UseProgramStages? && Attach(h, desc, handleOf, stages)[i].pipeline == h
    ensures |Attach(h, desc, handleOf, stages)| == CountSlots(desc, stages)
  {
    if stages != [] {
      AttachShape(h, desc, handleOf, stages[1..]);
    }
  }

  /** The number of non-null slots among `stages`. */
  function CountSlots(desc: Description, stages: seq<ShaderStage>): nat {
    if stages == [] then 0 else (if Slot(desc, stages[0]).Some? then 1 else 0) + CountSlots(desc, stages[1..])
  }

  /** A fresh pipeline is built on its first bind, with no deletion. */
  lemma FirstBindBuilds(id: nat, desc: Description, current: Option<nat>, generated: int, handleOf: ShaderId -> int)
    ensures var r := Bind(NewPipeline(id, desc), current, generated, handleOf);
      && r.events[0] == GenProgramPipeline(generated)
      && r.events[|r.events| - 1] == BindProgramPipeline(generated)
      && r.pipeline.handle == generated
  {
  }

  /** Binding the current pipeline again issues nothing. */
  lemma BindIsIdempotent(p: Pipeline, current: Option<nat>, generated: int, handleOf: ShaderId -> int, generated2: int)
    ensures var first := Bind(p, current, generated, handleOf);
      var second := Bind(first.pipeline, first.current, generated2, handleOf);
      && second.events == [] && second.pipeline == first.pipeline && second.current == first.current
  {
  }

  /** After `RebuildShaderPipeline` the next bind rebuilds, deleting the
      old pipeline first when it had one. */
  lemma RebuildThenBind(p: Pipeline, current: Option<nat>, generated: int, handleOf: ShaderId -> int)
    requires p.handle > 0
    ensures var r := Bind(RebuildShaderPipeline(p), current, generated, handleOf);
      && r.events[0] == DeleteProgramPipeline(p.handle)
      && r.events[1] == GenProgramPipeline(generated)
      && r.pipeline.handle == generated
  {
  }

  /** A disposed pipeline is not rebuilt by a later bind: it is bound with
      handle 0 if it is not current, and nothing is issued otherwise. */
  lemma BindAfterDispose(p: Pipeline, current: Option<nat>, generated: int, handleOf: ShaderId -> int)
    ensures var r := Bind(Dispose(p).0, current, generated, handleOf);
      && r.pipeline.handle == 0
      && r.events == (if current != Some(p.id) then [BindProgramPipeline(0)] else [])
  {
  }
}
