/** `Device`: the cache of current GL state that lets redundant binds be
    skipped, and compute dispatch. Each bind compares the new state with
    the cached one, issues only the calls that differ, and records the new
    state; `Invalidate` forgets everything so that the next binds issue
    all their calls.

    `GlState` is the part of the driver's state these binds set, so that
    "the cache describes the driver" can be stated and checked. */
module Devices {
  import opened Wrappers
  import opened Gl
  import opened Int32
  import Blending
  import TextureUnits
  import BufferBindings
  import VertexFormats
  import ShaderProgram

  // ---------------------------------------------------------------------
  // The state objects.

  /** `CullfaceState`. */
  datatype CullfaceState = CullNone | CullFront | CullBack | CullFrontAndBack

  /** `RasterizerState`, a class compared by reference: `id` is its
      identity, and one identity always names the same fields. */
  datatype RasterizerState = RasterizerState(id: nat, cull: CullfaceState, polygonFront: PolygonMode, polygonBack: PolygonMode)

  /** The constructor's defaults: back faces culled, both sides filled. */
  function DefaultRasterizerState(id: nat): (r: RasterizerState)
    ensures r.id == id && r.cull == CullBack && r.polygonFront == Fill && r.polygonBack == Fill
  {
    RasterizerState(id, CullBack, Fill, Fill)
  }

  /** `DepthState`. */
  datatype DepthState = DepthState(func: DepthFunction, mask: bool)

  /** The parameterless constructor: always passes, writes nothing. */
  function DefaultDepthState(): (s: DepthState)
    ensures s.func == Always && !s.mask
  {
    DepthState(Always, false)
  }

  /** The fields of `Device` that the modelled members read and write.
      References are `Option`s (`None` is null); the vertex source is
      named by its identity. */
  datatype Device = Device(
    pipeline: Option<nat>,
    textureUnit: TextureUnits.UnitState,
    rasterizer: Option<RasterizerState>,
    depth: Option<DepthState>,
    blend: Option<Blending.BlendState>,
    readFramebuffer: int,
    drawFramebuffer: int,
    bothFramebuffer: int,
    vertexFormat: Option<VertexFormats.Format>,
    vertexSource: Option<nat>,
    bufferBindings: BufferBindings.Manager)

  predicate Valid(d: Device) {
    TextureUnits.Valid(d.textureUnit) && BufferBindings.Valid(d.bufferBindings)
  }

  /** A call's result: the device afterwards and the GL calls issued. */
  datatype DeviceStep = DeviceStep(device: Device, events: seq<Event>)

  /** The constructor's state caches (the context queries and the global
      vertex array are not modelled): default rasterizer, depth and blend
      states, framebuffer 0 everywhere, nothing else bound. */
  function NewDevice(rasterizerId: nat): (d: Device)
    ensures Valid(d)
    ensures d.rasterizer == Some(DefaultRasterizerState(rasterizerId))
    ensures d.depth == Some(DefaultDepthState()) && d.blend == Some(Blending.DefaultBlendState())
    ensures d.readFramebuffer == 0 && d.drawFramebuffer == 0 && d.bothFramebuffer == 0
    ensures d.pipeline.None? && d.vertexFormat.None? && d.vertexSource.None?
  {
    Device(None, TextureUnits.NewUnitState(), Some(DefaultRasterizerState(rasterizerId)), Some(DefaultDepthState()),
           Some(Blending.DefaultBlendState()), 0, 0, 0, None, None, BufferBindings.NewManager())
  }

  /** `Invalidate`: every cached reference becomes null and every cached
      framebuffer -1. */
  function Invalidate(d: Device): (r: Device)
    ensures Valid(r)
    ensures r.pipeline.None? && r.rasterizer.None? && r.depth.None? && r.blend.None?
    ensures r.vertexFormat.None? && r.vertexSource.None?
    ensures r.readFramebuffer == -1 && r.drawFramebuffer == -1 && r.bothFramebuffer == -1
    ensures r.textureUnit == TextureUnits.Invalidate(d.textureUnit)
    ensures r.bufferBindings == BufferBindings.Invalidate(d.bufferBindings)
  {
    Device(None, TextureUnits.Invalidate(d.textureUnit), None, None, None, -1, -1, -1, None, None,
           BufferBindings.Invalidate(d.bufferBindings))
  }

  // ---------------------------------------------------------------------
  // Framebuffers.

  /** The cached framebuffer of a target. */
  function BoundFramebuffer(d: Device, target: FramebufferTarget): int {
    match target
    case ReadFramebuffer => d.readFramebuffer
    case DrawFramebuffer => d.drawFramebuffer
    case Framebuffer => d.bothFramebuffer
  }

  /** The result of `BindFrameBuffer`: whether anything changed. */
  datatype FramebufferStep = FramebufferStep(device: Device, changed: bool, events: seq<Event>)

  /** `BindFrameBuffer(fbo, target)`; `fbo` is the framebuffer's handle, or
      `None` for a null object, whose handle read throws. */
  function BindFrameBuffer(d: Device, fbo: Option<int>, target: FramebufferTarget): (r: Result<FramebufferStep>)
    ensures r.Failure? <==> fbo.None?
    ensures r.Success? ==>
      var s := r.value;
      && (s.changed <==> BoundFramebuffer(d, target) != fbo.value)
      && (s.changed ==> s.events == [BindFramebuffer(target, fbo.value)])
      && (!s.changed ==> s.events == [])
      && BoundFramebuffer(s.device, target) == fbo.value
      && (forall t | t != target :: BoundFramebuffer(s.device, t) == BoundFramebuffer(d, t))
  {
    if fbo.None? then Failure(NullReference("fbo"))
    else
      var h := fbo.value;
      if BoundFramebuffer(d, target) == h then Success(FramebufferStep(d, false, []))
      else
        var d1 := match target
          case ReadFramebuffer => d.(readFramebuffer := h)
          case DrawFramebuffer => d.(drawFramebuffer := h)
          case Framebuffer => d.(bothFramebuffer := h);
        Success(FramebufferStep(d1, true, [BindFramebuffer(target, h)]))
  }

  /** Binding the same framebuffer again reports no change. */
  lemma BindFrameBufferTwice(d: Device, fbo: int, target: FramebufferTarget)
    ensures var first := BindFrameBuffer(d, Some(fbo), target).value;
      var second := BindFrameBuffer(first.device, Some(fbo), target).value;
      !second.changed && second.events == []
  {
  }

  /** After `Invalidate`, binding any real framebuffer (handle 0 or more)
      reports a change on every target. */
  lemma InvalidateForcesFramebufferBind(d: Device, fbo: int, target: FramebufferTarget)
    requires fbo >= 0
    ensures BindFrameBuffer(Invalidate(d), Some(fbo), target).value.changed
  {
  }

  // ---------------------------------------------------------------------
  // Compute dispatch.

  /** C# `int` division: truncates toward zero, throws on a zero divisor
      and on `int.MinValue / -1`. */
  function DivInt(a: int32, b: int32): (r: Result<int32>)
    ensures r.Failure? <==> b == 0 || (a == -Two31 && b == -1)
    ensures r.Success? && a >= 0 && b > 0 ==> r.value == a / b
  {
    if b == 0 then Failure(DivideByZero)
    else if a == -Two31 && b == -1 then Failure(Overflow)
    else
      var q := Abs(a) / Abs(b);
      if (a < 0) != (b < 0) then Success(-q) else Success(q)
  }

  function Abs(x: int): nat {
    if x < 0 then -x else x
  }

  /** `(threads + size - 1) / size` in wrapping `int` arithmetic. */
  function GroupCount(threads: int32, size: int32): Result<int32> {
    DivInt(Wrap(threads + size - 1), size)
  }

  /** The group count covers the threads with less than one group to
      spare, as long as the numerator does not overflow. */
  lemma GroupCountIsCeiling(threads: int32, size: int32)
    requires threads >= 0 && size >= 1 && threads + size - 1 < Two31
    ensures GroupCount(threads, size).Success?
    ensures var g := GroupCount(threads, size).value;
      g * size >= threads && (g - 1) * size < threads
  {
    var n := threads + size - 1;
    var g := n / size;
    assert n == g * size + n % size;
  }

  /** `DispatchComputeGroups`: `compute` is the bound pipeline's compute
      shader, `None` when it (or the pipeline) is null. */
  function DispatchComputeGroups(compute: Option<ShaderProgram.Shader>, groupsX: int32, groupsY: int32, groupsZ: int32): (r: Result<seq<Event>>)
    ensures r.Failure? <==> compute.None?
    ensures r.Success? ==> (r.value != [] <==> compute.value.valid)
    ensures r.Success? && r.value != [] ==> r.value == [DispatchCompute(groupsX, groupsY, groupsZ)]
  {
    if compute.None? then Failure(NullReference("ShaderCompute"))
    else if compute.value.valid then Success([DispatchCompute(groupsX, groupsY, groupsZ)])
    else Success([])
  }

  /** `DispatchComputeThreads`: nothing for an invalid shader; otherwise
      enough groups along each axis for the threads, each computed before
      anything is issued, so a failing division issues nothing. The
      work-group size is the one the shader queried. */
  function DispatchComputeThreads(compute: Option<ShaderProgram.Shader>, threadsX: int32, threadsY: int32, threadsZ: int32): (r: Result<seq<Event>>)
    ensures compute.None? ==> r.Failure?
    ensures compute.Some? && !compute.value.valid ==> r == Success([])
    ensures compute.Some? && compute.value.valid ==>
      var (sx, sy, sz) := compute.value.workGroupSize;
      (r.Success? <==> Wrap(sx) != 0 && Wrap(sy) != 0 && Wrap(sz) != 0
                       && GroupCount(threadsX, Wrap(sx)).Success? && GroupCount(threadsY, Wrap(sy)).Success?
                       && GroupCount(threadsZ, Wrap(sz)).Success?)
    ensures r.Success? && r.value != [] ==>
      var (sx, sy, sz) := compute.value.workGroupSize;
      r.value == [DispatchCompute(GroupCount(threadsX, Wrap(sx)).value, GroupCount(threadsY, Wrap(sy)).value,
                                  GroupCount(threadsZ, Wrap(sz)).value)]
  {
    if compute.None? then Failure(NullReference("ShaderCompute"))
    else if !compute.value.valid then Success([])
    else
      var (sx, sy, sz) := compute.value.workGroupSize;
      var w :- GroupCount(threadsX, Wrap(sx));
      var h :- GroupCount(threadsY, Wrap(sy));
      var depth :- GroupCount(threadsZ, Wrap(sz));
      DispatchComputeGroups(compute, w, h, depth)
  }

  /** An invalid compute shader never dispatches. */
  lemma InvalidShaderNeverDispatches(compute: ShaderProgram.Shader, x: int32, y: int32, z: int32)
    requires !compute.valid
    ensures DispatchComputeGroups(Some(compute), x, y, z) == Success([])
    ensures DispatchComputeThreads(Some(compute), x, y, z) == Success([])
  {
  }

  /** A valid shader whose work-group size fits dispatches groups covering
      every requested thread. */
  lemma DispatchCoversThreads(compute: ShaderProgram.Shader, x: int32, y: int32, z: int32)
    requires compute.valid
    requires var (sx, sy, sz) := compute.workGroupSize;
      && 1 <= sx < Two31 && 1 <= sy < Two31 && 1 <= sz < Two31
      && 0 <= x && x + sx - 1 < Two31 && 0 <= y && y + sy - 1 < Two31 && 0 <= z && z + sz - 1 < Two31
    ensures var r := DispatchComputeThreads(Some(compute), x, y, z);
      var (sx, sy, sz) := compute.workGroupSize;
      && r.Success? && |r.value| == 1
      && r.value[0].groupsX * sx >= x && r.value[0].groupsY * sy >= y && r.value[0].groupsZ * sz >= z
  {
    var (sx, sy, sz) := compute.workGroupSize;
    GroupCountIsCeiling(x, sx);
    GroupCountIsCeiling(y, sy);
    GroupCountIsCeiling(z, sz);
  }

  // ---------------------------------------------------------------------
  // Vertex input.

  /** Reference equality of two nullable formats. */
  predicate SameFormat(a: Option<VertexFormats.Format>, b: Option<VertexFormats.Format>) {
    (a.None? && b.None?) || (a.Some? && b.Some? && a.value.id == b.value.id)
  }

  /** `BindVertexFormat`: nothing for the current format; otherwise the
      format binds itself against the current one (a null format throws
      there) and becomes current. */
  function BindVertexFormat(d: Device, format: Option<VertexFormats.Format>): (r: Result<DeviceStep>)
    ensures SameFormat(d.vertexFormat, format) ==> r == Success(DeviceStep(d, []))
    ensures !SameFormat(d.vertexFormat, format) ==> (r.Failure? <==> format.None?)
    ensures !SameFormat(d.vertexFormat, format) && r.Success? ==>
      && r.value.device == d.(vertexFormat := format)
      && r.value.events == VertexFormats.Bind(format.value, d.vertexFormat)
  {
    if SameFormat(d.vertexFormat, format) then Success(DeviceStep(d, []))
    else if format.None? then Failure(NullReference("format"))
    else Success(DeviceStep(d.(vertexFormat := format), VertexFormats.Bind(format.value, d.vertexFormat)))
  }

  /** Binding a format twice issues its calls once. */
  lemma BindVertexFormatTwice(d: Device, format: VertexFormats.Format)
    ensures var first := BindVertexFormat(d, Some(format));
      && first.Success?
      && BindVertexFormat(first.value.device, Some(format)) == Success(DeviceStep(first.value.device, []))
  {
  }

  /** No call of `es` disables a vertex attribute array. */
  predicate NoDisable(es: seq<Event>) {
    forall i | 0 <= i < |es| :: !es[i].DisableVertexAttribArray?
  }

  lemma NoDisableConcat(a: seq<Event>, b: seq<Event>)
    requires NoDisable(a) && NoDisable(b)
    ensures NoDisable(a + b)
  {
    forall i | 0 <= i < |a + b| ensures !(a + b)[i].DisableVertexAttribArray? {
      if i < |a| {
        assert (a + b)[i] == a[i];
      } else {
        assert (a + b)[i] == b[i - |a|];
      }
    }
  }

  /** After `Invalidate`, a format binds as if nothing were bound before:
      every attribute is enabled, with no disable. */
  lemma InvalidateRebindsFormat(d: Device, format: VertexFormats.Format)
    ensures var r := BindVertexFormat(Invalidate(d), Some(format));
      && r.Success?
      && r.value.events == VertexFormats.Bind(format, None)
      && NoDisable(r.value.events)
  {
    var a := VertexFormats.EnableAll(format.attributes);
    var b := VertexFormats.BindAll(format.attributes);
    NoDisableInEnableAll(format.attributes);
    NoDisableInBindAll(format.attributes);
    NoDisableConcat(a, a);
    NoDisableConcat(a + a, b);
  }

  lemma {:induction false} NoDisableInEnableAll(attrs: seq<VertexFormats.Attrib>)
    ensures NoDisable(VertexFormats.EnableAll(attrs))
  {
    if attrs != [] {
      NoDisableInEnableAll(attrs[1..]);
      NoDisableConcat([EnableVertexAttribArray(attrs[0].attribIndex)], VertexFormats.EnableAll(attrs[1..]));
    }
  }

  lemma {:induction false} NoDisableInBindAll(attrs: seq<VertexFormats.Attrib>)
    ensures NoDisable(VertexFormats.BindAll(attrs))
  {
    if attrs != [] {
      NoDisableInBindAll(attrs[1..]);
      NoDisableConcat(VertexFormats.AttribBind(attrs[0]), VertexFormats.BindAll(attrs[1..]));
    }
  }

  /** `BindVertexBufferSource`: the source binds its buffers when it is
      not the current one (a null source throws there); it becomes current
      either way. */
  function BindVertexBufferSource(d: Device, source: Option<nat>): (r: Result<DeviceStep>)
    ensures r.Failure? <==> d.vertexSource != source && source.None?
    ensures r.Success? ==> r.value.device == d.(vertexSource := source)
    ensures r.Success? ==> (r.value.events != [] <==> d.vertexSource != source)
    ensures r.Success? && r.value.events != [] ==> r.value.events == [BindVertexBuffers(source.value)]
  {
    if d.vertexSource != source then
      if source.None? then Failure(NullReference("vertexBufferSource"))
      else Success(DeviceStep(d.(vertexSource := source), [BindVertexBuffers(source.value)]))
    else Success(DeviceStep(d.(vertexSource := source), []))
  }

  /** A second bind of the same source issues nothing. */
  lemma BindVertexBufferSourceTwice(d: Device, source: nat)
    ensures var first := BindVertexBufferSource(d, Some(source));
      && first.Success?
      && BindVertexBufferSource(first.value.device, Some(source)) == Success(DeviceStep(first.value.device, []))
  {
  }

  // ---------------------------------------------------------------------
  // The driver state the fixed-function binds set.

  datatype GlState = GlState(
    cullEnabled: bool, cullFace: Face, polygonFront: PolygonMode, polygonBack: PolygonMode,
    depthMask: bool, depthFunc: DepthFunction,
    colorMask: (bool, bool, bool, bool),
    blendEnabled: bool,
    blendFunc: (BlendFactor, BlendFactor, BlendFactor, BlendFactor),
    blendEquation: (BlendEquation, BlendEquation))

  /** The effect of one call. */
  function Apply(g: GlState, e: Event): GlState {
    match e
    case Enable(cap) => if cap == CullFace then g.(cullEnabled := true) else g.(blendEnabled := true)
    case Disable(cap) => if cap == CullFace then g.(cullEnabled := false) else g.(blendEnabled := false)
    case CullFaceMode(face) => g.(cullFace := face)
    case SetPolygonMode(face, mode) =>
      if face == Front then g.(polygonFront := mode)
      else if face == Back then g.(polygonBack := mode)
      else g.(polygonFront := mode, polygonBack := mode)
    case DepthMask(flag) => g.(depthMask := flag)
    case DepthFunc(func) => g.(depthFunc := func)
    case ColorMask(r, gr, b, a) => g.(colorMask := (r, gr, b, a))
    case BlendFuncSeparate(sr, dr, sa, da) => g.(blendFunc := (sr, dr, sa, da))
    case BlendEquationSeparate(mr, ma) => g.(blendEquation := (mr, ma))
    case _ => g
  }

  /** The effect of a sequence of calls. */
  function Run(g: GlState, es: seq<Event>): GlState
    decreases |es|
  {
    if es == [] then g else Run(Apply(g, es[0]), es[1..])
  }

  lemma {:induction false} RunConcat(g: GlState, a: seq<Event>, b: seq<Event>)
    ensures Run(g, a + b) == Run(Run(g, a), b)
    decreases |a|
  {
    if a == [] {
      assert a + b == b;
    } else {
      assert (a + b)[1..] == a[1..] + b;
      RunConcat(Apply(g, a[0]), a[1..], b);
    }
  }

  lemma RunSingle(g: GlState, e: Event)
    ensures Run(g, [e]) == Apply(g, e)
  {
    assert [e][1..] == [];
  }

  // ---------------------------------------------------------------------
  // Rasterizer state.

  function FaceOf(c: CullfaceState): Face
    requires c != CullNone
  {
    match c
    case CullFront => Front
    case CullBack => Back
    case CullFrontAndBack => FrontAndBack
  }

  /** The cached rasterizer state describes the driver. */
  predicate RasterizerMirrored(current: Option<RasterizerState>, g: GlState) {
    current.Some? ==>
      var s := current.value;
      && g.cullEnabled == (s.cull != CullNone)
      && (s.cull != CullNone ==> g.cullFace == FaceOf(s.cull))
      && g.polygonFront == s.polygonFront && g.polygonBack == s.polygonBack
  }

  /** The cull calls: the enable toggle when culling switches on or off,
      then the face when there is one. */
  function CullEvents(current: Option<RasterizerState>, s: RasterizerState): seq<Event> {
    var toggle :=
      if current.None? || (current.value.cull == CullNone) != (s.cull == CullNone) then
        (if s.cull == CullNone then [Disable(CullFace)] else [Enable(CullFace)])
      else [];
    toggle + (if s.cull != CullNone then [CullFaceMode(FaceOf(s.cull))] else [])
  }

  /** The polygon-mode calls: one call for both sides when they agree,
      otherwise one per side that differs from the cache. */
  function PolygonEvents(current: Option<RasterizerState>, s: RasterizerState): seq<Event> {
    if s.polygonFront == s.polygonBack then
      if current.None? || current.value.polygonFront != s.polygonFront || current.value.polygonBack != s.polygonBack then
        [SetPolygonMode(FrontAndBack, s.polygonFront)]
      else []
    else
      (if current.None? || current.value.polygonFront != s.polygonFront then [SetPolygonMode(Front, s.polygonFront)] else [])
      + (if current.None? || current.value.polygonBack != s.polygonBack then [SetPolygonMode(Back, s.polygonBack)] else [])
  }

  /** Reference equality of the cached and the new state. */
  predicate SameRasterizer(current: Option<RasterizerState>, s: RasterizerState) {
    current.Some? && current.value.id == s.id
  }

  /** `BindRasterizerState` as written: the polygon modes are only looked at
      when the cull state changes. */
  function RasterizerEventsAsWritten(current: Option<RasterizerState>, s: RasterizerState): (es: seq<Event>)
    ensures SameRasterizer(current, s) ==> es == []
    ensures current.Some? && current.value.cull == s.cull ==> es == []
  {
    if SameRasterizer(current, s) then []
    else if current.None? || current.value.cull != s.cull then CullEvents(current, s) + PolygonEvents(current, s)
    else []
  }

  /** `BindRasterizerState` with the polygon modes compared whatever the
      cull state does. */
  function RasterizerEvents(current: Option<RasterizerState>, s: RasterizerState): (es: seq<Event>)
    ensures SameRasterizer(current, s) ==> es == []
  {
    if SameRasterizer(current, s) then []
    else
      (if current.None? || current.value.cull != s.cull then CullEvents(current, s) else [])
      + PolygonEvents(current, s)
  }

  /** A cull enable toggle is issued only when culling switches on or
      off. */
  lemma CullToggleOnlyOnSwitch(current: Option<RasterizerState>, s: RasterizerState)
    requires current.Some? && (current.value.cull == CullNone) == (s.cull == CullNone)
    ensures Enable(CullFace) !in RasterizerEvents(current, s) && Disable(CullFace) !in RasterizerEvents(current, s)
    ensures Enable(CullFace) !in RasterizerEventsAsWritten(current, s) && Disable(CullFace) !in RasterizerEventsAsWritten(current, s)
  {
  }

  /** `BindRasterizerState` on the device; a null state throws. */
  function BindRasterizerState(d: Device, state: Option<RasterizerState>): (r: Result<DeviceStep>)
    ensures r.Failure? <==> state.None?
    ensures r.Success? ==> r.value.device == d.(rasterizer := state)
    ensures r.Success? ==> r.value.events == RasterizerEvents(d.rasterizer, state.value)
  {
    if state.None? then Failure(NullReference("Rasterizer state cannot be null!"))
    else Success(DeviceStep(d.(rasterizer := state), RasterizerEvents(d.rasterizer, state.value)))
  }

  /** `BindRasterizerState` on the device as written: the same cache
      update, with the calls of `RasterizerEventsAsWritten`. */
  function BindRasterizerStateAsWritten(d: Device, state: Option<RasterizerState>): (r: Result<DeviceStep>)
    ensures r.Failure? <==> state.None?
    ensures r.Success? ==> r.value.device == d.(rasterizer := state)
    ensures r.Success? ==> r.value.events == RasterizerEventsAsWritten(d.rasterizer, state.value)
  {
    if state.None? then Failure(NullReference("Rasterizer state cannot be null!"))
    else Success(DeviceStep(d.(rasterizer := state), RasterizerEventsAsWritten(d.rasterizer, state.value)))
  }

  /** The written and the corrected bind issue the same calls exactly when
      the cull setting changes, nothing was cached, the same state is bound
      again, or the polygon modes need no call. */
  lemma RasterizerAsWrittenAgreement(d: Device, s: RasterizerState)
    ensures var written, fixed := BindRasterizerStateAsWritten(d, Some(s)), BindRasterizerState(d, Some(s));
      && written.Success? && fixed.Success? && written.value.device == fixed.value.device
      && (written.value.events == fixed.value.events <==>
            SameRasterizer(d.rasterizer, s) || d.rasterizer.None? || d.rasterizer.value.cull != s.cull
            || PolygonEvents(d.rasterizer, s) == [])
  {
    var c := d.rasterizer;
    if !SameRasterizer(c, s) && c.Some? && c.value.cull == s.cull {
      assert RasterizerEvents(c, s) == [] + PolygonEvents(c, s);
    }
  }

  lemma CullEventsMirror(current: Option<RasterizerState>, s: RasterizerState, g: GlState)
    requires RasterizerMirrored(current, g)
    ensures var g1 := Run(g, CullEvents(current, s));
      && g1.cullEnabled == (s.cull != CullNone)
      && (s.cull != CullNone ==> g1.cullFace == FaceOf(s.cull))
      && g1.polygonFront == g.polygonFront && g1.polygonBack == g.polygonBack
  {
    var toggle :=
      if current.None? || (current.value.cull == CullNone) != (s.cull == CullNone) then
        (if s.cull == CullNone then [Disable(CullFace)] else [Enable(CullFace)])
      else [];
    var face := if s.cull != CullNone then [CullFaceMode(FaceOf(s.cull))] else [];
    RunConcat(g, toggle, face);
    if toggle != [] { RunSingle(g, toggle[0]); }
    if face != [] { RunSingle(Run(g, toggle), face[0]); }
  }

  lemma PolygonEventsMirror(current: Option<RasterizerState>, s: RasterizerState, g: GlState)
    requires current.Some? ==> g.polygonFront == current.value.polygonFront && g.polygonBack == current.value.polygonBack
    ensures var g1 := Run(g, PolygonEvents(current, s));
      && g1.polygonFront == s.polygonFront && g1.polygonBack == s.polygonBack
      && g1.cullEnabled == g.cullEnabled && g1.cullFace == g.cullFace
  {
    if s.polygonFront == s.polygonBack {
      if PolygonEvents(current, s) != [] { RunSingle(g, PolygonEvents(current, s)[0]); }
    } else {
      var front := if current.None? || current.value.polygonFront != s.polygonFront then [SetPolygonMode(Front, s.polygonFront)] else [];
      var back := if current.None? || current.value.polygonBack != s.polygonBack then [SetPolygonMode(Back, s.polygonBack)] else [];
      RunConcat(g, front, back);
      if front != [] { RunSingle(g, front[0]); }
      if back != [] { RunSingle(Run(g, front), back[0]); }
    }
  }

  /** With the polygon modes compared independently, a bind leaves the
      driver as the new state describes, whatever was bound before. */
  lemma RasterizerBindMirrors(current: Option<RasterizerState>, s: RasterizerState, g: GlState)
    requires RasterizerMirrored(current, g)
    requires SameRasterizer(current, s) ==> current.value == s
    ensures RasterizerMirrored(Some(s), Run(g, RasterizerEvents(current, s)))
  {
    if !SameRasterizer(current, s) {
      var cull := if current.None? || current.value.cull != s.cull then CullEvents(current, s) else [];
      RunConcat(g, cull, PolygonEvents(current, s));
      if cull != [] {
        CullEventsMirror(current, s, g);
      }
      PolygonEventsMirror(current, s, Run(g, cull));
    }
  }

  /** As written, switching to a state with the same cull setting but other
      polygon modes issues nothing, so the driver keeps the old modes while
      the cache holds the new state. */
  lemma RasterizerAsWrittenKeepsPolygonMode()
    ensures var current := RasterizerState(1, CullBack, Fill, Fill);
      var s := RasterizerState(2, CullBack, Line, Line);
      var g := GlState(true, Back, Fill, Fill, false, Always, (true, true, true, true), false,
                       (One, Zero, One, Zero), (FuncAdd, FuncAdd));
      && RasterizerMirrored(Some(current), g)
      && RasterizerEventsAsWritten(Some(current), s) == []
      && !RasterizerMirrored(Some(s), Run(g, RasterizerEventsAsWritten(Some(current), s)))
      && RasterizerEvents(Some(current), s) == [SetPolygonMode(FrontAndBack, Line)]
  {
  }

  // ---------------------------------------------------------------------
  // Depth state.

  predicate DepthMirrored(current: Option<DepthState>, g: GlState) {
    current.Some? ==> g.depthMask == current.value.mask && g.depthFunc == current.value.func
  }

  /** `BindDepthState`: each of the mask and the function is issued when
      nothing is cached or it differs from the cache. */
  function BindDepthState(d: Device, s: DepthState): (r: DeviceStep)
    ensures r.device == d.(depth := Some(s))
    ensures DepthMask(s.mask) in r.events <==> d.depth.None? || d.depth.value.mask != s.mask
    ensures DepthFunc(s.func) in r.events <==> d.depth.None? || d.depth.value.func != s.func
    ensures |r.events| <= 2
  {
    var mask := if d.depth.None? || d.depth.value.mask != s.mask then [DepthMask(s.mask)] else [];
    var func := if d.depth.None? || d.depth.value.func != s.func then [DepthFunc(s.func)] else [];
    DeviceStep(d.(depth := Some(s)), mask + func)
  }

  /** A depth bind leaves the driver as the new state describes. */
  lemma DepthBindMirrors(d: Device, s: DepthState, g: GlState)
    requires DepthMirrored(d.depth, g)
    ensures DepthMirrored(Some(s), Run(g, BindDepthState(d, s).events))
  {
    var mask := if d.depth.None? || d.depth.value.mask != s.mask then [DepthMask(s.mask)] else [];
    var func := if d.depth.None? || d.depth.value.func != s.func then [DepthFunc(s.func)] else [];
    RunConcat(g, mask, func);
    if mask != [] { RunSingle(g, mask[0]); }
    if func != [] { RunSingle(Run(g, mask), func[0]); }
  }

  /** Binding the cached depth state again issues nothing. */
  lemma BindDepthStateTwice(d: Device, s: DepthState)
    ensures BindDepthState(BindDepthState(d, s).device, s).events == []
  {
  }

  // ---------------------------------------------------------------------
  // Blend state.

  /** The cached blend state describes the driver. */
  predicate BlendMirrored(current: Option<Blending.BlendState>, g: GlState) {
    current.Some? ==>
      var s := current.value;
      var m := s.colorBlendMode;
      && g.colorMask == (s.maskR, s.maskG, s.maskB, s.maskA)
      && g.blendEnabled == Blending.IsBlendingEnabled(m)
      && g.blendFunc == (m.srcRgb, m.dstRgb, m.srcAlpha, m.dstAlpha)
      && g.blendEquation == (m.modeRgb, m.modeAlpha)
  }

  function ColorMaskEvents(current: Option<Blending.BlendState>, s: Blending.BlendState): seq<Event> {
    if current.None? || current.value.maskR != s.maskR || current.value.maskG != s.maskG
       || current.value.maskB != s.maskB || current.value.maskA != s.maskA
    then [ColorMask(s.maskR, s.maskG, s.maskB, s.maskA)]
    else []
  }

  /** The blend enable calls as written: with nothing cached both
      conditions hold, so `Enable` is followed by `Disable`. */
  function BlendToggleAsWritten(current: Option<Blending.BlendState>, s: Blending.BlendState): seq<Event> {
    var m := s.colorBlendMode;
    (if current.None? || (!Blending.IsBlendingEnabled(current.value.colorBlendMode) && Blending.IsBlendingEnabled(m))
     then [Enable(Blend)] else [])
    + (if current.None? || (Blending.IsBlendingEnabled(current.value.colorBlendMode) && !Blending.IsBlendingEnabled(m))
       then [Disable(Blend)] else [])
  }

  /** The blend enable call with nothing cached chosen by the new mode. */
  function BlendToggle(current: Option<Blending.BlendState>, s: Blending.BlendState): seq<Event> {
    if current.None? then
      (if Blending.IsBlendingEnabled(s.colorBlendMode) then [Enable(Blend)] else [Disable(Blend)])
    else BlendToggleAsWritten(current, s)
  }

  /** The function and equation calls, each when its fields differ. */
  function BlendFuncEvents(current: Option<Blending.BlendState>, s: Blending.BlendState): seq<Event> {
    var m := s.colorBlendMode;
    (if current.None?
        || current.value.colorBlendMode.srcRgb != m.srcRgb || current.value.colorBlendMode.dstRgb != m.dstRgb
        || current.value.colorBlendMode.srcAlpha != m.srcAlpha || current.value.colorBlendMode.dstAlpha != m.dstAlpha
     then [BlendFuncSeparate(m.srcRgb, m.dstRgb, m.srcAlpha, m.dstAlpha)] else [])
    + (if current.None? || current.value.colorBlendMode.modeRgb != m.modeRgb || current.value.colorBlendMode.modeAlpha != m.modeAlpha
       then [BlendEquationSeparate(m.modeRgb, m.modeAlpha)] else [])
  }

  /** Whether the blend mode calls are considered at all. */
  predicate ModeChanged(current: Option<Blending.BlendState>, s: Blending.BlendState) {
    current.None? || !Blending.Equals(current.value.colorBlendMode, Some(s.colorBlendMode))
  }

  /** `BindBlendState` as written. */
  function BlendEventsAsWritten(current: Option<Blending.BlendState>, s: Blending.BlendState): (es: seq<Event>)
    ensures current.None? ==> |es| == 5 && es[1] == Enable(Blend) && es[2] == Disable(Blend)
  {
    ColorMaskEvents(current, s)
    + (if ModeChanged(current, s) then BlendToggleAsWritten(current, s) + BlendFuncEvents(current, s) else [])
  }

  /** `BindBlendState` with the enable call chosen by the new mode when
      nothing is cached. */
  function BlendEvents(current: Option<Blending.BlendState>, s: Blending.BlendState): (es: seq<Event>)
    ensures current.Some? ==> es == BlendEventsAsWritten(current, s)
  {
    ColorMaskEvents(current, s)
    + (if ModeChanged(current, s) then BlendToggle(current, s) + BlendFuncEvents(current, s) else [])
  }

  /** `BindBlendState` on the device. */
  function BindBlendState(d: Device, s: Blending.BlendState): (r: DeviceStep)
    ensures r.device == d.(blend := Some(s))
    ensures r.events == BlendEvents(d.blend, s)
  {
    DeviceStep(d.(blend := Some(s)), BlendEvents(d.blend, s))
  }

  /** `BindBlendState` on the device as written: the same cache update,
      with the calls of `BlendEventsAsWritten`. */
  function BindBlendStateAsWritten(d: Device, s: Blending.BlendState): (r: DeviceStep)
    ensures r.device == d.(blend := Some(s))
    ensures r.events == BlendEventsAsWritten(d.blend, s)
  {
    DeviceStep(d.(blend := Some(s)), BlendEventsAsWritten(d.blend, s))
  }

  /** After `Invalidate` the written bind issues the mask, `Enable(Blend)`,
      `Disable(Blend)`, the function and the equation, in that order; the
      corrected bind issues the one enable call the mode asks for in place
      of the pair. Otherwise the two agree. */
  lemma BlendAsWrittenAfterInvalidate(d: Device, s: Blending.BlendState)
    ensures var m := s.colorBlendMode;
      BindBlendStateAsWritten(Invalidate(d), s).events
        == [ColorMask(s.maskR, s.maskG, s.maskB, s.maskA), Enable(Blend), Disable(Blend),
            BlendFuncSeparate(m.srcRgb, m.dstRgb, m.srcAlpha, m.dstAlpha), BlendEquationSeparate(m.modeRgb, m.modeAlpha)]
    ensures var m := s.colorBlendMode;
      BindBlendState(Invalidate(d), s).events
        == [ColorMask(s.maskR, s.maskG, s.maskB, s.maskA),
            if Blending.IsBlendingEnabled(m) then Enable(Blend) else Disable(Blend),
            BlendFuncSeparate(m.srcRgb, m.dstRgb, m.srcAlpha, m.dstAlpha), BlendEquationSeparate(m.modeRgb, m.modeAlpha)]
    ensures d.blend.Some? ==> BindBlendStateAsWritten(d, s) == BindBlendState(d, s)
  {
  }

  lemma ColorMaskMirror(current: Option<Blending.BlendState>, s: Blending.BlendState, g: GlState)
    requires BlendMirrored(current, g)
    ensures var g1 := Run(g, ColorMaskEvents(current, s));
      g1 == g.(colorMask := (s.maskR, s.maskG, s.maskB, s.maskA))
  {
    if ColorMaskEvents(current, s) != [] { RunSingle(g, ColorMaskEvents(current, s)[0]); }
  }

  lemma BlendFuncMirror(current: Option<Blending.BlendState>, s: Blending.BlendState, g: GlState)
    requires current.Some? ==> g.blendFunc == (current.value.colorBlendMode.srcRgb, current.value.colorBlendMode.dstRgb,
                                               current.value.colorBlendMode.srcAlpha, current.value.colorBlendMode.dstAlpha)
    requires current.Some? ==> g.blendEquation == (current.value.colorBlendMode.modeRgb, current.value.colorBlendMode.modeAlpha)
    ensures var m := s.colorBlendMode;
      var g1 := Run(g, BlendFuncEvents(current, s));
      g1 == g.(blendFunc := (m.srcRgb, m.dstRgb, m.srcAlpha, m.dstAlpha), blendEquation := (m.modeRgb, m.modeAlpha))
  {
    var m := s.colorBlendMode;
    var f := if current.None?
        || current.value.colorBlendMode.srcRgb != m.srcRgb || current.value.colorBlendMode.dstRgb != m.dstRgb
        || current.value.colorBlendMode.srcAlpha != m.srcAlpha || current.value.colorBlendMode.dstAlpha != m.dstAlpha
      then [BlendFuncSeparate(m.srcRgb, m.dstRgb, m.srcAlpha, m.dstAlpha)] else [];
    var e := if current.None? || current.value.colorBlendMode.modeRgb != m.modeRgb || current.value.colorBlendMode.modeAlpha != m.modeAlpha
      then [BlendEquationSeparate(m.modeRgb, m.modeAlpha)] else [];
    RunConcat(g, f, e);
    if f != [] { RunSingle(g, f[0]); }
    if e != [] { RunSingle(Run(g, f), e[0]); }
  }

  lemma BlendToggleMirror(current: Option<Blending.BlendState>, s: Blending.BlendState, g: GlState)
    requires current.Some? ==> g.blendEnabled == Blending.IsBlendingEnabled(current.value.colorBlendMode)
    ensures Run(g, BlendToggle(current, s)) == g.(blendEnabled := Blending.IsBlendingEnabled(s.colorBlendMode))
  {
    var t := BlendToggle(current, s);
    if current.None? {
      RunSingle(g, t[0]);
    } else {
      var m := s.colorBlendMode;
      var c := current.value.colorBlendMode;
      var en := if !Blending.IsBlendingEnabled(c) && Blending.IsBlendingEnabled(m) then [Enable(Blend)] else [];
      var dis := if Blending.IsBlendingEnabled(c) && !Blending.IsBlendingEnabled(m) then [Disable(Blend)] else [];
      RunConcat(g, en, dis);
      if en != [] { RunSingle(g, en[0]); }
      if dis != [] { RunSingle(Run(g, en), dis[0]); }
    }
  }

  /** A blend bind leaves the driver as the new state describes, whatever
      was bound before. */
  lemma BlendBindMirrors(current: Option<Blending.BlendState>, s: Blending.BlendState, g: GlState)
    requires BlendMirrored(current, g)
    ensures BlendMirrored(Some(s), Run(g, BlendEvents(current, s)))
  {
    var mask := ColorMaskEvents(current, s);
    ColorMaskMirror(current, s, g);
    var g1 := Run(g, mask);
    if ModeChanged(current, s) {
      var t := BlendToggle(current, s);
      var f := BlendFuncEvents(current, s);
      RunConcat(g, mask, t + f);
      RunConcat(g1, t, f);
      BlendToggleMirror(current, s, g1);
      BlendFuncMirror(current, s, Run(g1, t));
    } else {
      RunConcat(g, mask, []);
      Blending.EqualsIsFieldwise(current.value.colorBlendMode, s.colorBlendMode);
    }
  }

  /** As written, the first blend bind after `Invalidate` leaves blending
      disabled in the driver, whatever the new mode. */
  lemma BlendAsWrittenDisablesAfterInvalidate(g: GlState, s: Blending.BlendState)
    ensures !Run(g, BlendEventsAsWritten(None, s)).blendEnabled
    ensures Blending.IsBlendingEnabled(s.colorBlendMode) ==> !BlendMirrored(Some(s), Run(g, BlendEventsAsWritten(None, s)))
  {
    var a := ColorMaskEvents(None, s);
    var t := BlendToggleAsWritten(None, s);
    var f := BlendFuncEvents(None, s);
    assert BlendEventsAsWritten(None, s) == a + (t + f);
    RunConcat(g, a, t + f);
    var g1 := Run(g, a);
    RunConcat(g1, t, f);
    ToggleAsWrittenFromNothing(g1, s);
    BlendFuncMirror(None, s, Run(g1, t));
  }

  /** With nothing cached, the toggle as written ends disabled. */
  lemma ToggleAsWrittenFromNothing(g: GlState, s: Blending.BlendState)
    ensures !Run(g, BlendToggleAsWritten(None, s)).blendEnabled
  {
    var t := BlendToggleAsWritten(None, s);
    assert t == [Enable(Blend)] + [Disable(Blend)];
    RunConcat(g, [Enable(Blend)], [Disable(Blend)]);
    RunSingle(Run(g, [Enable(Blend)]), Disable(Blend));
  }

  /** Binding the cached blend state again issues nothing, as written or
      corrected. */
  lemma BlendRebindIssuesNothing(s: Blending.BlendState)
    ensures BlendEventsAsWritten(Some(s), s) == [] && BlendEvents(Some(s), s) == []
  {
    Blending.EqualsIsFieldwise(s.colorBlendMode, s.colorBlendMode);
  }

  /** So binding alpha blending after `Invalidate` leaves it off in the
      driver for good, while the corrected bind turns it on. */
  lemma AlphaBlendingAfterInvalidate(g: GlState)
    ensures var s := Blending.BlendState(true, true, true, true, Blending.AlphaBlending);
      && !Run(g, BlendEventsAsWritten(None, s)).blendEnabled
      && BlendEventsAsWritten(Some(s), s) == []
      && Run(g, BlendEvents(None, s)).blendEnabled
  {
    var s := Blending.BlendState(true, true, true, true, Blending.AlphaBlending);
    Blending.Presets();
    BlendAsWrittenDisablesAfterInvalidate(g, s);
    BlendRebindIssuesNothing(s);
    BlendBindMirrors(None, s, g);
  }
}
