/** `BufferBindingManager`: the device's cache of indexed buffer bindings,
    one lazily created array of 32 binding points per target. */
module BufferBindings {
  import opened Wrappers
  import opened Gl

  const BufferBindingPoints: nat := 32

  /** `BufferBinding`; offsets and sizes are `IntPtr` values. */
  datatype BufferBinding = BufferBinding(buffer: int, offset: int, size: int)

  /** `_bufferBindings`: a target absent from the map has no array yet. */
  type Manager = map<BufferRangeTarget, seq<Option<BufferBinding>>>

  predicate Valid(m: Manager) {
    forall t | t in m :: |m[t]| == BufferBindingPoints
  }

  /** A call's result; `thrown` marks the `IndexOutOfRangeException` of a
      binding point outside the array, with the state reached before it. */
  datatype BindStep = BindStep(manager: Manager, events: seq<Event>, thrown: bool)

  function NewManager(): (m: Manager)
    ensures Valid(m) && m == map[]
  {
    map[]
  }

  /** `Invalidate`: every array is dropped. */
  function Invalidate(m: Manager): (r: Manager)
    ensures Valid(r) && forall t :: t !in r
  {
    map[]
  }

  /** The array of `target`, created empty if missing. */
  function EnsureArray(m: Manager, target: BufferRangeTarget): (r: Manager)
    requires Valid(m)
    ensures Valid(r) && target in r
    ensures target in m ==> r == m
    ensures target !in m ==> r == m[target := seq(BufferBindingPoints, _ => None)]
  {
    if target in m then m else m[target := seq(BufferBindingPoints, _ => None)]
  }

  /** `IsBindingDifferent`: an empty slot, or any field differs. */
  predicate IsBindingDifferent(slot: Option<BufferBinding>, b: BufferBinding) {
    slot.None? || slot.value.buffer != b.buffer || slot.value.offset != b.offset || slot.value.size != b.size
  }

  /** The common body of `BindBufferBase` and `BindBufferRange`: `call` is
      the GL call the public method would issue. */
  function Bind(m: Manager, target: BufferRangeTarget, point: int, b: BufferBinding, call: Event): (r: BindStep)
    requires Valid(m)
    ensures Valid(r.manager) && target in r.manager
    ensures r.thrown <==> !(0 <= point < BufferBindingPoints)
    ensures r.thrown ==> r.manager == EnsureArray(m, target) && r.events == []
    ensures !r.thrown ==>
      var slot := EnsureArray(m, target)[target][point];
      && (r.events != [] <==> IsBindingDifferent(slot, b))
      && (r.events != [] ==> r.events == [call] && r.manager == EnsureArray(m, target)[target := EnsureArray(m, target)[target][point := Some(b)]])
      && (r.events == [] ==> r.manager == EnsureArray(m, target))
  {
    var m1 := EnsureArray(m, target);
    if !(0 <= point < BufferBindingPoints) then BindStep(m1, [], true)
    else if IsBindingDifferent(m1[target][point], b) then
      BindStep(m1[target := m1[target][point := Some(b)]], [call], false)
    else BindStep(m1, [], false)
  }

  /** `BindBufferBase`: a range bind with offset and size 0, issued as
      `glBindBufferBase`. */
  function BindBufferBase(m: Manager, target: BufferRangeTarget, point: int, buffer: int): (r: BindStep)
    requires Valid(m)
    ensures r == Bind(m, target, point, BufferBinding(buffer, 0, 0), Gl.BindBufferBase(target, point, buffer))
  {
    Bind(m, target, point, BufferBinding(buffer, 0, 0), Gl.BindBufferBase(target, point, buffer))
  }

  /** `BindBufferRange`. */
  function BindBufferRange(m: Manager, target: BufferRangeTarget, point: int, buffer: int, offset: int, size: int): (r: BindStep)
    requires Valid(m)
    ensures r == Bind(m, target, point, BufferBinding(buffer, offset, size), Gl.BindBufferRange(target, point, buffer, offset, size))
  {
    Bind(m, target, point, BufferBinding(buffer, offset, size), Gl.BindBufferRange(target, point, buffer, offset, size))
  }

  // ---------------------------------------------------------------------
  // Properties.

  /** What a slot holds, `None` when its array does not exist. */
  function Slot(m: Manager, target: BufferRangeTarget, point: nat): Option<BufferBinding>
    requires Valid(m) && point < BufferBindingPoints
  {
    if target in m then m[target][point] else None
  }

  /** A bind changes no other slot of any target. */
  lemma BindTouchesOneSlot(m: Manager, target: BufferRangeTarget, point: int, b: BufferBinding, call: Event,
                           t: BufferRangeTarget, p: nat)
    requires Valid(m) && p < BufferBindingPoints && (t != target || p != point)
    ensures Slot(Bind(m, target, point, b, call).manager, t, p) == Slot(m, t, p)
  {
  }

  /** After a bind in range the slot holds the new binding, and repeating
      the bind issues nothing. */
  lemma BindIsIdempotent(m: Manager, target: BufferRangeTarget, point: int, b: BufferBinding, call: Event)
    requires Valid(m) && 0 <= point < BufferBindingPoints
    ensures var first := Bind(m, target, point, b, call);
      var second := Bind(first.manager, target, point, b, call);
      && Slot(first.manager, target, point) == Some(b)
      && second.events == [] && second.manager == first.manager
  {
  }

  /** After `Invalidate`, every bind in range issues its call. */
  lemma InvalidateForcesBind(m: Manager, target: BufferRangeTarget, point: int, b: BufferBinding, call: Event)
    requires Valid(m) && 0 <= point < BufferBindingPoints
    ensures Bind(Invalidate(m), target, point, b, call).events == [call]
  {
  }

  /** A base bind after a range bind of the same buffer with a non-zero
      range is issued again, and the other way round. */
  lemma BaseDiffersFromRange(m: Manager, target: BufferRangeTarget, point: int, buffer: int, offset: int, size: int)
    requires Valid(m) && 0 <= point < BufferBindingPoints && (offset != 0 || size != 0)
    ensures var first := BindBufferRange(m, target, point, buffer, offset, size);
      BindBufferBase(first.manager, target, point, buffer).events == [Gl.BindBufferBase(target, point, buffer)]
  {
  }
}
