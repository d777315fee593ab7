/** `StreamBuffer`: a persistently mapped buffer split into
    `bufferingLevel` segments used round-robin, one per frame, each guarded
    by the fence of its previous use. The mapping itself is not modelled:
    what is kept is the segment position, the fences and the static byte
    counter. */
module StreamBuffers {
  import opened Wrappers
  import opened Gl
  import opened Int32

  /** A fence is a `FenceSync` object, named by its identity; `None` is
      null. */
  type Fence = Option<nat>

  datatype StreamBuffer = StreamBuffer(handle: int, size: int32, bufferingLevel: int32, position: int, fences: seq<Fence>)

  /** What every buffer satisfies between calls. A buffer of level 0 has
      no segment, and its position only counts failed advances. */
  predicate Valid(b: StreamBuffer) {
    && |b.fences| == b.bufferingLevel
    && 0 <= b.position
    && (b.bufferingLevel > 0 ==> b.position < b.bufferingLevel)
  }

  /** The result of the constructor: the buffer, or the
      `OverflowException` of a negative level, and the static
      `TotalBytesPerFrame` afterwards, which grows before the throw. */
  datatype Created = Created(buffer: Result<StreamBuffer>, total: int32)

  /** The constructor; `handle` is what `GL.GenBuffer` returned. */
  function NewStreamBuffer(total: int32, handle: int, size: int32, bufferingLevel: int32): (r: Created)
    ensures r.total == Wrap(total + size)
    ensures r.buffer.Failure? <==> bufferingLevel < 0
    ensures r.buffer.Failure? ==> r.buffer.error == Overflow
    ensures r.buffer.Success? ==>
      var b := r.buffer.value;
      && Valid(b) && b.position == 0 && b.size == size && b.handle == handle
      && b.bufferingLevel == bufferingLevel
      && forall i | 0 <= i < |b.fences| :: b.fences[i].None?
  {
    var total' := Wrap(total + size);
    if bufferingLevel < 0 then Created(Failure(Overflow), total')
    else Created(Success(StreamBuffer(handle, size, bufferingLevel, 0, seq(bufferingLevel, _ => None))), total')
  }

  /** `CurrentOffset`: `Size * _position` in wrapping `int` arithmetic. */
  function CurrentOffset(b: StreamBuffer): (r: int32)
    ensures -Two31 <= b.size * b.position < Two31 ==> r == b.size * b.position
  {
    Wrap(b.size * b.position)
  }

  /** The result of `Advance`; `thrown` marks the `IndexOutOfRangeException`
      of a buffer without segments, with the position already moved. */
  datatype Advanced = Advanced(buffer: StreamBuffer, events: seq<Event>, thrown: bool)

  /** The segment after the current one. */
  function NextPosition(b: StreamBuffer): (p: int)
    requires Valid(b)
    ensures b.bufferingLevel > 0 ==> p == (b.position + 1) % b.bufferingLevel
    ensures b.bufferingLevel == 0 ==> p == b.position + 1
  {
    if b.position + 1 == b.bufferingLevel then 0 else b.position + 1
  }

  /** `Advance(sync)`: moves to the next segment, waits on the fence left
      there by its previous use, and leaves `sync` in its place. */
  function Advance(b: StreamBuffer, sync: Fence): (r: Advanced)
    requires Valid(b)
    ensures Valid(r.buffer)
    ensures r.thrown <==> b.bufferingLevel == 0
    ensures r.buffer.size == b.size && r.buffer.bufferingLevel == b.bufferingLevel && r.buffer.handle == b.handle
    ensures r.buffer.position == NextPosition(b)
    ensures r.thrown ==> r.events == [] && r.buffer.fences == b.fences
    ensures !r.thrown ==>
      var p := r.buffer.position;
      && r.buffer.fences[p] == sync
      && (forall i | 0 <= i < |b.fences| && i != p :: r.buffer.fences[i] == b.fences[i])
      && (b.fences[p].Some? ==> r.events == [ClientWaitSync(b.fences[p].value)])
      && (b.fences[p].None? ==> r.events == [])
  {
    var p := NextPosition(b);
    if !(p < |b.fences|) then Advanced(b.(position := p), [], true)
    else
      var wait := if b.fences[p].Some? then [ClientWaitSync(b.fences[p].value)] else [];
      Advanced(b.(position := p, fences := b.fences[p := sync]), wait, false)
  }

  // ---------------------------------------------------------------------
  // Properties.

  /** The offset of a segment stays within the buffer when the whole
      buffer's size fits an `int`. */
  lemma OffsetWithinBuffer(b: StreamBuffer)
    requires Valid(b) && b.bufferingLevel > 0 && b.size >= 0
    requires b.size * b.bufferingLevel < Two31
    ensures CurrentOffset(b) == b.size * b.position
    ensures 0 <= CurrentOffset(b) <= b.size * (b.bufferingLevel - 1)
  {
    MulMonotone(b.size, b.position, b.bufferingLevel - 1);
    MulMonotone(b.size, b.bufferingLevel - 1, b.bufferingLevel);
  }

  lemma MulMonotone(a: nat, x: nat, y: nat)
    requires x <= y
    ensures a * x <= a * y
  {
  }

  /** `Advance` applied once per element of `syncs`, ignoring the events. */
  function AdvanceAll(b: StreamBuffer, syncs: seq<Fence>): (r: StreamBuffer)
    requires Valid(b) && b.bufferingLevel > 0
    ensures Valid(r) && r.bufferingLevel == b.bufferingLevel
    decreases |syncs|
  {
    if syncs == [] then b else AdvanceAll(Advance(b, syncs[0]).buffer, syncs[1..])
  }

  /** The segment `n` places after `p` round a ring of `level` segments,
      for `n` up to a full turn. */
  function Ahead(p: int, n: int, level: int): int {
    if p + n < level then p + n else p + n - level
  }

  /** After `n` advances, at most a full turn, the position has moved `n`
      segments round the ring. */
  lemma {:induction false} AdvanceAllPosition(b: StreamBuffer, syncs: seq<Fence>)
    requires Valid(b) && b.bufferingLevel > 0 && |syncs| <= b.bufferingLevel as int
    ensures AdvanceAll(b, syncs).position == Ahead(b.position, |syncs|, b.bufferingLevel)
    decreases |syncs|
  {
    if syncs != [] {
      AdvanceAllPosition(Advance(b, syncs[0]).buffer, syncs[1..]);
    }
  }

  /** After `bufferingLevel` advances the position is back where it
      started. */
  lemma FullCycleReturns(b: StreamBuffer, syncs: seq<Fence>)
    requires Valid(b) && b.bufferingLevel > 0 && |syncs| == b.bufferingLevel as int
    ensures AdvanceAll(b, syncs).position == b.position
  {
    AdvanceAllPosition(b, syncs);
  }

  /** After `n <= bufferingLevel` advances, the `j`-th segment ahead of the
      start holds the `j`-th fence given, and the segments not yet reached
      are untouched. */
  lemma {:induction false} AdvanceAllFences(b: StreamBuffer, syncs: seq<Fence>, j: nat)
    requires Valid(b) && b.bufferingLevel > 0 && |syncs| <= b.bufferingLevel as int
    requires 1 <= j <= b.bufferingLevel as int
    ensures var r := AdvanceAll(b, syncs);
      var slot := Ahead(b.position, j, b.bufferingLevel);
      && (j <= |syncs| ==> r.fences[slot] == syncs[j - 1])
      && (j > |syncs| ==> r.fences[slot] == b.fences[slot])
    decreases |syncs|
  {
    var level := b.bufferingLevel as int;
    if syncs != [] {
      var b1 := Advance(b, syncs[0]).buffer;
      var p1 := b1.position;
      assert p1 == Ahead(b.position, 1, level);
      if j == 1 {
        if |syncs| > 1 {
          // The first fence's slot is the one the remaining advances reach last.
          AdvanceAllFences(b1, syncs[1..], level);
        } else {
          assert AdvanceAll(b1, syncs[1..]) == b1;
        }
      } else {
        AdvanceAllFences(b1, syncs[1..], j - 1);
      }
    }
  }

  /** Every segment is written only after waiting on the fence of its
      previous use: the advance after a full turn waits on the first fence
      given in that turn. */
  lemma WaitsOnPreviousUse(b: StreamBuffer, syncs: seq<Fence>, next: Fence)
    requires Valid(b) && b.bufferingLevel > 0 && |syncs| == b.bufferingLevel as int
    requires syncs[0].Some?
    ensures Advance(AdvanceAll(b, syncs), next).events == [ClientWaitSync(syncs[0].value)]
  {
    AdvanceAllPosition(b, syncs);
    AdvanceAllFences(b, syncs, 1);
  }
}
