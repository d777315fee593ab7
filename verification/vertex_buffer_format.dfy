/** `VertexBufferFormat` and `VertexAttribDescription`: the layout of the
    vertex attributes, and the enable/disable difference issued when one
    format replaces another. */
module VertexFormats {
  import opened Wrappers
  import opened Gl
  import opened Int32

  const MaxAttributes: nat := 16

  /** `VertexAttribClass`. */
  datatype AttribClass = FloatClass | IntegerClass | DoubleClass

  /** `VertexAttribDescription`. */
  datatype Attrib = Attrib(
    attribIndex: int32, bindingIndex: int32, size: int32, relativeOffset: int32,
    attribType: AttribType, dataClass: AttribClass, normalized: bool)

  /** An `int` used as a set of bits: bit `j` is `mask[j]`. */
  type Mask = m: seq<bool> | |m| == 32 witness seq(32, _ => false)

  /** `VertexBufferFormat`: its identity (the device compares formats by
      reference), its attributes and the mask of their indices. */
  datatype Format = Format(id: nat, attributes: seq<Attrib>, mask: Mask)

  // ---------------------------------------------------------------------
  // Attribute descriptions.

  /** The constructor as written: the bound check reads the field
      `AttribIndex`, which is still 0 when it is tested, so it never
      throws. */
  function NewAttribAsWritten(attribIndex: int32, bindingIndex: int32, size: int32, relativeOffset: int32,
                              attribType: AttribType, dataClass: AttribClass, normalized: bool): (r: Result<Attrib>)
    ensures r.Success? && r.value == Attrib(attribIndex, bindingIndex, size, relativeOffset, attribType, dataClass, normalized)
  {
    var fieldBeforeAssignment: int := 0;
    if fieldBeforeAssignment >= MaxAttributes then Failure(AttributeIndexTooHigh)
    else Success(Attrib(attribIndex, bindingIndex, size, relativeOffset, attribType, dataClass, normalized))
  }

  /** The constructor with the check on the argument, as its message says:
      an index of 16 or more is refused. */
  function NewAttrib(attribIndex: int32, bindingIndex: int32, size: int32, relativeOffset: int32,
                     attribType: AttribType, dataClass: AttribClass, normalized: bool): (r: Result<Attrib>)
    ensures r.Success? <==> attribIndex < MaxAttributes
    ensures r.Success? ==> r.value == Attrib(attribIndex, bindingIndex, size, relativeOffset, attribType, dataClass, normalized)
  {
    if attribIndex >= MaxAttributes then Failure(AttributeIndexTooHigh)
    else Success(Attrib(attribIndex, bindingIndex, size, relativeOffset, attribType, dataClass, normalized))
  }

  /** An index past the limit is accepted as written and refused by the
      corrected constructor. */
  lemma AttribIndexCheckIsIneffective()
    ensures NewAttribAsWritten(40, 0, 3, 0, FloatType, FloatClass, false).Success?
    ensures NewAttrib(40, 0, 3, 0, FloatType, FloatClass, false).Failure?
    ensures AttribBit(40) == AttribBit(8)
  {
    assert AttribBit(40) == AttribBit(8) by {
      forall j | 0 <= j < 32 ensures AttribBit(40)[j] == AttribBit(8)[j] {}
    }
  }

  /** `Equals(VertexAttribDescription other)`: false for null, otherwise
      all seven fields. */
  predicate AttribEquals(a: Attrib, other: Option<Attrib>) {
    && other.Some?
    && a.attribIndex == other.value.attribIndex && a.bindingIndex == other.value.bindingIndex
    && a.size == other.value.size && a.relativeOffset == other.value.relativeOffset
    && a.attribType == other.value.attribType && a.dataClass == other.value.dataClass
    && a.normalized == other.value.normalized
  }

  predicate AttribOpEquals(left: Option<Attrib>, right: Option<Attrib>) {
    if left.None? || right.None? then left.None? && right.None? else AttribEquals(left.value, right)
  }

  predicate AttribOpNotEquals(left: Option<Attrib>, right: Option<Attrib>) {
    !AttribOpEquals(left, right)
  }

  /** The OpenGL value of an attribute type (`(int)VertexAttribType`). */
  function TypeValue(t: AttribType): int32 {
    match t
    case Byte => 0x1400
    case UnsignedByte => 0x1401
    case Short => 0x1402
    case UnsignedShort => 0x1403
    case Int => 0x1404
    case UnsignedInt => 0x1405
    case FloatType => 0x1406
    case DoubleType => 0x140A
    case HalfFloat => 0x140B
    case Fixed => 0x140C
  }

  function ClassValue(c: AttribClass): int32 {
    match c
    case FloatClass => 0
    case IntegerClass => 1
    case DoubleClass => 2
  }

  /** `GetHashCode`. */
  function AttribHash(a: Attrib): bv32 {
    var h := Bits(a.attribIndex);
    var h := Combine(h, Bits(a.bindingIndex));
    var h := Combine(h, Bits(a.size));
    var h := Combine(h, Bits(a.relativeOffset));
    var h := Combine(h, Bits(TypeValue(a.attribType)));
    var h := Combine(h, Bits(ClassValue(a.dataClass)));
    Combine(h, BoolHash(a.normalized))
  }

  lemma AttribEqualsIsFieldwise(a: Attrib, b: Attrib)
    ensures AttribEquals(a, Some(b)) <==> a == b
    ensures !AttribEquals(a, None)
    ensures AttribEquals(a, Some(b)) ==> AttribHash(a) == AttribHash(b)
  {
  }

  lemma AttribNotEqualsNegates(left: Option<Attrib>, right: Option<Attrib>)
    ensures AttribOpNotEquals(left, right) <==> !AttribOpEquals(left, right)
    ensures AttribOpEquals(left, right) <==> left == right
  {
  }

  /** `Bind()` of one attribute: the format call its class selects, then
      the binding index. */
  function AttribBind(a: Attrib): (es: seq<Event>)
    ensures |es| == 2 && es[1] == VertexAttribBinding(a.attribIndex, a.bindingIndex)
    ensures es[0].VertexAttribIFormat? <==> a.dataClass == IntegerClass
    ensures es[0].VertexAttribLFormat? <==> a.dataClass == DoubleClass
    ensures es[0].VertexAttribFormat? <==> a.dataClass == FloatClass
  {
    var format := match a.dataClass
      case IntegerClass => VertexAttribIFormat(a.attribIndex, a.size, a.attribType, a.relativeOffset)
      case DoubleClass => VertexAttribLFormat(a.attribIndex, a.size, a.attribType, a.relativeOffset)
      case FloatClass => VertexAttribFormat(a.attribIndex, a.size, a.attribType, a.normalized, a.relativeOffset);
    [format, VertexAttribBinding(a.attribIndex, a.bindingIndex)]
  }

  // ---------------------------------------------------------------------
  // The format.

  /** The mask `0`. */
  function NoBits(): (m: Mask)
    ensures forall j | 0 <= j < 32 :: !m[j]
  {
    seq(32, _ => false)
  }

  /** `1 << index` on `int`: C# uses only the low five bits of the shift
      count. */
  function AttribBit(index: int32): (m: Mask)
    ensures forall j | 0 <= j < 32 :: m[j] <==> j == index % 32
  {
    seq(32, j => j == index % 32)
  }

  /** `a | b`. */
  function Or(a: Mask, b: Mask): (m: Mask)
    ensures forall j | 0 <= j < 32 :: m[j] <==> a[j] || b[j]
  {
    seq(32, j requires 0 <= j < 32 => a[j] || b[j])
  }

  /** `a & ~b`. */
  function AndNot(a: Mask, b: Mask): (m: Mask)
    ensures forall j | 0 <= j < 32 :: m[j] <==> a[j] && !b[j]
  {
    seq(32, j requires 0 <= j < 32 => a[j] && !b[j])
  }

  /** The mask of `attrs`: the OR of their bits. */
  function MaskOf(attrs: seq<Attrib>): Mask {
    if attrs == [] then NoBits() else Or(MaskOf(attrs[..|attrs| - 1]), AttribBit(attrs[|attrs| - 1].attribIndex))
  }

  /** The mask has bit `j` exactly when some attribute's index is `j`
      modulo 32. */
  lemma {:induction false} MaskOfBits(attrs: seq<Attrib>, j: nat)
    requires j < 32
    ensures MaskOf(attrs)[j] <==> exists k | 0 <= k < |attrs| :: attrs[k].attribIndex % 32 == j
  {
    if attrs != [] {
      var init := attrs[..|attrs| - 1];
      MaskOfBits(init, j);
      if exists k | 0 <= k < |init| :: init[k].attribIndex % 32 == j {
        var k :| 0 <= k < |init| && init[k].attribIndex % 32 == j;
        assert attrs[k] == init[k];
      }
      if exists k | 0 <= k < |attrs| :: attrs[k].attribIndex % 32 == j {
        var k :| 0 <= k < |attrs| && attrs[k].attribIndex % 32 == j;
        if k < |init| {
          assert init[k] == attrs[k];
        }
      }
    }
  }

  lemma MaskOfAllBits(attrs: seq<Attrib>)
    ensures forall j | 0 <= j < 32 :: MaskOf(attrs)[j] <==> exists k | 0 <= k < |attrs| :: attrs[k].attribIndex % 32 == j
  {
    forall j | 0 <= j < 32 ensures MaskOf(attrs)[j] <==> exists k | 0 <= k < |attrs| :: attrs[k].attribIndex % 32 == j {
      MaskOfBits(attrs, j);
    }
  }

  /** The constructor: null is an empty list, more than 16 attributes
      throw, and the mask collects the attribute bits. */
  function NewFormat(id: nat, attributes: Option<seq<Attrib>>): (r: Result<Format>)
    ensures attributes.None? ==> r == Success(Format(id, [], NoBits()))
    ensures attributes.Some? ==> (r.Success? <==> |attributes.value| <= MaxAttributes)
    ensures r.Success? ==> r.value.id == id && r.value.attributes == attributes.GetOr([])
    ensures r.Success? ==> forall j | 0 <= j < 32 ::
      r.value.mask[j] <==> exists k | 0 <= k < |r.value.attributes| :: r.value.attributes[k].attribIndex % 32 == j
  {
    var attrs := attributes.GetOr([]);
    if |attrs| > MaxAttributes then Failure(TooManyAttributes)
    else
      MaskOfAllBits(attrs);
      Success(Format(id, attrs, MaskOf(attrs)))
  }

  /** The disable and enable masks of `Bind(previous)`. */
  function DisableMask(before: Mask, after: Mask): Mask {
    AndNot(before, after)
  }

  function EnableMask(before: Mask, after: Mask): Mask {
    AndNot(after, before)
  }

  /** No bit is both disabled and enabled, and applying both to the
      previous mask gives the new one. */
  lemma MaskDiff(before: Mask, after: Mask)
    ensures forall j | 0 <= j < 32 :: !(DisableMask(before, after)[j] && EnableMask(before, after)[j])
    ensures Or(AndNot(before, DisableMask(before, after)), EnableMask(before, after)) == after
  {
    var r := Or(AndNot(before, DisableMask(before, after)), EnableMask(before, after));
    assert forall j | 0 <= j < 32 :: r[j] == after[j];
  }

  /** The loop over bits `i .. 15` of `Bind(previous)`: a disable, then an
      enable, for each bit set in the respective mask. */
  function DiffEvents(disable: Mask, enable: Mask, i: nat): seq<Event>
    requires i <= MaxAttributes
    decreases MaxAttributes - i
  {
    if i == MaxAttributes then []
    else
      (if disable[i] then [DisableVertexAttribArray(i)] else [])
      + (if enable[i] then [EnableVertexAttribArray(i)] else [])
      + DiffEvents(disable, enable, i + 1)
  }

  function EnableAll(attrs: seq<Attrib>): seq<Event> {
    if attrs == [] then [] else [EnableVertexAttribArray(attrs[0].attribIndex)] + EnableAll(attrs[1..])
  }

  function BindAll(attrs: seq<Attrib>): seq<Event> {
    if attrs == [] then [] else AttribBind(attrs[0]) + BindAll(attrs[1..])
  }

  /** `Bind(previous)`: with a previous format, the bits 0 to 15 of the two
      masks are compared; without one, every attribute is enabled. Then
      every attribute is enabled again and formatted. */
  function Bind(f: Format, previous: Option<Format>): (es: seq<Event>)
    ensures previous.None? ==> es == EnableAll(f.attributes) + EnableAll(f.attributes) + BindAll(f.attributes)
    ensures previous.Some? ==> es == DiffEvents(DisableMask(previous.value.mask, f.mask), EnableMask(previous.value.mask, f.mask), 0)
                                + EnableAll(f.attributes) + BindAll(f.attributes)
  {
    var diff := if previous.Some? then DiffEvents(DisableMask(previous.value.mask, f.mask), EnableMask(previous.value.mask, f.mask), 0)
                else EnableAll(f.attributes);
    diff + EnableAll(f.attributes) + BindAll(f.attributes)
  }

  // ---------------------------------------------------------------------
  // What the driver ends up with.

  /** The effect of one call on the set of enabled vertex attribute
      arrays. */
  function EnabledStep(enabled: set<int>, e: Event): set<int> {
    if e.EnableVertexAttribArray? then enabled + {e.index}
    else if e.DisableVertexAttribArray? then enabled - {e.index}
    else enabled
  }

  /** The set of enabled vertex attribute arrays after `es`. */
  function EnabledAfter(enabled: set<int>, es: seq<Event>): set<int>
    decreases |es|
  {
    if es == [] then enabled else EnabledAfter(EnabledStep(enabled, es[0]), es[1..])
  }

  lemma {:induction false} EnabledAfterConcat(enabled: set<int>, a: seq<Event>, b: seq<Event>)
    ensures EnabledAfter(enabled, a + b) == EnabledAfter(EnabledAfter(enabled, a), b)
    decreases |a|
  {
    if a != [] {
      assert (a + b)[1..] == a[1..] + b;
      EnabledAfterConcat(EnabledStep(enabled, a[0]), a[1..], b);
    } else {
      assert a + b == b;
    }
  }

  /** The indices of `attrs`. */
  function Indices(attrs: seq<Attrib>): set<int> {
    set k | 0 <= k < |attrs| :: attrs[k].attribIndex as int
  }

  /** Enabling every attribute adds exactly their indices. */
  lemma {:induction false} EnableAllAdds(enabled: set<int>, attrs: seq<Attrib>)
    ensures EnabledAfter(enabled, EnableAll(attrs)) == enabled + Indices(attrs)
    decreases |attrs|
  {
    if attrs != [] {
      EnableAllAdds(enabled + {attrs[0].attribIndex as int}, attrs[1..]);
      assert Indices(attrs) == {attrs[0].attribIndex as int} + Indices(attrs[1..]) by {
        forall x | x in Indices(attrs) ensures x in {attrs[0].attribIndex as int} + Indices(attrs[1..]) {
          var k :| 0 <= k < |attrs| && attrs[k].attribIndex as int == x;
          if k > 0 { assert attrs[1..][k - 1] == attrs[k]; }
        }
        forall x | x in Indices(attrs[1..]) ensures x in Indices(attrs) {
          var k :| 0 <= k < |attrs[1..]| && attrs[1..][k].attribIndex as int == x;
          assert attrs[k + 1] == attrs[1..][k];
        }
      }
    }
  }

  /** Formatting does not touch the enabled set. */
  lemma {:induction false} BindAllKeepsEnabled(enabled: set<int>, attrs: seq<Attrib>)
    ensures EnabledAfter(enabled, BindAll(attrs)) == enabled
  {
    if attrs != [] {
      var two := AttribBind(attrs[0]);
      EnabledAfterConcat(enabled, two, BindAll(attrs[1..]));
      assert EnabledAfter(enabled, two) == enabled by {
        var tail := two[1..];
        assert EnabledStep(enabled, two[0]) == enabled;
        assert tail[0] == two[1] && EnabledStep(enabled, tail[0]) == enabled;
        assert tail[1..] == [];
        assert EnabledAfter(enabled, tail) == EnabledAfter(enabled, tail[1..]);
      }
      BindAllKeepsEnabled(enabled, attrs[1..]);
    }
  }

  /** The diff loop from bit `lo` on leaves the other indices alone and
      sets every index from `lo` to 15 as the masks say. */
  lemma {:induction false} DiffEventsEffect(enabled: set<int>, disable: Mask, enable: Mask, lo: nat, x: int)
    requires lo <= MaxAttributes
    ensures x < lo || x >= MaxAttributes ==> (x in EnabledAfter(enabled, DiffEvents(disable, enable, lo)) <==> x in enabled)
    ensures lo <= x < MaxAttributes ==>
      (x in EnabledAfter(enabled, DiffEvents(disable, enable, lo)) <==> enable[x] || (x in enabled && !disable[x]))
    decreases MaxAttributes - lo
  {
    if lo < MaxAttributes {
      var d := if disable[lo] then [DisableVertexAttribArray(lo)] else [];
      var e := if enable[lo] then [EnableVertexAttribArray(lo)] else [];
      var rest := DiffEvents(disable, enable, lo + 1);
      assert DiffEvents(disable, enable, lo) == d + e + rest;
      EnabledAfterConcat(enabled, d + e, rest);
      EnabledAfterConcat(enabled, d, e);
      var mid := EnabledAfter(EnabledAfter(enabled, d), e);
      DiffEventsEffect(mid, disable, enable, lo + 1, x);
    }
  }

  /** When the driver's enabled arrays agree with the previous format on
      indices 0 to 15, binding a format whose indices all lie in that
      range leaves exactly its own attributes enabled there. Without a
      previous format nothing is disabled: its attributes are added to
      whatever the driver had enabled. */
  lemma BindEnablesExactly(enabled: set<int>, f: Format, previous: Option<Format>, x: int)
    requires 0 <= x < MaxAttributes as int
    requires f.mask == MaskOf(f.attributes)
    requires forall k | 0 <= k < |f.attributes| :: 0 <= f.attributes[k].attribIndex < MaxAttributes as int
    requires previous.Some? ==> previous.value.mask == MaskOf(previous.value.attributes)
    requires previous.Some? ==> forall k | 0 <= k < |previous.value.attributes| :: 0 <= previous.value.attributes[k].attribIndex < MaxAttributes as int
    requires previous.Some? ==> (x in enabled <==> x in Indices(previous.value.attributes))
    ensures previous.Some? ==> (x in EnabledAfter(enabled, Bind(f, previous)) <==> x in Indices(f.attributes))
    ensures previous.None? ==> (x in EnabledAfter(enabled, Bind(f, previous)) <==> x in enabled || x in Indices(f.attributes))
  {
    var attrs := f.attributes;
    var diff := if previous.Some? then DiffEvents(DisableMask(previous.value.mask, f.mask), EnableMask(previous.value.mask, f.mask), 0)
                else EnableAll(attrs);
    EnabledAfterConcat(enabled, diff + EnableAll(attrs), BindAll(attrs));
    EnabledAfterConcat(enabled, diff, EnableAll(attrs));
    var afterDiff := EnabledAfter(enabled, diff);
    EnableAllAdds(afterDiff, attrs);
    BindAllKeepsEnabled(afterDiff + Indices(attrs), attrs);
    if previous.Some? {
      var o := previous.value;
      DiffEventsEffect(enabled, DisableMask(o.mask, f.mask), EnableMask(o.mask, f.mask), 0, x);
      MaskOfBits(attrs, x);
      MaskOfBits(o.attributes, x);
      InRangeIndices(attrs, x);
      InRangeIndices(o.attributes, x);
    } else {
      EnableAllAdds(enabled, attrs);
    }
  }

  /** For indices in range, "some index is `x` modulo 32" and "`x` is an
      index" agree. */
  lemma InRangeIndices(attrs: seq<Attrib>, x: int)
    requires 0 <= x < MaxAttributes as int
    requires forall k | 0 <= k < |attrs| :: 0 <= attrs[k].attribIndex < MaxAttributes as int
    ensures (exists k | 0 <= k < |attrs| :: attrs[k].attribIndex % 32 == x) <==> x in Indices(attrs)
  {
    if x in Indices(attrs) {
      var k :| 0 <= k < |attrs| && attrs[k].attribIndex as int == x;
      assert attrs[k].attribIndex % 32 == x;
    }
  }
}
