/** `BlendState` and `BlendMode`: the colour mask and the blend function and
    equations, as immutable values. */
module Blending {
  import opened Wrappers
  import opened Gl
  import opened Int32

  /** `BlendMode`. */
  datatype BlendMode = BlendMode(
    srcRgb: BlendFactor, dstRgb: BlendFactor,
    srcAlpha: BlendFactor, dstAlpha: BlendFactor,
    modeRgb: BlendEquation, modeAlpha: BlendEquation)

  /** `BlendState`. */
  datatype BlendState = BlendState(maskR: bool, maskG: bool, maskB: bool, maskA: bool, colorBlendMode: BlendMode)

  /** The constructor with the equation modes left at their default. */
  function NewBlendMode(srcRgb: BlendFactor, dstRgb: BlendFactor, srcAlpha: BlendFactor, dstAlpha: BlendFactor): (m: BlendMode)
    ensures m.modeRgb == FuncAdd && m.modeAlpha == FuncAdd
    ensures m.srcRgb == srcRgb && m.dstRgb == dstRgb && m.srcAlpha == srcAlpha && m.dstAlpha == dstAlpha
  {
    BlendMode(srcRgb, dstRgb, srcAlpha, dstAlpha, FuncAdd, FuncAdd)
  }

  const Overwrite: BlendMode := NewBlendMode(One, Zero, One, Zero)
  const Additive: BlendMode := NewBlendMode(One, One, One, One)
  const AlphaBlending: BlendMode := NewBlendMode(SrcAlpha, OneMinusSrcAlpha, SrcAlpha, OneMinusSrcAlpha)

  /** `new BlendState()`: every channel written, no blending. */
  function DefaultBlendState(): (s: BlendState)
    ensures s.maskR && s.maskG && s.maskB && s.maskA && s.colorBlendMode == Overwrite
  {
    BlendState(true, true, true, true, Overwrite)
  }

  /** `IsBlendingEnabled`: false only for the pass-through setting
      `(One, Zero, One, Zero, FuncAdd, FuncAdd)`. */
  predicate IsBlendingEnabled(m: BlendMode) {
    !(m.srcRgb == One && m.srcAlpha == One && m.dstRgb == Zero && m.dstAlpha == Zero
      && m.modeRgb == FuncAdd && m.modeAlpha == FuncAdd)
  }

  /** `Equals(BlendMode other)`: false for null, otherwise fieldwise. */
  predicate Equals(a: BlendMode, other: Option<BlendMode>) {
    && other.Some?
    && a.srcRgb == other.value.srcRgb && a.dstRgb == other.value.dstRgb
    && a.srcAlpha == other.value.srcAlpha && a.dstAlpha == other.value.dstAlpha
    && a.modeRgb == other.value.modeRgb && a.modeAlpha == other.value.modeAlpha
  }

  /** The static `operator ==`. */
  predicate OpEquals(left: Option<BlendMode>, right: Option<BlendMode>) {
    if left.None? || right.None? then left.None? && right.None? else Equals(left.value, right)
  }

  predicate OpNotEquals(left: Option<BlendMode>, right: Option<BlendMode>) {
    !OpEquals(left, right)
  }

  /** The OpenGL value of a blend factor (`(int)BlendingFactorSrc`). */
  function FactorValue(f: BlendFactor): int32 {
    match f
    case Zero => 0
    case One => 1
    case SrcColor => 0x0300
    case OneMinusSrcColor => 0x0301
    case SrcAlpha => 0x0302
    case OneMinusSrcAlpha => 0x0303
    case DstAlpha => 0x0304
    case OneMinusDstAlpha => 0x0305
    case DstColor => 0x0306
    case OneMinusDstColor => 0x0307
    case SrcAlphaSaturate => 0x0308
    case ConstantColor => 0x8001
    case OneMinusConstantColor => 0x8002
    case ConstantAlpha => 0x8003
    case OneMinusConstantAlpha => 0x8004
  }

  /** The OpenGL value of a blend equation (`(int)BlendEquationMode`). */
  function EquationValue(e: BlendEquation): int32 {
    match e
    case FuncAdd => 0x8006
    case Min => 0x8007
    case Max => 0x8008
    case FuncSubtract => 0x800A
    case FuncReverseSubtract => 0x800B
  }

  /** `GetHashCode`. */
  function Hash(m: BlendMode): bv32 {
    var h := Bits(FactorValue(m.srcRgb));
    var h := Combine(h, Bits(FactorValue(m.dstRgb)));
    var h := Combine(h, Bits(FactorValue(m.srcAlpha)));
    var h := Combine(h, Bits(FactorValue(m.dstAlpha)));
    var h := Combine(h, Bits(EquationValue(m.modeRgb)));
    Combine(h, Bits(EquationValue(m.modeAlpha)))
  }

  /** Exactly one setting does not blend: the one `Overwrite` holds. */
  lemma BlendingDisabledOnlyForOverwrite(m: BlendMode)
    ensures !IsBlendingEnabled(m) <==> m == Overwrite
  {
  }

  lemma Presets()
    ensures !IsBlendingEnabled(Overwrite)
    ensures IsBlendingEnabled(Additive) && IsBlendingEnabled(AlphaBlending)
  {
  }

  lemma EqualsIsFieldwise(a: BlendMode, b: BlendMode)
    ensures Equals(a, Some(b)) <==> a == b
    ensures !Equals(a, None)
  {
  }

  lemma EqualModesHashEqually(a: BlendMode, b: BlendMode)
    requires Equals(a, Some(b))
    ensures Hash(a) == Hash(b)
  {
  }

  lemma NotEqualsNegates(left: Option<BlendMode>, right: Option<BlendMode>)
    ensures OpNotEquals(left, right) <==> !OpEquals(left, right)
    ensures OpEquals(left, right) <==> left == right
  {
  }

  /** Distinct factors have distinct values, so the hash tells the presets
      apart. */
  lemma FactorValueInjective(f: BlendFactor, g: BlendFactor)
    ensures FactorValue(f) == FactorValue(g) <==> f == g
  {
  }
}
