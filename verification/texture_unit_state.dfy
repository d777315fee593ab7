/** `TextureUnitState`: the device's cache of the active texture unit and
    of what is bound to each of the 32 units. A unit holds at most one
    binding, whatever its target. */
module TextureUnits {
  import opened Wrappers
  import opened Gl
  import opened Int32

  const NumTextureUnits: nat := 32

  /** `TextureBinding`. */
  datatype TextureBinding = TextureBinding(target: TextureTarget, texture: int)

  /** `_activeTextureUnit` and `_textureBindings` (`None` is null). */
  datatype UnitState = UnitState(active: int, bindings: seq<Option<TextureBinding>>)

  predicate Valid(s: UnitState) {
    |s.bindings| == NumTextureUnits
  }

  /** A call's result. `thrown` is set when the call ends in an
      `IndexOutOfRangeException`; the state and events are then those
      reached before the throw. */
  datatype UnitStep = UnitStep(state: UnitState, events: seq<Event>, thrown: bool)

  /** `Invalidate`: no active unit, every slot empty. */
  function Invalidate(s: UnitState): (r: UnitState)
    ensures Valid(r) && r.active == -1
    ensures forall u | 0 <= u < NumTextureUnits :: r.bindings[u].None?
  {
    UnitState(-1, seq(NumTextureUnits, _ => None))
  }

  /** The constructor. */
  function NewUnitState(): (r: UnitState)
    ensures Valid(r) && r == Invalidate(r)
  {
    UnitState(-1, seq(NumTextureUnits, _ => None))
  }

  /** `TextureBinding.Equals(TextureBinding)`: false for null. */
  predicate BindingEquals(a: TextureBinding, other: Option<TextureBinding>) {
    other.Some? && a.target == other.value.target && a.texture == other.value.texture
  }

  /** The static `operator !=` between a slot and a new binding. */
  predicate BindingDiffers(slot: Option<TextureBinding>, b: TextureBinding) {
    !BindingEquals(b, slot)
  }

  /** The OpenGL value of a texture target (`(int)TextureTarget`). */
  function TargetValue(t: TextureTarget): int32 {
    match t
    case Texture1D => 0x0DE0
    case Texture2D => 0x0DE1
    case Texture3D => 0x806F
    case Texture1DArray => 0x8C18
    case Texture2DArray => 0x8C1A
    case TextureCubeMap => 0x8513
    case TextureCubeMapArray => 0x9009
    case Texture2DMultisample => 0x9100
    case Texture2DMultisampleArray => 0x9102
    case TextureRectangle => 0x84F5
    case TextureBuffer => 0x8C2A
  }

  /** `TextureBinding.GetHashCode`: `((int)Target * 397) ^ Texture`. */
  function BindingHash(b: TextureBinding): bv32 {
    Combine(Bits(TargetValue(b.target)), Bits(Wrap(b.texture)))
  }

  /** `GetCurrentBinding`: `(0, Texture2D)` for an empty slot; an index
      outside the array throws (`None`). */
  function GetCurrentBinding(s: UnitState, unit: int): (r: Option<(int, TextureTarget)>)
    requires Valid(s)
    ensures r.None? <==> !(0 <= unit < NumTextureUnits)
    ensures r.Some? && s.bindings[unit].None? ==> r.value == (0, Texture2D)
    ensures r.Some? && s.bindings[unit].Some? ==> r.value == (s.bindings[unit].value.texture, s.bindings[unit].value.target)
  {
    if !(0 <= unit < NumTextureUnits) then None
    else match s.bindings[unit]
      case None => Some((0, Texture2D))
      case Some(b) => Some((b.texture, b.target))
  }

  /** `UseTextureUnit`: `ActiveTexture` is issued when the unit changes and
      is not negative; the unit becomes active either way. */
  function UseTextureUnit(s: UnitState, unit: int): (r: (UnitState, seq<Event>))
    ensures r.0 == s.(active := unit)
    ensures r.1 != [] <==> s.active != unit && unit >= 0
    ensures r.1 != [] ==> r.1 == [ActiveTexture(unit)]
  {
    (s.(active := unit), if s.active != unit && unit >= 0 then [ActiveTexture(unit)] else [])
  }

  /** The unit a call uses: a negative unit means the last one. */
  function EffectiveUnit(unit: int): (u: int)
    ensures unit < 0 ==> u == NumTextureUnits - 1
    ensures unit >= 0 ==> u == unit
  {
    if unit < 0 then NumTextureUnits - 1 else unit
  }

  /** `BindTexture(target, texture, unit)`. The unit is made active first;
      a unit past the array then throws. Otherwise the texture is bound
      when the slot is empty or holds a different binding. */
  function BindTexture(s: UnitState, target: TextureTarget, texture: int, unit: int): (r: UnitStep)
    requires Valid(s)
    ensures Valid(r.state)
    ensures var u := EffectiveUnit(unit);
      && r.state.active == u
      && (r.thrown <==> u >= NumTextureUnits)
      && |r.events| <= 2
      && (s.active != u <==> |r.events| > 0 && r.events[0] == ActiveTexture(u))
      && (r.thrown ==> r.state.bindings == s.bindings)
      && (!r.thrown ==> r.state.bindings == s.bindings[u := Some(TextureBinding(target, texture))])
    ensures var u := EffectiveUnit(unit);
      !r.thrown ==>
        (BindingDiffers(s.bindings[u], TextureBinding(target, texture)) <==> |r.events| > 0 && r.events[|r.events| - 1] == Gl.BindTexture(target, texture))
  {
    var u := EffectiveUnit(unit);
    var binding := TextureBinding(target, texture);
    var (s1, activate) := UseTextureUnit(s, u);
    if u >= NumTextureUnits then UnitStep(s1, activate, true)
    else if BindingDiffers(s1.bindings[u], binding) then
      UnitStep(s1.(bindings := s1.bindings[u := Some(binding)]), activate + [Gl.BindTexture(target, texture)], false)
    else
      UnitStep(s1, activate, false)
  }

  // ---------------------------------------------------------------------
  // Properties.

  lemma BindingEqualsIsFieldwise(a: TextureBinding, b: TextureBinding)
    ensures BindingEquals(a, Some(b)) <==> a == b
    ensures !BindingEquals(a, None)
    ensures BindingEquals(a, Some(b)) ==> BindingHash(a) == BindingHash(b)
  {
  }

  /** Binding the same texture to the same unit twice issues nothing the
      second time and changes nothing. */
  lemma BindTextureTwice(s: UnitState, target: TextureTarget, texture: int, unit: int)
    requires Valid(s)
    requires EffectiveUnit(unit) < NumTextureUnits
    ensures var first := BindTexture(s, target, texture, unit);
      var second := BindTexture(first.state, target, texture, unit);
      && second.events == [] && second.state == first.state && !second.thrown
  {
  }

  /** A bind changes only its own slot. */
  lemma BindTextureTouchesOneSlot(s: UnitState, target: TextureTarget, texture: int, unit: int, other: nat)
    requires Valid(s) && other < NumTextureUnits && other != EffectiveUnit(unit)
    ensures BindTexture(s, target, texture, unit).state.bindings[other] == s.bindings[other]
  {
  }

  /** After `Invalidate`, every bind to a unit in range issues both an
      `ActiveTexture` and a `BindTexture`. */
  lemma InvalidateForcesBind(s: UnitState, target: TextureTarget, texture: int, unit: int)
    requires Valid(s) && EffectiveUnit(unit) < NumTextureUnits
    ensures BindTexture(Invalidate(s), target, texture, unit).events
      == [ActiveTexture(EffectiveUnit(unit)), Gl.BindTexture(target, texture)]
  {
  }

  /** A bound texture is what `GetCurrentBinding` then reports. */
  lemma BindThenGet(s: UnitState, target: TextureTarget, texture: int, unit: int)
    requires Valid(s) && EffectiveUnit(unit) < NumTextureUnits
    ensures GetCurrentBinding(BindTexture(s, target, texture, unit).state, EffectiveUnit(unit)) == Some((texture, target))
  {
  }
}
