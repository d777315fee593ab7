/** `Texture`: the bookkeeping a texture object keeps about its storage —
    format, mip levels, samples, dimensions — and about the texture it is a
    view of. The storage calls only record what they issue. */
module Textures {
  import opened Wrappers
  import opened Gl
  import Text

  /** The fields of `Texture`. `id` is the object's identity, which is what
      `ViewBase` refers to; `viewBase` is `None` for null. */
  datatype Texture = Texture(
    id: nat, handle: int, target: TextureTarget, name: string,
    format: InternalFormat, levels: int, samples: int,
    storageWidth: int, storageHeight: int, storageDepth: int,
    viewBase: Option<nat>,
    viewMinLevel: int, viewNumLevels: int, viewMinLayer: int, viewNumLayers: int)

  /** A call's result: the texture afterwards and the GL calls issued. */
  datatype TextureStep = TextureStep(texture: Texture, events: seq<Event>)

  /** The fields no storage or view call changes. */
  predicate SameObject(a: Texture, b: Texture) {
    a.id == b.id && a.handle == b.handle && a.target == b.target && a.name == b.name
  }

  /** The constructor: `handle` is what `GL.GenTexture` returned. The other
      fields keep their .NET defaults. */
  function NewTexture(id: nat, handle: int, target: TextureTarget, name: string): (t: Texture)
    ensures t.id == id && t.handle == handle && t.target == target && t.name == name
    ensures t.viewBase.None? && t.levels == 0
  {
    Texture(id, handle, target, name, 0, 0, 0, 0, 0, 0, None, 0, 0, 0, 0)
  }

  // ---------------------------------------------------------------------
  // Mip levels.

  function Pow2(k: nat): (r: nat)
    ensures r >= 1
  {
    if k == 0 then 1 else 2 * Pow2(k - 1)
  }

  /** `CountLevels(int width)`: the loop halving `width` while it exceeds 1,
      counting one level per halving plus the base level. */
  function CountLevels(width: int): (r: int)
    ensures r >= 1
    decreases width
  {
    if width > 1 then CountLevels(width / 2) + 1 else 1
  }

  /** The count is one more than the integer base-2 logarithm of the width:
      `2^(r-1) <= width < 2^r`. */
  lemma {:induction false} CountLevelsIsLog2(width: int)
    requires width >= 1
    ensures Pow2(CountLevels(width) - 1) <= width < Pow2(CountLevels(width))
    decreases width
  {
    if width > 1 {
      CountLevelsIsLog2(width / 2);
    }
  }

  /** A width of at most one has a single level. */
  lemma SmallWidthHasOneLevel(width: int)
    requires width <= 1
    ensures CountLevels(width) == 1
  {
  }

  /** The bounds of `CountLevelsIsLog2` determine the count. */
  lemma Log2IsUnique(width: int, r: int)
    requires r >= 1 && Pow2(r - 1) <= width < Pow2(r)
    ensures CountLevels(width) == r
  {
    CountLevelsIsLog2(width);
    var c := CountLevels(width);
    if c < r { Pow2Monotone(c, r - 1); }
    if c > r { Pow2Monotone(r, c - 1); }
  }

  lemma {:induction false} Pow2Monotone(a: nat, b: nat)
    requires a <= b
    ensures Pow2(a) <= Pow2(b)
    decreases b
  {
    if a < b {
      Pow2Monotone(a, b - 1);
    }
  }

  /** A wider texture never has fewer levels. */
  lemma {:induction false} CountLevelsMonotone(a: int, b: int)
    requires a <= b
    ensures CountLevels(a) <= CountLevels(b)
    decreases b
  {
    if a > 1 {
      CountLevelsMonotone(a / 2, b / 2);
    }
  }

  function Max(a: int, b: int): int {
    if a >= b then a else b
  }

  /** `CountLevels(int width, int height)`. */
  function CountLevels2(width: int, height: int): (r: int)
    ensures r == CountLevels(width) || r == CountLevels(height)
    ensures r >= CountLevels(width) && r >= CountLevels(height)
  {
    Max(CountLevels(width), CountLevels(height))
  }

  /** `CountLevels(int width, int height, int depth)`. */
  function CountLevels3(width: int, height: int, depth: int): (r: int)
    ensures r == CountLevels(width) || r == CountLevels(height) || r == CountLevels(depth)
    ensures r >= CountLevels(width) && r >= CountLevels(height) && r >= CountLevels(depth)
  {
    Max(Max(CountLevels(width), CountLevels(height)), CountLevels(depth))
  }

  /** The 2D and 3D counts are the count of the largest axis. */
  lemma LargestAxisDecides(width: int, height: int, depth: int)
    ensures CountLevels2(width, height) == CountLevels(Max(width, height))
    ensures CountLevels3(width, height, depth) == CountLevels(Max(Max(width, height), depth))
  {
    CountLevelsMonotone(width, Max(width, height));
    CountLevelsMonotone(height, Max(width, height));
    CountLevelsMonotone(Max(width, height), Max(Max(width, height), depth));
    CountLevelsMonotone(depth, Max(Max(width, height), depth));
  }

  // ---------------------------------------------------------------------
  // Storage.

  /** The label `Utils.SetObjectLabel` gives a texture. */
  function TextureLabelText(name: string, handle: int): string {
    "Texture: " + name + " (handle: " + Text.IntToString(handle) + ")"
  }

  /** `OnTextureStorage`: records what was allocated and that the texture
      is no view. An omitted height or depth is 0. */
  function OnTextureStorage(t: Texture, format: InternalFormat, levels: int, samples: int,
                            width: int, height: int, depth: int): (r: TextureStep)
    ensures SameObject(r.texture, t)
    ensures r.texture.format == format && r.texture.levels == levels && r.texture.samples == samples
    ensures r.texture.storageWidth == width && r.texture.storageHeight == height && r.texture.storageDepth == depth
    ensures r.texture.viewBase.None?
    ensures r.texture.viewMinLevel == -1 && r.texture.viewNumLevels == -1
    ensures r.texture.viewMinLayer == -1 && r.texture.viewNumLayers == -1
    ensures r.events == [ObjectLabel(TextureLabel, t.handle, TextureLabelText(t.name, t.handle))]
  {
    var u := t.(format := format, levels := levels, samples := samples,
                storageWidth := width, storageHeight := height, storageDepth := depth,
                viewBase := None, viewMinLevel := -1, viewNumLevels := -1, viewMinLayer := -1, viewNumLayers := -1);
    TextureStep(u, [ObjectLabel(TextureLabel, t.handle, TextureLabelText(t.name, t.handle))])
  }

  /** The level count the storage calls use: a count below 1 means "all of
      them". */
  function DefaultLevels(levels: int, count: int): (r: int)
    ensures levels >= 1 ==> r == levels
    ensures levels < 1 ==> r == count
  {
    if levels < 1 then count else levels
  }

  /** `TexStorage1D`. */
  function TexStorage1D(t: Texture, format: InternalFormat, width: int, levels: int): (r: TextureStep)
    ensures var n := DefaultLevels(levels, CountLevels(width));
      && r.events == [TexStorage(t.target, n, format, width, 0, 0), ObjectLabel(TextureLabel, t.handle, TextureLabelText(t.name, t.handle))]
      && r.texture.levels == n && r.texture.samples == 1
      && r.texture.storageWidth == width && r.texture.storageHeight == 0 && r.texture.storageDepth == 0
    ensures r.texture.viewBase.None? && SameObject(r.texture, t)
  {
    var n := DefaultLevels(levels, CountLevels(width));
    var s := OnTextureStorage(t, format, n, 1, width, 0, 0);
    TextureStep(s.texture, [TexStorage(t.target, n, format, width, 0, 0)] + s.events)
  }

  /** `TexStorage2D`. */
  function TexStorage2D(t: Texture, format: InternalFormat, width: int, height: int, levels: int): (r: TextureStep)
    ensures var n := DefaultLevels(levels, CountLevels2(width, height));
      && r.events == [TexStorage(t.target, n, format, width, height, 0), ObjectLabel(TextureLabel, t.handle, TextureLabelText(t.name, t.handle))]
      && r.texture.levels == n && r.texture.samples == 1
      && r.texture.storageWidth == width && r.texture.storageHeight == height && r.texture.storageDepth == 0
    ensures r.texture.viewBase.None? && SameObject(r.texture, t)
  {
    var n := DefaultLevels(levels, CountLevels2(width, height));
    var s := OnTextureStorage(t, format, n, 1, width, height, 0);
    TextureStep(s.texture, [TexStorage(t.target, n, format, width, height, 0)] + s.events)
  }

  /** `TexStorage3D`. */
  function TexStorage3D(t: Texture, format: InternalFormat, width: int, height: int, depth: int, levels: int): (r: TextureStep)
    ensures var n := DefaultLevels(levels, CountLevels3(width, height, depth));
      && r.events == [TexStorage(t.target, n, format, width, height, depth), ObjectLabel(TextureLabel, t.handle, TextureLabelText(t.name, t.handle))]
      && r.texture.levels == n && r.texture.samples == 1
      && r.texture.storageWidth == width && r.texture.storageHeight == height && r.texture.storageDepth == depth
    ensures r.texture.viewBase.None? && SameObject(r.texture, t)
  {
    var n := DefaultLevels(levels, CountLevels3(width, height, depth));
    var s := OnTextureStorage(t, format, n, 1, width, height, depth);
    TextureStep(s.texture, [TexStorage(t.target, n, format, width, height, depth)] + s.events)
  }

  /** `TexStorage2DMultisample`: one level, the given sample count. */
  function TexStorage2DMultisample(t: Texture, format: InternalFormat, samples: int, width: int, height: int,
                                   fixedLocations: bool): (r: TextureStep)
    ensures r.texture.levels == 1 && r.texture.samples == samples
    ensures r.texture.storageWidth == width && r.texture.storageHeight == height && r.texture.storageDepth == 0
    ensures r.texture.viewBase.None? && SameObject(r.texture, t)
    ensures |r.events| == 2 && r.events[0] == TexStorageMultisample(t.target, samples, format, width, height, 0, fixedLocations)
  {
    var s := OnTextureStorage(t, format, 1, samples, width, height, 0);
    TextureStep(s.texture, [TexStorageMultisample(t.target, samples, format, width, height, 0, fixedLocations)] + s.events)
  }

  /** `TexStorage3DMultisample`. */
  function TexStorage3DMultisample(t: Texture, format: InternalFormat, samples: int, width: int, height: int, depth: int,
                                   fixedLocations: bool): (r: TextureStep)
    ensures r.texture.levels == 1 && r.texture.samples == samples
    ensures r.texture.storageWidth == width && r.texture.storageHeight == height && r.texture.storageDepth == depth
    ensures r.texture.viewBase.None? && SameObject(r.texture, t)
    ensures |r.events| == 2 && r.events[0] == TexStorageMultisample(t.target, samples, format, width, height, depth, fixedLocations)
  {
    var s := OnTextureStorage(t, format, 1, samples, width, height, depth);
    TextureStep(s.texture, [TexStorageMultisample(t.target, samples, format, width, height, depth, fixedLocations)] + s.events)
  }

  /** A defaulted level count reaches down to a 1-texel level on the
      largest axis and no further. */
  lemma DefaultLevelsReachOneTexel(width: int, height: int)
    requires width >= 1 || height >= 1
    ensures var n := CountLevels2(width, height);
      Shift(Max(width, height), n - 1) == 1
  {
    LargestAxisDecides(width, height, 0);
    LastLevelIsOneTexel(Max(width, height));
  }

  // ---------------------------------------------------------------------
  // Views.

  /** `x >> k` on a C# `int`: an arithmetic shift, that is `k` halvings
      rounding toward negative infinity. */
  function Shift(x: int, k: nat): (r: int)
    ensures x >= 0 ==> 0 <= r <= x
    decreases k
  {
    if k == 0 then x else Shift(Floor2(x), k - 1)
  }

  /** `x >> 1`: Dafny's division by a positive divisor already rounds
      toward negative infinity. */
  function Floor2(x: int): (r: int)
    ensures 2 * r <= x < 2 * r + 2
  {
    x / 2
  }

  /** C# masks a shift count to its low five bits. */
  function ShiftCount(k: int): (r: nat)
    ensures r < 32
    ensures 0 <= k < 32 ==> r == k
  {
    k % 32
  }

  /** `TextureView`: the view's storage is that of `orig` at `minLevel`. A
      null original is dereferenced before any call is issued. */
  function TextureView(t: Texture, orig: Option<Texture>, format: InternalFormat, minLevel: int, numLevels: int,
                       minLayer: int, numLayers: int): (r: Result<TextureStep>)
    ensures r.Failure? <==> orig.None?
    ensures r.Failure? ==> r.error == NullReference("origTexture")
    ensures r.Success? ==> SameObject(r.value.texture, t)
    ensures r.Success? ==>
      r.value.events == [Gl.TextureView(t.handle, t.target, orig.value.handle, format, minLevel, numLevels, minLayer, numLayers)]
    ensures r.Success? ==>
      r.value.texture.format == format && r.value.texture.levels == numLevels && r.value.texture.samples == orig.value.samples
    ensures r.Success? ==> var k := ShiftCount(minLevel);
      && r.value.texture.storageWidth == Shift(orig.value.storageWidth, k)
      && r.value.texture.storageHeight == Shift(orig.value.storageHeight, k)
      && r.value.texture.storageDepth == Shift(orig.value.storageDepth, k)
    ensures r.Success? ==> r.value.texture.viewBase == Some(orig.value.id)
    ensures r.Success? ==> r.value.texture.viewMinLevel == minLevel && r.value.texture.viewNumLevels == numLevels
    ensures r.Success? ==> r.value.texture.viewMinLayer == minLayer && r.value.texture.viewNumLayers == numLayers
  {
    if orig.None? then Failure(NullReference("origTexture"))
    else
      var o := orig.value;
      var k := ShiftCount(minLevel);
      var u := t.(format := format, levels := numLevels, samples := o.samples,
                  storageWidth := Shift(o.storageWidth, k), storageHeight := Shift(o.storageHeight, k),
                  storageDepth := Shift(o.storageDepth, k), viewBase := Some(o.id),
                  viewMinLevel := minLevel, viewNumLevels := numLevels, viewMinLayer := minLayer, viewNumLayers := numLayers);
      Success(TextureStep(u, [Gl.TextureView(t.handle, t.target, o.handle, format, minLevel, numLevels, minLayer, numLayers)]))
  }

  /** A view starting at mip level `k` of a full chain has `k` levels fewer
      along that axis. */
  lemma {:induction false} ViewDropsLevels(width: int, k: nat)
    requires width >= 1 && k < CountLevels(width)
    ensures Shift(width, k) >= 1
    ensures CountLevels(Shift(width, k)) == CountLevels(width) - k
    decreases k
  {
    if k > 0 {
      ViewDropsLevels(width / 2, k - 1);
    }
  }

  /** The last level of the full chain is one texel wide. */
  lemma LastLevelIsOneTexel(width: int)
    requires width >= 1
    ensures Shift(width, CountLevels(width) - 1) == 1
  {
    ViewDropsLevels(width, CountLevels(width) - 1);
  }

  /** A view of a texture from mip level `k` is `k` levels short of the
      original's full chain, and a null original is refused. */
  lemma ViewOfFullChain(t: Texture, o: Texture, format: InternalFormat, k: nat,
                        numLevels: int, minLayer: int, numLayers: int)
    requires o.storageWidth >= 1 && k < CountLevels(o.storageWidth) && k < 32
    ensures TextureView(t, None, format, k, numLevels, minLayer, numLayers).Failure?
    ensures var v := TextureView(t, Some(o), format, k, numLevels, minLayer, numLayers).value.texture;
      && v.storageWidth >= 1
      && CountLevels(v.storageWidth) == CountLevels(o.storageWidth) - k
  {
    ViewDropsLevels(o.storageWidth, k);
  }

  // ---------------------------------------------------------------------
  // Disposal.

  /** `Dispose`: the texture is deleted and its handle becomes -1. */
  function Dispose(t: Texture): (r: TextureStep)
    ensures r.texture.handle == -1
    ensures r.events == [DeleteTexture(t.handle)]
    ensures r.texture.id == t.id && r.texture.levels == t.levels && r.texture.viewBase == t.viewBase
  {
    TextureStep(t.(handle := -1), [DeleteTexture(t.handle)])
  }

  /** Allocating storage turns a view back into a texture of its own. */
  lemma StorageEndsView(t: Texture, orig: Texture, format: InternalFormat, width: int, levels: int)
    ensures var v := TextureView(t, Some(orig), format, 1, 2, 0, 1).value.texture;
      && v.viewBase == Some(orig.id)
      && TexStorage1D(v, format, width, levels).texture.viewBase.None?
      && TexStorage1D(v, format, width, levels).texture.viewMinLevel == -1
  {
  }
}
