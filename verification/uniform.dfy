/** The closed family of uniform values (`UniformValue<T>` and its fifteen
    concrete subclasses) as one tagged variant with the class's equality.

    Payloads of floating-point type are opaque: a `Float` or `Double` stands
    for the class of values that .NET's `Equals` of that struct identifies,
    so payload equality is equality of those classes. */
module Uniform {
  import opened Wrappers

  type Float = int
  type Double = int

  /** `Int2`, `Int3`, `Int4` structs. */
  datatype Int2 = Int2(x: int, y: int)
  datatype Int3 = Int3(x: int, y: int, z: int)
  datatype Int4 = Int4(x: int, y: int, z: int, w: int)

  /** `Int2.Equals` and friends: componentwise comparison. */
  predicate Int2Equals(a: Int2, b: Int2) { a.x == b.x && a.y == b.y }
  predicate Int3Equals(a: Int3, b: Int3) { a.x == b.x && a.y == b.y && a.z == b.z }
  predicate Int4Equals(a: Int4, b: Int4) { a.x == b.x && a.y == b.y && a.z == b.z && a.w == b.w }

  /** One constructor per concrete subclass of `UniformValue<T>`. */
  datatype UniformValue =
    | UniformFloat(f: Float)
    | UniformVector2(v2: (Float, Float))
    | UniformVector3(v3: (Float, Float, Float))
    | UniformVector4(v4: (Float, Float, Float, Float))
    | UniformInt(i: int)
    | UniformVector2Int(i2: Int2)
    | UniformVector3Int(i3: Int3)
    | UniformVector4Int(i4: Int4)
    | UniformDouble(d: Double)
    | UniformVector2Double(d2: (Double, Double))
    | UniformVector3Double(d3: (Double, Double, Double))
    | UniformVector4Double(d4: (Double, Double, Double, Double))
    | UniformMatrix2(m2: seq<Float>)
    | UniformMatrix3(m3: seq<Float>)
    | UniformMatrix4(m4: seq<Float>)

  /** The runtime type `GetType()` reports. */
  datatype UniformKind =
    | KFloat | KVector2 | KVector3 | KVector4
    | KInt | KVector2Int | KVector3Int | KVector4Int
    | KDouble | KVector2Double | KVector3Double | KVector4Double
    | KMatrix2 | KMatrix3 | KMatrix4

  function Kind(v: UniformValue): UniformKind {
    match v
    case UniformFloat(_) => KFloat
    case UniformVector2(_) => KVector2
    case UniformVector3(_) => KVector3
    case UniformVector4(_) => KVector4
    case UniformInt(_) => KInt
    case UniformVector2Int(_) => KVector2Int
    case UniformVector3Int(_) => KVector3Int
    case UniformVector4Int(_) => KVector4Int
    case UniformDouble(_) => KDouble
    case UniformVector2Double(_) => KVector2Double
    case UniformVector3Double(_) => KVector3Double
    case UniformVector4Double(_) => KVector4Double
    case UniformMatrix2(_) => KMatrix2
    case UniformMatrix3(_) => KMatrix3
    case UniformMatrix4(_) => KMatrix4
  }

  /** `UniformValue<T>.Equals(UniformValue<T>)`: payload equality, for two
      values of the same runtime type. */
  predicate PayloadEquals(a: UniformValue, b: UniformValue)
    requires Kind(a) == Kind(b)
  {
    match (a, b)
    case (UniformVector2Int(p), UniformVector2Int(q)) => Int2Equals(p, q)
    case (UniformVector3Int(p), UniformVector3Int(q)) => Int3Equals(p, q)
    case (UniformVector4Int(p), UniformVector4Int(q)) => Int4Equals(p, q)
    case _ => a == b
  }

  /** `Equals(object)`: false for null, false across runtime types,
      payload equality otherwise (the same reference has an equal payload). */
  predicate Equals(a: UniformValue, other: Option<UniformValue>) {
    other.Some? && Kind(a) == Kind(other.value) && PayloadEquals(a, other.value)
  }

  /** `Equals(IUniformValue)`: forwards to `Equals(object)`. */
  predicate EqualsUniform(a: UniformValue, other: Option<UniformValue>) {
    Equals(a, other)
  }

  /** `operator ==`, i.e. the static `object.Equals(left, right)`. */
  predicate OpEquals(left: Option<UniformValue>, right: Option<UniformValue>) {
    if left.None? then right.None? else Equals(left.value, right)
  }

  predicate OpNotEquals(left: Option<UniformValue>, right: Option<UniformValue>) {
    !OpEquals(left, right)
  }

  /** `GetHashCode`: the payload's hash code (a stand-in for the payload
      struct's own hash, which the model does not fix); the runtime type is
      not mixed in. */
  function Hash(v: UniformValue): int {
    match v
    case UniformFloat(f) => f
    case UniformVector2(p) => p.0 + 31 * p.1
    case UniformVector3(p) => p.0 + 31 * (p.1 + 31 * p.2)
    case UniformVector4(p) => p.0 + 31 * (p.1 + 31 * (p.2 + 31 * p.3))
    case UniformInt(i) => i
    case UniformVector2Int(p) => p.x + 31 * p.y
    case UniformVector3Int(p) => p.x + 31 * (p.y + 31 * p.z)
    case UniformVector4Int(p) => p.x + 31 * (p.y + 31 * (p.z + 31 * p.w))
    case UniformDouble(d) => d
    case UniformVector2Double(p) => p.0 + 31 * p.1
    case UniformVector3Double(p) => p.0 + 31 * (p.1 + 31 * p.2)
    case UniformVector4Double(p) => p.0 + 31 * (p.1 + 31 * (p.2 + 31 * p.3))
    case UniformMatrix2(m) => if m == [] then 0 else m[0]
    case UniformMatrix3(m) => if m == [] then 0 else m[0]
    case UniformMatrix4(m) => if m == [] then 0 else m[0]
  }

  /** The tagged equality is exactly equality of variant and payload. */
  lemma EqualsIsValueEquality(a: UniformValue, b: UniformValue)
    ensures Equals(a, Some(b)) <==> a == b
  {
  }

  lemma EqualsNullIsFalse(a: UniformValue)
    ensures !Equals(a, None)
  {
  }

  /** A value is equal to itself (the same-reference shortcut). */
  lemma EqualsReflexive(a: UniformValue)
    ensures Equals(a, Some(a))
  {
  }

  /** Values of different runtime types are never equal, whatever they hold. */
  lemma DifferentKindsNeverEqual(a: UniformValue, b: UniformValue)
    requires Kind(a) != Kind(b)
    ensures !Equals(a, Some(b)) && !Equals(b, Some(a))
  {
  }

  /** A float and an int holding the same number are distinct values. */
  lemma FloatIsNotInt(n: int)
    ensures !Equals(UniformFloat(n), Some(UniformInt(n)))
  {
  }

  lemma EqualsIsSymmetric(a: UniformValue, b: UniformValue)
    ensures Equals(a, Some(b)) <==> Equals(b, Some(a))
  {
  }

  lemma EqualsUniformAgrees(a: UniformValue, other: Option<UniformValue>)
    ensures EqualsUniform(a, other) <==> Equals(a, other)
  {
  }

  lemma NotEqualsNegates(left: Option<UniformValue>, right: Option<UniformValue>)
    ensures OpNotEquals(left, right) <==> !OpEquals(left, right)
    ensures OpEquals(left, right) <==> left == right
  {
  }

  lemma EqualValuesHashEqually(a: UniformValue, b: UniformValue)
    requires Equals(a, Some(b))
    ensures Hash(a) == Hash(b)
  {
  }

  lemma Int2EqualsIsComponentwise(a: Int2, b: Int2)
    ensures Int2Equals(a, b) <==> a == b
  {
  }

  lemma Int3EqualsIsComponentwise(a: Int3, b: Int3)
    ensures Int3Equals(a, b) <==> a == b
  {
  }

  lemma Int4EqualsIsComponentwise(a: Int4, b: Int4)
    ensures Int4Equals(a, b) <==> a == b
  {
  }
}
