/** A `Dictionary<K, V>` that is only ever added to and cleared: its
    entries enumerate in insertion order, which is the order in which
    `Shader.FinalizeCompilation` replays them. */
module OrderedMap {

  datatype OMap<K(==), V> = OMap(keys: seq<K>, values: map<K, V>)

  predicate Distinct<K(==)>(s: seq<K>) {
    forall i, j | 0 <= i < j < |s| :: s[i] != s[j]
  }

  /** The key sequence lists every key of the map once. */
  predicate Valid<K(==), V>(m: OMap<K, V>) {
    && Distinct(m.keys)
    && (forall k | k in m.values :: k in m.keys)
    && (forall k | k in m.keys :: k in m.values)
  }

  function Empty<K(==), V>(): (m: OMap<K, V>)
    ensures Valid(m) && m.values == map[]
  {
    OMap([], map[])
  }

  /** `d[k] = v` when `k` is present (the position is kept), `d.Add(k, v)`
      otherwise (the key goes last). */
  function Put<K(==), V>(m: OMap<K, V>, k: K, v: V): (r: OMap<K, V>)
    requires Valid(m)
    ensures Valid(r)
    ensures r.values == m.values[k := v]
    ensures k in m.values ==> r.keys == m.keys
    ensures k !in m.values ==> r.keys == m.keys + [k]
  {
    if k in m.values then OMap(m.keys, m.values[k := v])
    else OMap(m.keys + [k], m.values[k := v])
  }

  /** The first `n` entries in enumeration order. */
  function Prefix<K(==), V>(m: OMap<K, V>, n: nat): (r: OMap<K, V>)
    requires Valid(m) && n <= |m.keys|
    ensures Valid(r) && r.keys == m.keys[..n]
    ensures forall k | k in r.values :: k in m.values && r.values[k] == m.values[k]
  {
    OMap(m.keys[..n], map k | k in m.keys[..n] :: m.values[k])
  }

  /** Re-adding the entries in enumeration order to a cleared dictionary
      rebuilds it one prefix at a time. */
  lemma PutNext<K, V>(m: OMap<K, V>, n: nat)
    requires Valid(m) && n < |m.keys|
    ensures m.keys[n] !in Prefix(m, n).values
    ensures Put(Prefix(m, n), m.keys[n], m.values[m.keys[n]]) == Prefix(m, n + 1)
  {
    var k := m.keys[n];
    assert m.keys[..n + 1] == m.keys[..n] + [k];
  }

  lemma PrefixAll<K, V>(m: OMap<K, V>)
    requires Valid(m)
    ensures Prefix(m, |m.keys|) == m
  {
    assert m.keys[..|m.keys|] == m.keys;
  }
}
