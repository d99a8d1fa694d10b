/**
 * JavaScript's `Map`: a dictionary that remembers the order in which its keys were first
 * inserted. `set` on a present key keeps its place; `delete` and `set` again moves it to the end.
 */
module OrderedMaps {
  import opened Sequences
  import opened Wrappers

  datatype OrderedMapData<K(==), V> = OrderedMap(keys: seq<K>, at: map<K, V>)

  ghost predicate Distinct<K>(keys: seq<K>) {
    forall i, j | 0 <= i < j < |keys| :: keys[i] != keys[j]
  }

  ghost predicate WellFormed<K, V>(m: OrderedMapData<K, V>) {
    && Distinct(m.keys)
    && (forall k | k in m.keys :: k in m.at)
    && (forall k | k in m.at :: k in m.keys)
  }

  type OrderedMap<K(==), V> = m: OrderedMapData<K, V> | WellFormed(m) witness OrderedMap([], map[])

  function Empty<K, V>(): OrderedMap<K, V> {
    OrderedMap([], map[])
  }

  function Size<K, V>(m: OrderedMap<K, V>): nat {
    |m.keys|
  }

  function Get<K, V>(m: OrderedMap<K, V>, k: K): Option<V> {
    if k in m.at then Some(m.at[k]) else None
  }

  function Without<K(==)>(keys: seq<K>, k: K): (rest: seq<K>)
    ensures forall x | x in rest :: x in keys && x != k
    ensures forall x | x in keys && x != k :: x in rest
    ensures Distinct(keys) ==> Distinct(rest)
  {
    if keys == [] then []
    else if keys[0] == k then Without(keys[1..], k)
    else
      var rest := Without(keys[1..], k);
      assert Distinct(keys) ==> keys[0] !in keys[1..];
      [keys[0]] + rest
  }

  function Set<K, V>(m: OrderedMap<K, V>, k: K, v: V): (r: OrderedMap<K, V>)
    ensures r.at == m.at[k := v]
    ensures r.keys == if k in m.at then m.keys else m.keys + [k]
  {
    if k in m.at then OrderedMap(m.keys, m.at[k := v]) else OrderedMap(m.keys + [k], m.at[k := v])
  }

  function Delete<K, V>(m: OrderedMap<K, V>, k: K): (r: OrderedMap<K, V>)
    ensures r.at == m.at - {k}
    ensures r.keys == Without(m.keys, k)
  {
    OrderedMap(Without(m.keys, k), m.at - {k})
  }

  /** `Array.from(map.values())`. */
  function Values<K, V>(m: OrderedMap<K, V>): (vs: seq<V>)
    ensures |vs| == |m.keys|
    ensures forall i | 0 <= i < |vs| :: m.keys[i] in m.at && vs[i] == m.at[m.keys[i]]
  {
    seq(|m.keys|, i requires 0 <= i < |m.keys| => assert m.keys[i] in m.keys; m.at[m.keys[i]])
  }

  lemma WithoutAbsent<K>(keys: seq<K>, k: K)
    requires k !in keys
    ensures Without(keys, k) == keys
  {
    if keys == [] {
    } else {
      assert keys[0] in keys;
      WithoutAbsent(keys[1..], k);
    }
  }

  /** Deleting the first key leaves the rest in order. */
  lemma WithoutFirst<K>(keys: seq<K>)
    requires keys != [] && Distinct(keys)
    ensures Without(keys, keys[0]) == keys[1..]
  {
    WithoutAbsent(keys[1..], keys[0]);
  }

  lemma {:induction false} DistinctCard<K>(keys: seq<K>)
    requires Distinct(keys)
    ensures |set k | k in keys| == |keys|
  {
    if keys == [] {
    } else {
      var rest := set k | k in keys[1..];
      DistinctCard(keys[1..]);
      assert (set k | k in keys) == {keys[0]} + rest;
      assert keys[0] !in rest;
    }
  }

  /** A map has no more entries than any set that holds its keys. */
  lemma SizeAtMost<K, V>(m: OrderedMap<K, V>, ks: set<K>)
    requires forall k | k in m.at :: k in ks
    ensures Size(m) <= |ks|
  {
    DistinctCard(m.keys);
    SubsetCard((set k | k in m.keys), ks);
  }

  lemma SubsetCard<K>(a: set<K>, b: set<K>)
    requires a <= b
    ensures |a| <= |b|
  {
    assert b == a + (b - a);
  }

  /** The values are those under the keys. */
  lemma ValuesAreThoseMapped<K, V>(m: OrderedMap<K, V>, v: V)
    ensures v in Values(m) <==> exists k :: k in m.at && m.at[k] == v
  {
    if v in Values(m) {
      var i :| 0 <= i < |m.keys| && Values(m)[i] == v;
      assert m.keys[i] in m.at;
    }
    if k :| k in m.at && m.at[k] == v {
      assert k in m.keys;
      var i :| 0 <= i < |m.keys| && m.keys[i] == k;
      assert Values(m)[i] == v;
    }
  }

  /** A new key puts its value last. */
  lemma ValuesOfNewKey<K, V>(m: OrderedMap<K, V>, k: K, v: V)
    requires k !in m.at
    ensures Values(Set(m, k, v)) == Values(m) + [v]
  {
    var r := Set(m, k, v);
    forall i | 0 <= i < |m.keys|
      ensures Values(r)[i] == Values(m)[i]
    {
      assert m.keys[i] in m.keys;
    }
  }

  // ---------------------------------------------------------------- trimming

  /** `while (map.size > limit) map.delete(map.keys().next().value)`. */
  function Trim<K, V>(m: OrderedMap<K, V>, limit: nat): (r: OrderedMap<K, V>)
    ensures Size(r) == if Size(m) <= limit then Size(m) else limit
    ensures Size(m) <= limit ==> r == m
    ensures Size(m) > limit ==> r.keys == m.keys[Size(m) - limit..]
    ensures forall k | k in r.at :: k in m.at && r.at[k] == m.at[k]
    decreases Size(m)
  {
    if Size(m) <= limit then m
    else
      WithoutFirst(m.keys);
      var rest := Delete(m, m.keys[0]);
      assert rest.keys == m.keys[1..] && m.keys[1..][Size(m) - 1 - limit..] == m.keys[Size(m) - limit..];
      Trim(rest, limit)
  }

  /** `r` is `m` without its first key. */
  ghost predicate Dropped<K, V>(m: OrderedMap<K, V>, r: OrderedMap<K, V>) {
    m.keys != [] && r.keys == m.keys[1..] && forall k | k in r.at :: k in m.at && r.at[k] == m.at[k]
  }

  /** A map that is too long by one loses its first key. */
  lemma TrimOne<K, V>(m: OrderedMap<K, V>, limit: nat)
    requires Size(m) <= limit + 1
    ensures Size(m) <= limit ==> Trim(m, limit) == m
    ensures Size(m) > limit ==> Dropped(m, Trim(m, limit))
  {
  }

  lemma KeyOfKeys<K, V>(m: OrderedMap<K, V>, k: K)
    ensures k in m.keys <==> k in m.at
  {
  }

  /** A new key after the first ones of `keys`. */
  lemma SetNext<K, V>(h: OrderedMap<K, V>, keys: seq<K>, vs: seq<V>, n: nat, t: OrderedMap<K, V>)
    requires 0 < n <= |keys| == |vs| && Distinct(keys)
    requires h.keys == keys[..n - 1] && Values(h) == vs[..n - 1]
    requires t == Set(h, keys[n - 1], vs[n - 1])
    ensures t.keys == keys[..n] && Values(t) == vs[..n]
  {
    LaterKeyIsNew(keys, n);
    KeyOfKeys(h, keys[n - 1]);
    ValuesOfNewKey(h, keys[n - 1], vs[n - 1]);
    TakeOneMore(keys, n);
    TakeOneMore(vs, n);
  }

  lemma LaterKeyIsNew<K>(keys: seq<K>, n: nat)
    requires 0 < n <= |keys| && Distinct(keys)
    ensures keys[n - 1] !in keys[..n - 1]
  {
  }

  /** `trimMap` (src/core/xmpp-persistence.ts:104-112) and the loops that end the recording methods. */
  method TrimMap<K(==), V>(map0: OrderedMap<K, V>, limit: nat) returns (trimmed: OrderedMap<K, V>)
    ensures trimmed == Trim(map0, limit)
  {
    trimmed := map0;
    while Size(trimmed) > limit
      invariant Trim(trimmed, limit) == Trim(map0, limit)
      decreases Size(trimmed)
    {
      var oldestKey := trimmed.keys[0];
      WithoutFirst(trimmed.keys);
      trimmed := Delete(trimmed, oldestKey);
    }
  }
}
