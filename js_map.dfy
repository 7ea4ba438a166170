/**
 * JavaScript's `Map`: a finite map that iterates its entries in the order in
 * which their keys were first inserted. `set` on a key already present replaces
 * the value and keeps the key's position; `delete` removes the key from the
 * order. Both the room registry and every room's player table are such maps.
 */
module JsMap {
  import opened Wrappers

  /** Raw representation: the keys in insertion order, and the key-value store. */
  datatype Entries<K, V> = Entries(keys: seq<K>, data: map<K, V>)

  ghost predicate Distinct<K>(s: seq<K>) {
    forall i, j | 0 <= i < j < |s| :: s[i] != s[j]
  }

  /** Every stored key appears exactly once in the insertion order, and nothing else does. */
  ghost predicate Valid<K, V>(m: Entries<K, V>) {
    && Distinct(m.keys)
    && (forall i | 0 <= i < |m.keys| :: m.keys[i] in m.data)
    && (forall k | k in m.data :: k in m.keys)
  }

  type OrderedMap<K, V> = m: Entries<K, V> | Valid(m) witness Entries([], map[])

  /** `new Map()` */
  function Empty<K, V>(): (r: OrderedMap<K, V>)
    ensures r.keys == [] && r.data == map[]
  {
    Entries([], map[])
  }

  /** `m.has(k)` */
  predicate Has<K, V>(m: OrderedMap<K, V>, k: K) {
    k in m.data
  }

  /** `m.get(k)`, with `undefined` as None */
  function Get<K, V>(m: OrderedMap<K, V>, k: K): (r: Option<V>)
    ensures r.Some? <==> k in m.data
    ensures r.Some? ==> r.value == m.data[k]
  {
    if k in m.data then Some(m.data[k]) else None
  }

  /** A sequence without repeats has as many distinct elements as entries. */
  lemma {:induction false} DistinctCard<K>(s: seq<K>)
    requires Distinct(s)
    ensures |(set x | x in s)| == |s|
  {
    if s != [] {
      var init, last := s[..|s| - 1], s[|s| - 1];
      forall i, j | 0 <= i < j < |init| ensures init[i] != init[j] {
        assert init[i] == s[i] && init[j] == s[j];
      }
      DistinctCard(init);
      forall x | x in init ensures x != last {
        var i :| 0 <= i < |init| && init[i] == x;
        assert s[i] == x;
      }
      assert (set x | x in s) == (set x | x in init) + {last};
    }
  }

  /** `m.size`: the number of stored keys. */
  function Size<K, V>(m: OrderedMap<K, V>): (n: nat)
    ensures n == |m.data|
    ensures n == 0 <==> m.data == map[]
  {
    DistinctCard(m.keys);
    assert m.data.Keys == set x | x in m.keys;
    |m.keys|
  }

  /** The sequence `s` with every occurrence of `k` filtered out, order kept. */
  function Without<K(==)>(s: seq<K>, k: K): (r: seq<K>)
    ensures forall x | x in r :: x in s && x != k
    ensures forall x | x in s && x != k :: x in r
    ensures k !in s ==> r == s
  {
    if s == [] then []
    else if s[0] == k then Without(s[1..], k)
    else [s[0]] + Without(s[1..], k)
  }

  lemma {:induction false} WithoutDistinct<K>(s: seq<K>, k: K)
    requires Distinct(s)
    ensures Distinct(Without(s, k))
  {
    if s != [] {
      var t := s[1..];
      assert Distinct(t) by {
        forall i, j | 0 <= i < j < |t| ensures t[i] != t[j] {
          assert t[i] == s[i + 1] && t[j] == s[j + 1];
        }
      }
      WithoutDistinct(t, k);
      if s[0] != k {
        var r := Without(t, k);
        assert s[0] !in t by {
          forall i | 0 <= i < |t| ensures t[i] != s[0] {
            assert t[i] == s[i + 1];
          }
        }
        var u := [s[0]] + r;
        forall i, j | 0 <= i < j < |u| ensures u[i] != u[j] {
          assert u[j] == r[j - 1];
          if i > 0 {
            assert u[i] == r[i - 1];
          } else {
            assert r[j - 1] in r;
          }
        }
      }
    }
  }

  /** Filtering keeps the relative order: two kept elements appear in the result in the same order. */
  lemma {:induction false} WithoutKeepsOrder<K>(s: seq<K>, k: K, i: nat, j: nat)
    requires i < j < |s| && s[i] != k && s[j] != k
    ensures exists a, b | 0 <= a < b < |Without(s, k)| :: Without(s, k)[a] == s[i] && Without(s, k)[b] == s[j]
  {
    var t := s[1..];
    var r, rt := Without(s, k), Without(t, k);
    if i == 0 {
      assert t[j - 1] == s[j] && s[j] in t;
      var b :| 0 <= b < |rt| && rt[b] == s[j];
      assert r[0] == s[0] && r[b + 1] == s[j];
    } else {
      WithoutKeepsOrder(t, k, i - 1, j - 1);
      var a, b :| 0 <= a < b < |rt| && rt[a] == t[i - 1] && rt[b] == t[j - 1];
      if s[0] == k {
        assert r[a] == s[i] && r[b] == s[j];
      } else {
        assert r[a + 1] == s[i] && r[b + 1] == s[j];
      }
    }
  }

  /** `m.set(k, v)`: an existing key keeps its position, a new key goes last. */
  function Set<K, V>(m: OrderedMap<K, V>, k: K, v: V): (r: OrderedMap<K, V>)
    ensures r.data == m.data[k := v]
    ensures r.keys == if k in m.data then m.keys else m.keys + [k]
  {
    if k in m.data then
      Entries(m.keys, m.data[k := v])
    else
      var keys := m.keys + [k];
      assert Distinct(keys) by {
        forall i, j | 0 <= i < j < |keys| ensures keys[i] != keys[j] {
          assert keys[i] == m.keys[i];
          if j < |m.keys| {
            assert keys[j] == m.keys[j];
          } else {
            assert m.keys[i] in m.keys;
          }
        }
      }
      Entries(keys, m.data[k := v])
  }

  /** `m.delete(k)`: removes the key from the store and from the order; a no-op when absent. */
  function Delete<K, V>(m: OrderedMap<K, V>, k: K): (r: OrderedMap<K, V>)
    ensures r.data == m.data - {k}
    ensures r.keys == Without(m.keys, k)
  {
    var keys := Without(m.keys, k);
    WithoutDistinct(m.keys, k);
    assert forall i | 0 <= i < |keys| :: keys[i] in keys;
    Entries(keys, m.data - {k})
  }

  /** Deleting a key just set is deleting it from the map as it was before. */
  lemma DeleteAfterSet<K, V>(m: OrderedMap<K, V>, k: K, v: V)
    requires k in m.data
    ensures Delete(Set(m, k, v), k) == Delete(m, k)
  {
    assert Delete(Set(m, k, v), k).data == Delete(m, k).data;
  }

  /** `m.values()`, in insertion order. */
  function Values<K, V>(m: OrderedMap<K, V>): (r: seq<V>)
    ensures |r| == |m.keys|
    ensures forall i | 0 <= i < |m.keys| :: r[i] == m.data[m.keys[i]]
  {
    seq(|m.keys|, i requires 0 <= i < |m.keys| => m.data[m.keys[i]])
  }

  /** Every stored value is produced by `values()`, and nothing else is. */
  lemma ValuesAreStored<K, V>(m: OrderedMap<K, V>, v: V)
    ensures v in Values(m) <==> exists k :: k in m.data && m.data[k] == v
  {
    var vs := Values(m);
    if v in vs {
      var i :| 0 <= i < |vs| && vs[i] == v;
      assert m.keys[i] in m.keys;
    }
    if exists k :: k in m.data && m.data[k] == v {
      var k :| k in m.data && m.data[k] == v;
      assert k in m.keys;
      var i :| 0 <= i < |m.keys| && m.keys[i] == k;
      assert vs[i] == v;
    }
  }

  /** The position of a stored key in the insertion order. */
  lemma KeyPosition<K, V>(m: OrderedMap<K, V>, k: K) returns (i: nat)
    requires k in m.data
    ensures i < |m.keys| && m.keys[i] == k
    ensures forall j | 0 <= j < |m.keys| && j != i :: m.keys[j] != k
  {
    assert k in m.keys;
    i :| 0 <= i < |m.keys| && m.keys[i] == k;
  }
}
