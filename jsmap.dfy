/** A JavaScript `Map`: a finite map that also remembers the order in which
    its keys were first inserted, which is the order `values()`, `keys()` and
    `for ... of` visit them. `set` on a present key keeps its place;
    `delete` drops the key from the order. */
module JsMap {

  /** Every map in the modelled code is keyed by a socket or player id. */
  type Key = string

  datatype Map<V> = Map(keys: seq<Key>, entries: map<Key, V>)

  /** Keys listed once each, and exactly the keys that have entries. */
  ghost predicate Valid<V>(m: Map<V>) {
    && Distinct(m.keys)
    && (forall k :: k in m.keys <==> k in m.entries)
  }

  ghost predicate Distinct(s: seq<Key>) {
    forall i, j :: 0 <= i < j < |s| ==> s[i] != s[j]
  }

  /** `new Map()` */
  function Empty<V>(): (r: Map<V>)
    ensures Valid(r) && r.entries == map[]
  {
    Map([], map[])
  }

  predicate Has<V>(m: Map<V>, k: Key) {
    k in m.entries
  }

  /** `m.set(k, v)` */
  function Set<V>(m: Map<V>, k: Key, v: V): (r: Map<V>)
    ensures Valid(m) ==> Valid(r)
    ensures r.entries == m.entries[k := v]
    ensures r.keys == if k in m.entries then m.keys else m.keys + [k]
  {
    if k in m.entries then Map(m.keys, m.entries[k := v])
    else Map(m.keys + [k], m.entries[k := v])
  }

  /** The sequence `s` with every occurrence of `x` removed, order kept. */
  function Without(s: seq<Key>, x: Key): (r: seq<Key>)
    ensures forall k :: k in r <==> k in s && k != x
    ensures |r| <= |s|
  {
    if s == [] then []
    else if s[0] == x then Without(s[1..], x)
    else [s[0]] + Without(s[1..], x)
  }

  lemma {:induction false} WithoutDistinct(s: seq<Key>, x: Key)
    requires Distinct(s)
    ensures Distinct(Without(s, x))
  {
    if s != [] {
      assert Distinct(s[1..]) by {
        forall i, j | 0 <= i < j < |s[1..]| ensures s[1..][i] != s[1..][j] {
          assert s[1..][i] == s[i + 1] && s[1..][j] == s[j + 1];
        }
      }
      WithoutDistinct(s[1..], x);
      if s[0] != x {
        var t := Without(s[1..], x);
        assert s[0] !in t by {
          assert s[0] !in s[1..];
        }
        forall i, j | 0 <= i < j < |[s[0]] + t| ensures ([s[0]] + t)[i] != ([s[0]] + t)[j] {
          if i > 0 {
            assert ([s[0]] + t)[i] == t[i - 1];
          }
        }
      }
    }
  }

  /** Removing a key that is not listed changes nothing. */
  lemma {:induction false} WithoutAbsent(s: seq<Key>, x: Key)
    requires x !in s
    ensures Without(s, x) == s
  {
    if s != [] {
      WithoutAbsent(s[1..], x);
      assert s == [s[0]] + s[1..];
    }
  }

  /** Removing the first key of a duplicate-free list drops just that key. */
  lemma WithoutFirst(s: seq<Key>)
    requires Distinct(s) && s != []
    ensures Without(s, s[0]) == s[1..]
  {
    assert s[0] !in s[1..];
    WithoutAbsent(s[1..], s[0]);
  }

  /** `m.delete(k)` */
  function Delete<V>(m: Map<V>, k: Key): (r: Map<V>)
    requires Valid(m)
    ensures Valid(r)
    ensures r.entries == m.entries - {k}
    ensures r.keys == Without(m.keys, k)
  {
    WithoutDistinct(m.keys, k);
    Map(Without(m.keys, k), m.entries - {k})
  }

  /** `Array.from(m.values())`: the values in key-insertion order. */
  function Values<V>(m: Map<V>): (r: seq<V>)
    requires Valid(m)
    ensures |r| == |m.keys|
    ensures forall i :: 0 <= i < |m.keys| ==> r[i] == m.entries[m.keys[i]]
  {
    seq(|m.keys|, i requires 0 <= i < |m.keys| => m.entries[m.keys[i]])
  }

  /** The values listed are exactly the values stored. */
  lemma ValuesAreEntries<V>(m: Map<V>, v: V)
    requires Valid(m)
    ensures v in Values(m) <==> exists k :: k in m.entries && m.entries[k] == v
  {
    var vs := Values(m);
    if v in vs {
      var i :| 0 <= i < |vs| && vs[i] == v;
      assert m.keys[i] in m.entries;
    }
    if exists k :: k in m.entries && m.entries[k] == v {
      var k :| k in m.entries && m.entries[k] == v;
      assert k in m.keys;
      var i :| 0 <= i < |m.keys| && m.keys[i] == k;
      assert vs[i] == v;
    }
  }
}
