/** Facts about the channel registry (a map from channel name to the entry
    that hosts it): how many channels an entry holds, and insert-if-absent. */
module Registry {
  import opened Types

  /** The number of keys of `m` that map to `v`. */
  ghost function Occupancy<K, V>(m: map<K, V>, v: V): nat {
    |set k | k in m && m[k] == v|
  }

  /** A value that is not in the map holds no key. */
  lemma OccupancyAbsent<K, V>(m: map<K, V>, v: V)
    requires v !in m.Values
    ensures Occupancy(m, v) == 0
  {
  }

  /** A value some key maps to holds at least that key. */
  lemma OccupancyHeld<K, V>(m: map<K, V>, k: K)
    requires k in m
    ensures Occupancy(m, m[k]) >= 1
  {
    var s := set j | j in m && m[j] == m[k];
    assert k in s;
  }

  /** Adding a fresh key to `v` gives `v` exactly one more key, and no other value changes. */
  lemma OccupancyPut<K, V>(m: map<K, V>, k: K, v: V, x: V)
    requires k !in m
    ensures Occupancy(m[k := v], x) == Occupancy(m, x) + (if x == v then 1 else 0)
  {
    var m' := m[k := v];
    var s := set j | j in m && m[j] == x;
    var s' := set j | j in m' && m'[j] == x;
    if x == v {
      assert s' == s + {k};
    } else {
      assert s' == s;
    }
  }

  /** Removing a key takes exactly that key away from the value it mapped to. */
  lemma OccupancyRemove<K, V>(m: map<K, V>, k: K, x: V)
    requires k in m
    ensures Occupancy(m - {k}, x) == Occupancy(m, x) - (if m[k] == x then 1 else 0)
  {
    var s := set j | j in m && m[j] == x;
    var m' := m - {k};
    var s' := set j | j in m' && m'[j] == x;
    if m[k] == x {
      assert s == s' + {k};
    } else {
      assert s' == s;
    }
  }

  /** Insert-if-absent on a concurrent map: installs `v` under `k` only when
      `k` is absent, and reports the value already present otherwise. The
      first value registered under a key wins: no value already in the map is
      ever replaced, and the caller learns which value now holds the key. */
  function PutIfAbsent<K, V>(m: map<K, V>, k: K, v: V): (r: (map<K, V>, Option<V>))
    ensures r.0.Keys == m.Keys + {k}
    ensures forall j :: j in m ==> r.0[j] == m[j]
    ensures r.1.Some? <==> k in m
    ensures r.1.Some? ==> r.1.value == r.0[k]
    ensures r.1.None? ==> r.0[k] == v
  {
    if k in m then (m, Some(m[k])) else (m[k := v], None)
  }

  /** Once a lookup has found `k` absent, insert-if-absent installs `v`: its
      "already present" outcome needs another writer between the two steps,
      which a sequential run does not have. */
  lemma PutIfAbsentAfterMiss<K, V>(m: map<K, V>, k: K, v: V)
    requires k !in m
    ensures PutIfAbsent(m, k, v) == (m[k := v], None)
  {
  }
}
