/** Laws that tie the engine's operations to one another, for every engine
    and every clock reading. */
module Laws {
  import opened Wrappers
  import opened Engine

  /** Read-your-write: right after `put(key, value)`, `get(key)` returns
      `value`, whatever was evicted to make room. */
  method PutThenGet<K(==), V>(m: EvictedMap<K, V>, key: K, value: V, putAt: int, getAt: int)
    returns (got: Option<V>)
    ensures got == Some(value)
  {
    var s, previous, victim;
    s, previous, victim := Put(m, key, value, putAt);
    got := Get(s, key, getAt).1;
  }

  /** `remove` undoes `put`: removing the key just put returns its value and
      leaves the map view as before minus the key and any victim; when the
      key was new and the map had room, the map view is exactly as before. */
  method PutThenRemove<K(==), V>(m: EvictedMap<K, V>, key: K, value: V, now: int)
    returns (r: EvictedMap<K, V>, removed: Option<V>, victim: Option<K>)
    ensures removed == Some(value)
    ensures Contents(r) == Contents(m) - {key} - KeyOf(victim)
    ensures key !in m.store && Size(m) < m.capacity ==> victim.None? && Contents(r) == Contents(m) && Size(r) == Size(m)
  {
    var s, previous;
    s, previous, victim := Put(m, key, value, now);
    r, removed := Remove(s, key).0, Remove(s, key).1;
    StoreThenDrop(Contents(m), KeyOf(victim), key, value);
    if key !in m.store && Size(m) < m.capacity {
      assert KeyOf(victim) == {} && key !in Contents(m);
      DropAbsent(Contents(m), key);
      assert Size(s) == Size(m) + 1;
    }
  }

  lemma DropAbsent<K, V>(c: map<K, V>, key: K)
    requires key !in c
    ensures c - {key} == c
  {
  }

  /** Map algebra behind `PutThenRemove`: dropping a key right after
      storing it forgets the store. */
  lemma StoreThenDrop<K, V>(c: map<K, V>, gone: set<K>, key: K, value: V)
    ensures (c - gone)[key := value] - {key} == c - {key} - gone
  {
  }
}
