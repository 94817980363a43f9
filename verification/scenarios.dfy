/** The eviction scenarios the repository's tests walk through, replayed on
    the model with explicit clock values. */
module Scenarios {
  import opened Wrappers
  import opened CacheEntries
  import opened Comparators
  import opened Engine
  import opened Policies

  /** The tests' `(l, r) -> 0` comparator: every entry ties. */
  function Indifferent(right: CacheEntry, left: CacheEntry): int {
    0
  }

  /** When the entry of `k` has strictly the fewest accesses, it is the only
      entry LFU can evict. */
  lemma LfuOnlyVictim<K, V>(store: map<K, Slot<V>>, k: K, v: K)
    requires k in store
    requires forall j :: j in store && j != k ==> store[k].entry.accessedCount < store[j].entry.accessedCount
    requires TotalPreorder(LfuCompare) ==> IsVictim(store, LfuCompare, v)
    ensures v == k
  {
    LfuIsTotalPreorder();
  }

  /** When the entry of `k` was strictly least recently accessed, it is the
      only entry LRU can evict. */
  lemma LruOnlyVictim<K, V>(store: map<K, Slot<V>>, k: K, v: K)
    requires k in store
    requires forall j :: j in store && j != k ==> store[k].entry.accessedAt < store[j].entry.accessedAt
    requires TotalPreorder(LruCompare) ==> IsVictim(store, LruCompare, v)
    ensures v == k
  {
    LruIsTotalPreorder();
  }

  /** A `put` of a new key into a map with room: nothing is evicted and a
      fresh entry is added. */
  method PutFresh<K(==), V>(m: EvictedMap<K, V>, key: K, value: V, now: int) returns (r: EvictedMap<K, V>)
    requires key !in m.store && Size(m) < m.capacity
    ensures r.capacity == m.capacity && r.comparator == m.comparator
    ensures r.store == m.store[key := Slot(NewEntry(now), value)]
  {
    var previous, victim;
    r, previous, victim := Put(m, key, value, now);
  }

  /** Three `put`s of new keys at times 1, 2, 3 into an empty map with room. */
  method PutThree(m0: EvictedMap<int, int>) returns (m: EvictedMap<int, int>)
    requires Size(m0) == 0 && m0.capacity >= 3
    ensures m.capacity == m0.capacity && m.comparator == m0.comparator
    ensures m.store == map[1 := Slot(NewEntry(1), 1), 2 := Slot(NewEntry(2), 4), 3 := Slot(NewEntry(3), 6)]
  {
    m := PutFresh(m0, 1, 1, 1);
    m := PutFresh(m, 2, 4, 2);
    m := PutFresh(m, 3, 6, 3);
  }

  /** LFU preparation: put 1, 2, 3 at times 1, 2, 3, then get 3, get 1, get 3
      at times 4, 5, 6 leaves the access counts 1:2, 2:1, 3:3. */
  method LfuPrepare(m0: EvictedMap<int, int>) returns (m: EvictedMap<int, int>)
    requires Size(m0) == 0 && m0.capacity >= 3
    ensures m.capacity == m0.capacity && m.comparator == m0.comparator
    ensures m.store == map[1 := Slot(CacheEntry(2, 5, 1), 1), 2 := Slot(CacheEntry(1, 2, 2), 4), 3 := Slot(CacheEntry(3, 6, 3), 6)]
    ensures Size(m) == 3
  {
    m := PutThree(m0);
    m := Get(m, 3, 4).0;
    m := Get(m, 1, 5).0;
    m := Get(m, 3, 6).0;
  }

  /** LFU, as in the tests of both families: with access counts 1:2, 2:1, 3:3,
      three evictions remove 2, then 1, then 3, and the map ends empty. */
  method LfuEvictionOrder(m0: EvictedMap<int, int>) returns (victims: seq<int>, m: EvictedMap<int, int>)
    requires Size(m0) == 0 && m0.capacity >= 3 && m0.comparator == LfuCompare
    ensures victims == [2, 1, 3] && Size(m) == 0
  {
    m := LfuPrepare(m0);
    var v1, v2, v3;
    ghost var before := m.store;
    m, v1 := Evict(m);
    LfuOnlyVictim(before, 2, v1.value);
    before := m.store;
    m, v2 := Evict(m);
    LfuOnlyVictim(before, 1, v2.value);
    m, v3 := Evict(m);
    victims := [v1.value, v2.value, v3.value];
  }

  /** LRU preparation: put 1, 2, 3 at times 1, 2, 3, then get 3, get 2, get 1
      at times 4, 5, 6 leaves the last access times 1:6, 2:5, 3:4. */
  method LruPrepare(m0: EvictedMap<int, int>) returns (m: EvictedMap<int, int>)
    requires Size(m0) == 0 && m0.capacity >= 3
    ensures m.capacity == m0.capacity && m.comparator == m0.comparator
    ensures m.store == map[1 := Slot(CacheEntry(2, 6, 1), 1), 2 := Slot(CacheEntry(2, 5, 2), 4), 3 := Slot(CacheEntry(2, 4, 3), 6)]
    ensures Size(m) == 3
  {
    m := PutThree(m0);
    m := Get(m, 3, 4).0;
    m := Get(m, 2, 5).0;
    m := Get(m, 1, 6).0;
  }

  /** LRU, as in the tests of both families: with a strictly increasing clock
      and accesses to 3, 2, 1 in that order, evictions remove 3, then 2,
      then 1. */
  method LruEvictionOrder(m0: EvictedMap<int, int>) returns (victims: seq<int>, m: EvictedMap<int, int>)
    requires Size(m0) == 0 && m0.capacity >= 3 && m0.comparator == LruCompare
    ensures victims == [3, 2, 1] && Size(m) == 0
  {
    m := LruPrepare(m0);
    var v1, v2, v3;
    ghost var before := m.store;
    m, v1 := Evict(m);
    LruOnlyVictim(before, 3, v1.value);
    before := m.store;
    m, v2 := Evict(m);
    LruOnlyVictim(before, 2, v2.value);
    m, v3 := Evict(m);
    victims := [v1.value, v2.value, v3.value];
  }

  /** `LFUTest.lfuTest` on `EvictedMapLFU(10)`. */
  method LfuMapTest() returns (victims: seq<int>)
    ensures victims == [2, 1, 3]
  {
    var created := NewLfu<int, int>(10);
    var m;
    victims, m := LfuEvictionOrder(created.value);
  }

  /** `LFULRUTest.lfuTest` on `EvictedCacheLFU(10)`. */
  method LfuCacheTest() returns (victims: seq<int>)
    ensures victims == [2, 1, 3]
  {
    var created := NewCacheLfu<int, int>(10);
    var m;
    victims, m := LfuEvictionOrder(created.value);
  }

  /** `LRUTest.lruTest` on `EvictedMapLRU(10)`. */
  method LruMapTest() returns (victims: seq<int>)
    ensures victims == [3, 2, 1]
  {
    var created := NewLru<int, int>(10);
    var m;
    victims, m := LruEvictionOrder(created.value);
  }

  /** `LFULRUTest.lruTest` on `EvictedCacheLRU(10)`. */
  method LruCacheTest() returns (victims: seq<int>)
    ensures victims == [3, 2, 1]
  {
    var created := NewCacheLru<int, int>(10);
    var m;
    victims, m := LruEvictionOrder(created.value);
  }

  /** The tests' fill loop: `put(i, i)` for i = 1..hi, at time i, into a
      map whose keys all lie in 1..n. Keys above n arrive fresh, so each of
      them grows the map by one until it is full; a key already present can
      shrink a full map by one (the overwrite quirk) but never further. */
  method PutKeys(m0: EvictedMap<int, int>, n: nat, hi: nat) returns (m: EvictedMap<int, int>)
    requires Valid(m0) && Size(m0) < m0.capacity && n <= hi
    requires forall k :: k in m0.store ==> 1 <= k <= n
    ensures Valid(m) && m.capacity == m0.capacity && m.comparator == m0.comparator
    ensures forall k :: k in m.store ==> 1 <= k <= hi
    ensures Size(m) >= Min(Size(m0) + (hi - n), m.capacity)
  {
    m := m0;
    var i := 1;
    while i <= hi
      invariant 1 <= i <= hi + 1
      invariant Valid(m) && m.capacity == m0.capacity && m.comparator == m0.comparator
      invariant forall k :: k in m.store ==> 1 <= k && (k <= n || k < i)
      invariant Size(m) >= Min(Size(m0) + Max(i - 1 - n, 0), m.capacity)
    {
      var previous, victim;
      m, previous, victim := Put(m, i, i, i);
      i := i + 1;
    }
  }

  /** `capacityTest` with the tie-everything comparator: 115 distinct keys
      into capacity 15 leave 15 entries; raising the capacity to 30 evicts
      nothing, and putting keys 1..130 fills it to 30; lowering it back to
      15 evicts 15 entries, one at a time. */
  method CapacityTest() returns (sizes: seq<int>, capacities: seq<int>)
    ensures sizes == [15, 30, 15] && capacities == [15, 30, 15]
  {
    var created := New<int, int>(15, Some(Indifferent));
    assert Valid(created.value) && Size(created.value) == 0;
    var m := PutKeys(created.value, 0, 115);
    assert Size(m) == 15;
    var grown, none := SetCapacity(m, 30);
    assert Valid(grown.value) && Size(grown.value) == 15;
    var refilled := PutKeys(grown.value, 115, 130);
    assert Size(refilled) == 30;
    var shrunk, victims := SetCapacity(refilled, 15);
    sizes := [Size(m), Size(refilled), Size(shrunk.value)];
    capacities := [m.capacity, refilled.capacity, shrunk.value.capacity];
  }

  /** `replaceValueTest`: overwriting key 2 in a map with room evicts
      nothing, keeps the size at three and changes only that value. */
  method ReplaceValueTest() returns (size: int, contents: map<int, int>)
    ensures size == 3 && contents == map[1 := 1, 2 := 6, 3 := 6]
  {
    var created := New<int, int>(10, Some(Indifferent));
    var m := PutThree(created.value);
    assert Contents(m) == map[1 := 1, 2 := 4, 3 := 6];
    assert Size(m) == 3;
    var previous, victim;
    m, previous, victim := Put(m, 2, 6, 4);
    size := Size(m);
    contents := Contents(m);
  }

  /** `evictTest` (and `toStringTest`): one `put` into an empty map of
      capacity one leaves exactly that association, which the test renders
      as `{5=String value for five}`. */
  method EvictTest() returns (contents: map<int, string>)
    ensures contents == map[5 := "String value for five"]
  {
    var created := New<int, string>(1, Some(Indifferent));
    var m := PutFresh(created.value, 5, "String value for five", 1);
    contents := Contents(m);
  }

  /** Beyond `evictTest`: a second key put into that full map of capacity
      one evicts the first, its only candidate, and leaves only the new
      association. */
  method SecondKeyEvictsFirst() returns (before: map<int, string>, victim: Option<int>, after: map<int, string>)
    ensures before == map[5 := "String value for five"]
    ensures victim == Some(5) && after == map[6 := "six"]
  {
    var created := New<int, string>(1, Some(Indifferent));
    var m := PutFresh(created.value, 5, "String value for five", 1);
    before := Contents(m);
    var previous;
    m, previous, victim := PutIntoSingleton(m, 6, "six", 2);
    after := Contents(m);
  }

  /** A `put` into a full map of capacity one evicts its only entry. */
  method PutIntoSingleton<V>(m: EvictedMap<int, V>, key: int, value: V, now: int)
    returns (r: EvictedMap<int, V>, previous: Option<V>, victim: Option<int>)
    requires m.capacity == 1 && Size(m) == 1
    ensures victim.Some? && m.store.Keys == {victim.value}
    ensures r.store.Keys == {key} && r.store[key].value == value
    ensures victim == Some(key) ==> previous == None
    ensures key in m.store ==> r.store[key].entry.accessedCount == m.store[key].entry.accessedCount + 1
  {
    r, previous, victim := Put(m, key, value, now);
    SingletonKeys(m.store, victim.value);
  }

  /** The overwrite quirk in a full map of capacity one: the present key is
      its own victim, so it is stored again with its new usage and `put`
      reports no previous value. */
  method OverwriteOwnVictim() returns (previous: Option<int>, contents: map<int, int>, count: int)
    ensures previous == None && contents == map[5 := 51] && count == 2
  {
    var created := New<int, int>(1, Some(Indifferent));
    var m := PutFresh(created.value, 5, 50, 1);
    var victim;
    m, previous, victim := PutIntoSingleton(m, 5, 51, 2);
    contents := Contents(m);
    assert contents.Keys == {5} && contents[5] == 51;
    count := m.store[5].entry.accessedCount;
  }

  /** The overwrite quirk under LFU: overwriting the busier of two keys in a
      full map of capacity two still evicts the other one, so the map
      shrinks to one entry while `put` returns the old value. */
  method OverwriteShrinks() returns (previous: Option<int>, contents: map<int, int>)
    ensures previous == Some(20) && contents == map[2 := 21]
  {
    var created := NewLfu<int, int>(2);
    var m := PutFresh(created.value, 1, 10, 1);
    m := PutFresh(m, 2, 20, 2);
    var victim;
    m, previous, victim := OverwriteBusier(m);
    contents := Contents(m);
    assert contents.Keys == {2} && contents[2] == 21;
  }

  /** `put(2, 21)` into the full LFU map holding keys 1 and 2, where key 2
      is touched by the `put` itself and so is strictly busier. */
  method OverwriteBusier(m: EvictedMap<int, int>)
    returns (r: EvictedMap<int, int>, previous: Option<int>, victim: Option<int>)
    requires m.comparator == LfuCompare && m.capacity == 2
    requires m.store == map[1 := Slot(NewEntry(1), 10), 2 := Slot(NewEntry(2), 20)]
    ensures victim == Some(1) && previous == Some(20)
    ensures r.store.Keys == {2} && r.store[2].value == 21
  {
    assert Size(m) == m.capacity;
    ghost var before := Touch(m.store, 2, 3);
    assert before == map[1 := Slot(NewEntry(1), 10), 2 := Slot(IncreaseUsage(NewEntry(2), 3), 20)];
    r, previous, victim := Put(m, 2, 21, 3);
    LfuOnlyVictim(before, 1, victim.value);
  }

  /** `nullAsKeyAndValueTest`, with `None` for Java's null: after
      `put(5, null)` and `put(null, 5)` the map of capacity two is full, so
      `put(null, null)` evicts one of the two tied entries. If it is the
      null key's own entry, that entry is stored again and two entries
      remain (the outcome the test observes, which rests on `HashMap`
      visiting the null key first); otherwise one remains. Either way there
      is one entry for the null key, and it holds null. */
  method NullKeyAndValue() returns (victim: Option<Option<int>>, size: int, got: Option<Option<int>>)
    ensures victim == Some(None) || victim == Some(Some(5))
    ensures victim == Some(None) ==> size == 2
    ensures victim == Some(Some(5)) ==> size == 1
    ensures got == Some(None)
  {
    var created := New<Option<int>, Option<int>>(2, Some(Indifferent));
    var m := PutFresh(created.value, Some(5), None, 1);
    m := PutFresh(m, None, Some(5), 2);
    assert Size(m) == m.capacity == 2;
    var previous;
    m, previous, victim := Put(m, None, None, 3);
    size := Size(m);
    got := Get(m, None, 4).1;
  }
}
