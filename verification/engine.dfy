/** The eviction-bounded map engine (`EvictedMap`, and its older twin
    `EvictedCache`, whose engine logic is the same line for line).

    The Java store is a `HashMap<CacheEntry, V>` whose entries are found by
    scanning for the wrapped key (`getEntry`) and then reused, so there is at
    most one entry per key, the null key included. It is modelled as a map
    from the key to a slot holding the entry's metadata and the value; a null
    key is simply one more value of `K`. Every operation is a pure transition
    from one engine value to the next. */
module Engine {
  import opened Wrappers
  import opened CacheEntries
  import opened Comparators

  datatype Slot<V> = Slot(entry: CacheEntry, value: V)

  datatype EvictedMap<K(==), V> = EvictedMap(store: map<K, Slot<V>>, capacity: int, comparator: Comparator)

  /** What holds of every engine the public operations can produce. */
  ghost predicate Valid<K, V>(m: EvictedMap<K, V>) {
    && m.capacity >= 1
    && |m.store| <= m.capacity
    && forall k :: k in m.store ==> m.store[k].entry.accessedCount >= 1
  }

  /** The key-to-value associations the `Map` interface exposes. */
  function Contents<K(==), V>(m: EvictedMap<K, V>): map<K, V> {
    map k | k in m.store :: m.store[k].value
  }

  function Size<K(==), V>(m: EvictedMap<K, V>): nat {
    |m.store|
  }

  function Min(a: int, b: int): int {
    if a <= b then a else b
  }

  function Max(a: int, b: int): int {
    if a <= b then b else a
  }

  function KeyOf<K>(o: Option<K>): set<K> {
    if o.Some? then {o.value} else {}
  }

  /** `k` is a legitimate eviction victim of `store`: its entry ranks no better
      than any other under `cmp`. Ties are left open, as the Java code picks
      among equals by `HashMap` iteration order. */
  ghost predicate IsVictim<K, V>(store: map<K, Slot<V>>, cmp: Comparator, k: K) {
    k in store && forall j :: j in store ==> Le(cmp, store[k].entry, store[j].entry)
  }

  /** `EvictedMap(initialCapacity, evictionComparator)`: a null comparator is
      rejected first, then a capacity below one. */
  function New<K(==), V>(initialCapacity: int, comparator: Option<Comparator>): (r: Result<EvictedMap<K, V>>)
    ensures r.Failure? <==> comparator.None? || initialCapacity < 1
    ensures r.Failure? ==> r.error == IllegalArgument
    ensures r.Success? ==> Valid(r.value) && Size(r.value) == 0
    ensures r.Success? ==> r.value.capacity == initialCapacity && r.value.comparator == comparator.value
  {
    if comparator.None? then Failure(IllegalArgument)
    else if initialCapacity > 0 then Success(EvictedMap(map[], initialCapacity, comparator.value))
    else Failure(IllegalArgument)
  }

  /** `EvictedCache(initialCapacity, evictionComparator)`: Lombok's `@NonNull`
      rejects a null comparator with a NullPointerException before the body
      runs; the body then rejects a capacity below one. */
  function NewCache<K(==), V>(initialCapacity: int, comparator: Option<Comparator>): (r: Result<EvictedMap<K, V>>)
    ensures comparator.None? ==> r.Failure? && r.error == NullPointer
    ensures comparator.Some? && initialCapacity < 1 ==> r.Failure? && r.error == IllegalArgument
    ensures r.Success? <==> comparator.Some? && initialCapacity >= 1
    ensures r.Success? ==> Valid(r.value) && Size(r.value) == 0
    ensures r.Success? ==> r.value.capacity == initialCapacity && r.value.comparator == comparator.value
  {
    if comparator.None? then Failure(NullPointer)
    else if initialCapacity > 0 then Success(EvictedMap(map[], initialCapacity, comparator.value))
    else Failure(IllegalArgument)
  }

  /** The two families build the same engine and differ only in how they
      reject a null comparator. */
  lemma FamiliesAgree<K, V>(initialCapacity: int, comparator: Option<Comparator>)
    ensures comparator.Some? ==> NewCache<K, V>(initialCapacity, comparator) == New<K, V>(initialCapacity, comparator)
    ensures comparator.None? ==> NewCache<K, V>(initialCapacity, comparator) == Failure(NullPointer)
    ensures comparator.None? ==> New<K, V>(initialCapacity, comparator) == Failure(IllegalArgument)
  {
  }

  /** The store after the entry of `key` (if any) records an access at `now`. */
  function Touch<K(==), V>(store: map<K, Slot<V>>, key: K, now: int): (r: map<K, Slot<V>>)
    ensures r.Keys == store.Keys
    ensures forall k :: k in store && k != key ==> r[k] == store[k]
    ensures key in store ==> r[key].value == store[key].value
    ensures key in store ==> r[key].entry.accessedCount == store[key].entry.accessedCount + 1
    ensures key in store ==> r[key].entry.accessedAt == now
    ensures key in store ==> r[key].entry.createdAt == store[key].entry.createdAt
  {
    if key in store then store[key := store[key].(entry := IncreaseUsage(store[key].entry, now))] else store
  }

  /** `get`: a hit returns the value and records one access on that entry
      only; a miss returns nothing and changes nothing. */
  function Get<K(==), V>(m: EvictedMap<K, V>, key: K, now: int): (r: (EvictedMap<K, V>, Option<V>))
    ensures r.0.capacity == m.capacity && r.0.comparator == m.comparator
    ensures Contents(r.0) == Contents(m)
    ensures r.1.Some? <==> key in Contents(m)
    ensures r.1.Some? ==> r.1.value == Contents(m)[key]
    ensures r.0.store.Keys == m.store.Keys
    ensures forall k :: k in m.store && k != key ==> r.0.store[k] == m.store[k]
    ensures key in m.store ==> r.0.store[key].entry.accessedCount == m.store[key].entry.accessedCount + 1
    ensures key in m.store ==> r.0.store[key].entry.accessedAt == now
    ensures key in m.store ==> r.0.store[key].entry.createdAt == m.store[key].entry.createdAt
    ensures key !in m.store ==> r.0.store == m.store
    ensures Valid(m) ==> Valid(r.0)
  {
    if key in m.store then
      (m.(store := Touch(m.store, key, now)), Some(m.store[key].value))
    else
      (m, None)
  }

  /** `containsKey`: a read-only lookup by key equality. */
  function ContainsKey<K(==), V>(m: EvictedMap<K, V>, key: K): (r: bool)
    ensures r <==> key in Contents(m)
  {
    key in m.store
  }

  /** `containsValue`: a read-only scan by value equality. */
  function ContainsValue<K(==), V(==)>(m: EvictedMap<K, V>, value: V): (r: bool)
    ensures r <==> value in Contents(m).Values
  {
    assert forall k :: k in m.store ==> Contents(m)[k] == m.store[k].value;
    exists k :: k in m.store && m.store[k].value == value
  }

  /** `keySet`: a snapshot of the keys. */
  function KeySet<K(==), V>(m: EvictedMap<K, V>): (r: set<K>)
    ensures r == Contents(m).Keys
    ensures |r| == Size(m)
  {
    m.store.Keys
  }

  /** `remove`: deletes the entry of `key` only, returning its value; nothing
      is evicted and no other entry is touched. */
  function Remove<K(==), V>(m: EvictedMap<K, V>, key: K): (r: (EvictedMap<K, V>, Option<V>))
    ensures r.0.capacity == m.capacity && r.0.comparator == m.comparator
    ensures Contents(r.0) == Contents(m) - {key}
    ensures r.1.Some? <==> key in Contents(m)
    ensures r.1.Some? ==> r.1.value == Contents(m)[key]
    ensures forall k :: k in r.0.store ==> k in m.store && r.0.store[k] == m.store[k]
    ensures Size(r.0) == if key in m.store then Size(m) - 1 else Size(m)
    ensures Valid(m) ==> Valid(r.0)
  {
    if key in m.store then (m.(store := m.store - {key}), Some(m.store[key].value))
    else (m, None)
  }

  /** `clear`: every entry goes, the capacity and policy stay. */
  function Clear<K(==), V>(m: EvictedMap<K, V>): (r: EvictedMap<K, V>)
    ensures Size(r) == 0 && Contents(r) == map[]
    ensures r.capacity == m.capacity && r.comparator == m.comparator
    ensures Valid(m) ==> Valid(r)
  {
    m.(store := map[])
  }

  /** `getEvictedEntry`: `Stream.min` over the stored entries. The stream
      visits the entries in `HashMap` order, which the model leaves open by
      picking the next entry arbitrarily; like `BinaryOperator.minBy`, the
      running minimum is kept unless it compares greater than the next one. */
  method SelectVictim<K(==), V>(store: map<K, Slot<V>>, cmp: Comparator) returns (victim: K)
    requires |store| > 0
    ensures victim in store
    ensures TotalPreorder(cmp) ==> IsVictim(store, cmp, victim)
  {
    var rest := store.Keys;
    victim :| victim in rest;
    rest := rest - {victim};
    ghost var seen := {victim};
    if TotalPreorder(cmp) {
      PreorderIsTotal(cmp, store[victim].entry, store[victim].entry);
    }
    while rest != {}
      invariant victim in seen
      invariant seen + rest == store.Keys && seen !! rest
      invariant TotalPreorder(cmp) ==> forall j :: j in seen ==> Le(cmp, store[victim].entry, store[j].entry)
      decreases rest
    {
      var next :| next in rest;
      if cmp(store[victim].entry, store[next].entry) > 0 {
        if TotalPreorder(cmp) {
          PreorderIsTotal(cmp, store[victim].entry, store[next].entry);
          PreorderIsTotal(cmp, store[next].entry, store[next].entry);
        }
        victim := next;
      }
      rest := rest - {next};
      seen := seen + {next};
    }
  }

  /** `evict()`: on a non-empty map, removes exactly one entry, a minimal one
      under the comparator; on an empty map, does nothing. */
  method Evict<K(==), V>(m: EvictedMap<K, V>) returns (r: EvictedMap<K, V>, victim: Option<K>)
    ensures r.capacity == m.capacity && r.comparator == m.comparator
    ensures victim.None? <==> Size(m) == 0
    ensures victim.None? ==> r.store == m.store
    ensures victim.Some? ==> victim.value in m.store && r.store == m.store - {victim.value}
    ensures victim.Some? && TotalPreorder(m.comparator) ==> IsVictim(m.store, m.comparator, victim.value)
    ensures Size(r) == if Size(m) == 0 then 0 else Size(m) - 1
    ensures Valid(m) ==> Valid(r)
  {
    if |m.store| == 0 {
      return m, None;
    }
    var k := SelectVictim(m.store, m.comparator);
    r := m.(store := m.store - {k});
    victim := Some(k);
  }

  /** A store of size one holds exactly the one key found in it. */
  lemma SingletonKeys<K, V>(store: map<K, Slot<V>>, k: K)
    requires |store| == 1 && k in store
    ensures store.Keys == {k}
  {
    var rest := store.Keys - {k};
    assert |rest| == |store.Keys| - 1 == 0;
    assert rest == {};
  }

  /** `r` is `m` after evicting `victims` in order, each one a minimal entry
      among those left at its turn; nothing else changed. */
  ghost predicate EvictedInOrder<K, V>(m: EvictedMap<K, V>, r: EvictedMap<K, V>, victims: seq<K>) {
    && r.capacity == m.capacity && r.comparator == m.comparator
    && Size(r) == Size(m) - |victims|
    && (forall i :: 0 <= i < |victims| ==> victims[i] in m.store && victims[i] !in r.store)
    && (forall i, j :: 0 <= i < j < |victims| ==> victims[i] != victims[j])
    && (forall k :: k in m.store ==> (k in r.store <==> k !in victims))
    && (forall k :: k in r.store ==> k in m.store && r.store[k] == m.store[k])
    && (TotalPreorder(m.comparator) ==>
          forall i, k :: 0 <= i < |victims| && k in r.store ==> Le(m.comparator, m.store[victims[i]].entry, r.store[k].entry))
    && (TotalPreorder(m.comparator) ==>
          forall i, j :: 0 <= i < j < |victims| ==> Le(m.comparator, m.store[victims[i]].entry, m.store[victims[j]].entry))
  }

  /** One more minimal eviction extends an eviction history. */
  lemma EvictStep<K, V>(m: EvictedMap<K, V>, r: EvictedMap<K, V>, victims: seq<K>, r': EvictedMap<K, V>, victim: K)
    requires EvictedInOrder(m, r, victims)
    requires r'.capacity == r.capacity && r'.comparator == r.comparator
    requires victim in r.store && r'.store == r.store - {victim}
    requires TotalPreorder(r.comparator) ==> IsVictim(r.store, r.comparator, victim)
    ensures EvictedInOrder(m, r', victims + [victim])
  {
    var vs := victims + [victim];
    assert |r'.store| == |r.store| - 1;
    forall k | k in m.store
      ensures k in r'.store <==> k !in vs
    {
      assert k in vs <==> k in victims || k == victim;
    }
    if TotalPreorder(m.comparator) {
      forall i, k | 0 <= i < |vs| && k in r'.store
        ensures Le(m.comparator, m.store[vs[i]].entry, r'.store[k].entry)
      {
        if i < |victims| {
          assert vs[i] == victims[i];
        }
      }
      forall i, j | 0 <= i < j < |vs|
        ensures Le(m.comparator, m.store[vs[i]].entry, m.store[vs[j]].entry)
      {
        if j == |victims| {
          assert vs[i] == victims[i] && victim in r.store;
        }
      }
    }
  }

  /** An eviction history never breaks the engine invariant. */
  lemma EvictedKeepsValid<K, V>(m: EvictedMap<K, V>, r: EvictedMap<K, V>, victims: seq<K>)
    requires EvictedInOrder(m, r, victims)
    requires Valid(m)
    ensures Valid(r)
  {
  }

  /** `evict(count)`: calls `evict()` `count` times, each call re-selecting the
      minimum among the entries still present; once the map is empty the
      remaining calls do nothing. `victims` lists the evicted keys in order. */
  method EvictCount<K(==), V>(m: EvictedMap<K, V>, count: int) returns (r: EvictedMap<K, V>, victims: seq<K>)
    ensures r.capacity == m.capacity && r.comparator == m.comparator
    ensures count <= 0 ==> victims == [] && r.store == m.store
    ensures |victims| == Min(Max(count, 0), Size(m))
    ensures Size(r) == Size(m) - |victims|
    ensures forall i :: 0 <= i < |victims| ==> victims[i] in m.store && victims[i] !in r.store
    ensures forall i, j :: 0 <= i < j < |victims| ==> victims[i] != victims[j]
    ensures forall k :: k in m.store ==> (k in r.store <==> k !in victims)
    ensures forall k :: k in r.store ==> k in m.store && r.store[k] == m.store[k]
    ensures TotalPreorder(m.comparator) ==>
      forall i, k :: 0 <= i < |victims| && k in r.store ==> Le(m.comparator, m.store[victims[i]].entry, r.store[k].entry)
    ensures TotalPreorder(m.comparator) ==>
      forall i, j :: 0 <= i < j < |victims| ==> Le(m.comparator, m.store[victims[i]].entry, m.store[victims[j]].entry)
    ensures Valid(m) ==> Valid(r)
  {
    r := m;
    victims := [];
    var i := 1;
    while i <= count
      invariant 1 <= i <= Max(count, 0) + 1
      invariant |victims| == Min(i - 1, Size(m))
      invariant EvictedInOrder(m, r, victims)
    {
      var r', victim := Evict(r);
      if victim.Some? {
        EvictStep(m, r, victims, r', victim.value);
        victims := victims + [victim.value];
      }
      r := r';
      i := i + 1;
    }
    if Valid(m) {
      EvictedKeepsValid(m, r, victims);
    }
  }

  /** `setCapacity`: a capacity below one is rejected and the map is left as
      it was; an unchanged capacity is a no-op; a capacity below the current
      size first evicts the surplus, one victim at a time. */
  method SetCapacity<K(==), V>(m: EvictedMap<K, V>, newCapacity: int) returns (r: Result<EvictedMap<K, V>>, victims: seq<K>)
    ensures newCapacity < 1 ==> r.Failure? && r.error == IllegalArgument && victims == []
    ensures newCapacity >= 1 ==> r.Success? && r.value.capacity == newCapacity && r.value.comparator == m.comparator
    ensures r.Success? && Valid(m) ==> Valid(r.value) && Size(r.value) == Min(Size(m), newCapacity)
    ensures r.Success? ==> forall k :: k in r.value.store ==> k in m.store && r.value.store[k] == m.store[k]
    ensures r.Success? ==> forall k :: k in m.store ==> (k in r.value.store <==> k !in victims)
    ensures r.Success? ==> |victims| == Size(m) - Size(r.value)
    ensures forall i :: 0 <= i < |victims| ==> victims[i] in m.store
    ensures newCapacity >= Size(m) ==> victims == []
    ensures r.Success? && TotalPreorder(m.comparator) ==>
      forall i, k :: 0 <= i < |victims| && k in r.value.store ==> Le(m.comparator, m.store[victims[i]].entry, r.value.store[k].entry)
    ensures r.Success? && TotalPreorder(m.comparator) ==>
      forall i, j :: 0 <= i < j < |victims| ==> Le(m.comparator, m.store[victims[i]].entry, m.store[victims[j]].entry)
    ensures forall i, j :: 0 <= i < j < |victims| ==> victims[i] != victims[j]
  {
    if newCapacity < 1 {
      return Failure(IllegalArgument), [];
    }
    victims := [];
    var s := m;
    if newCapacity != m.capacity {
      var size := |m.store|;
      if newCapacity < size {
        s, victims := EvictCount(m, size - newCapacity);
      }
    }
    r := Success(s.(capacity := newCapacity));
  }

  /** Storing `key` after an eviction adds or overwrites exactly one
      association of the map view. */
  lemma ContentsAfterStore<K, V>(m: EvictedMap<K, V>, s: EvictedMap<K, V>, gone: set<K>, key: K, slot: Slot<V>)
    requires s.store.Keys == m.store.Keys - gone
    requires forall k :: k in s.store ==> s.store[k].value == m.store[k].value
    ensures Contents(s.(store := s.store[key := slot])) == (Contents(m) - gone)[key := slot.value]
  {
  }

  /** The first half of `put`: record the access on an existing entry, then
      evict once if the map is full. */
  method MakeRoom<K(==), V>(m: EvictedMap<K, V>, key: K, now: int) returns (s: EvictedMap<K, V>, victim: Option<K>)
    ensures s.capacity == m.capacity && s.comparator == m.comparator
    ensures victim.Some? <==> Size(m) == m.capacity && Size(m) > 0
    ensures victim.Some? ==> victim.value in m.store && s.store == Touch(m.store, key, now) - {victim.value}
    ensures victim.None? ==> s.store == Touch(m.store, key, now)
    ensures victim.Some? && TotalPreorder(m.comparator) ==> IsVictim(Touch(m.store, key, now), m.comparator, victim.value)
  {
    s := m.(store := Touch(m.store, key, now));
    victim := None;
    if |m.store| == m.capacity {
      s, victim := Evict(s);
    }
  }

  /** Storing a used entry into a map with room for it keeps the invariant. */
  lemma StoreKeepsValid<K, V>(s: EvictedMap<K, V>, key: K, slot: Slot<V>)
    requires s.capacity >= 1 && slot.entry.accessedCount >= 1
    requires |s.store| < s.capacity || (key in s.store && |s.store| <= s.capacity)
    requires forall k :: k in s.store ==> s.store[k].entry.accessedCount >= 1
    ensures Valid(s.(store := s.store[key := slot]))
  {
  }

  /** `r` and `previous` are what `put` makes of `m` once `MakeRoom` has
      produced `s` and `victim`. */
  ghost predicate PutSteps<K, V>(m: EvictedMap<K, V>, key: K, value: V, now: int,
                                 s: EvictedMap<K, V>, victim: Option<K>, r: EvictedMap<K, V>, previous: Option<V>)
  {
    && s.capacity == m.capacity && s.comparator == m.comparator
    && (victim.Some? <==> Size(m) == m.capacity && Size(m) > 0)
    && (victim.Some? ==> victim.value in m.store && s.store == Touch(m.store, key, now) - {victim.value})
    && (victim.None? ==> s.store == Touch(m.store, key, now))
    && previous == (if key in s.store then Some(s.store[key].value) else None)
    && r == s.(store := s.store[key := Slot(if key in m.store then IncreaseUsage(m.store[key].entry, now) else NewEntry(now), value)])
  }

  /** Which entries `put` keeps, and with what. */
  lemma PutFrame<K, V>(m: EvictedMap<K, V>, key: K, value: V, now: int,
                       s: EvictedMap<K, V>, victim: Option<K>, r: EvictedMap<K, V>, previous: Option<V>)
    requires PutSteps(m, key, value, now, s, victim, r, previous)
    ensures previous.Some? <==> key in m.store && victim != Some(key)
    ensures previous.Some? ==> previous.value == m.store[key].value
    ensures forall k :: k != key ==> (k in r.store <==> k in m.store && victim != Some(k))
    ensures forall k :: k in r.store && k != key ==> r.store[k] == m.store[k]
  {
  }

  /** How `put` changes the size, and that it keeps the invariant. */
  lemma PutSize<K, V>(m: EvictedMap<K, V>, key: K, value: V, now: int,
                      s: EvictedMap<K, V>, victim: Option<K>, r: EvictedMap<K, V>, previous: Option<V>)
    requires PutSteps(m, key, value, now, s, victim, r, previous)
    ensures victim.None? ==> Size(r) == if key in m.store then Size(m) else Size(m) + 1
    ensures victim.Some? ==> Size(r) == if key in m.store && victim != Some(key) then Size(m) - 1 else Size(m)
    ensures Valid(m) ==> Valid(r)
  {
    assert |s.store| == |m.store| - |KeyOf(victim)|;
    if Valid(m) {
      StoreKeepsValid(s, key, r.store[key]);
    }
  }

  /** `put`: the entry of a present key records an access (so the comparator
      sees the new usage), a new key gets a fresh entry; then, whenever the map
      is full, one minimal entry is evicted, even if the key was present; then
      the key is stored with the new value. The previous value is returned
      only if the key's entry survived the eviction. */
  method Put<K(==), V>(m: EvictedMap<K, V>, key: K, value: V, now: int)
    returns (r: EvictedMap<K, V>, previous: Option<V>, victim: Option<K>)
    ensures r.capacity == m.capacity && r.comparator == m.comparator
    ensures victim.Some? <==> Size(m) == m.capacity && Size(m) > 0
    ensures victim.Some? ==> victim.value in m.store
    ensures victim.Some? && TotalPreorder(m.comparator) ==> IsVictim(Touch(m.store, key, now), m.comparator, victim.value)
    ensures key in r.store && r.store[key].value == value
    ensures key in m.store ==> r.store[key].entry.accessedCount == m.store[key].entry.accessedCount + 1
    ensures key in m.store ==> r.store[key].entry.accessedAt == now
    ensures key in m.store ==> r.store[key].entry.createdAt == m.store[key].entry.createdAt
    ensures key !in m.store ==> r.store[key].entry == NewEntry(now)
    ensures previous.Some? <==> key in m.store && victim != Some(key)
    ensures previous.Some? ==> previous.value == m.store[key].value
    ensures forall k :: k != key ==> (k in r.store <==> k in m.store && victim != Some(k))
    ensures forall k :: k in r.store && k != key ==> r.store[k] == m.store[k]
    ensures Contents(r) == (Contents(m) - KeyOf(victim))[key := value]
    ensures victim.None? ==> Size(r) == if key in m.store then Size(m) else Size(m) + 1
    ensures victim.Some? ==> Size(r) == if key in m.store && victim != Some(key) then Size(m) - 1 else Size(m)
    ensures Valid(m) ==> Valid(r)
  {
    var entry := if key in m.store then IncreaseUsage(m.store[key].entry, now) else NewEntry(now);
    var s;
    s, victim := MakeRoom(m, key, now);
    previous := if key in s.store then Some(s.store[key].value) else None;
    r := s.(store := s.store[key := Slot(entry, value)]);
    ContentsAfterStore(m, s, KeyOf(victim), key, Slot(entry, value));
    PutFrame(m, key, value, now, s, victim, r, previous);
    PutSize(m, key, value, now, s, victim, r, previous);
  }

  /** The map a sequence of `put`s builds when no key repeats: the last
      association for each key wins. */
  function PairsMap<K, V>(pairs: seq<(K, V)>): map<K, V>
    decreases |pairs|
  {
    if |pairs| == 0 then map[]
    else PairsMap(pairs[..|pairs| - 1])[pairs[|pairs| - 1].0 := pairs[|pairs| - 1].1]
  }

  lemma {:induction false} PairsMapKeys<K, V>(pairs: seq<(K, V)>, k: K)
    ensures k in PairsMap(pairs) <==> exists i :: 0 <= i < |pairs| && pairs[i].0 == k
    decreases |pairs|
  {
    if |pairs| > 0 {
      var init := pairs[..|pairs| - 1];
      PairsMapKeys(init, k);
      if k in PairsMap(init) {
        var i :| 0 <= i < |init| && init[i].0 == k;
        assert pairs[i].0 == k;
      }
      if exists i :: 0 <= i < |pairs| && pairs[i].0 == k {
        var i :| 0 <= i < |pairs| && pairs[i].0 == k;
        if i < |init| {
          assert init[i].0 == k;
        }
      }
    }
  }

  lemma PairsMapSnoc<K, V>(pairs: seq<(K, V)>, i: nat)
    requires i < |pairs|
    ensures PairsMap(pairs[..i + 1]) == PairsMap(pairs[..i])[pairs[i].0 := pairs[i].1]
  {
    assert pairs[..i + 1][..i] == pairs[..i];
  }

  /** Appending one absent association to the map view extends it by that association. */
  lemma ExtendUnion<K, V>(base: map<K, V>, built: map<K, V>, k: K, v: V)
    ensures (base + built)[k := v] == base + built[k := v]
  {
  }

  ghost predicate DistinctKeys<K, V>(pairs: seq<(K, V)>) {
    forall i, j :: 0 <= i < j < |pairs| ==> pairs[i].0 != pairs[j].0
  }

  /** What `putAll` has achieved after its first `i` puts. With `room`, no
      put has met a full map, so the map view is the old one extended with
      the pairs so far; with `grows`, every put also added a new entry. */
  ghost predicate PutAllSoFar<K, V>(m: EvictedMap<K, V>, r: EvictedMap<K, V>, pairs: seq<(K, V)>, i: nat, room: bool, grows: bool)
    requires i <= |pairs|
  {
    && r.capacity == m.capacity && r.comparator == m.comparator
    && (Valid(m) ==> Valid(r))
    && (i > 0 ==> pairs[i - 1].0 in Contents(r) && Contents(r)[pairs[i - 1].0] == pairs[i - 1].1)
    && (room ==> Contents(r) == Contents(m) + PairsMap(pairs[..i]) && Size(r) <= Size(m) + i)
    && (grows ==> Size(r) == Size(m) + i)
  }

  /** A put while the pairs still fit evicts nothing and extends the map
      view by its association, overwriting or not. */
  lemma PutAllRoomStep<K, V>(m: EvictedMap<K, V>, r: EvictedMap<K, V>, r': EvictedMap<K, V>, pairs: seq<(K, V)>, i: nat, victim: Option<K>)
    requires i < |pairs|
    requires Contents(r) == Contents(m) + PairsMap(pairs[..i]) && Size(r) <= Size(m) + i
    requires Size(m) + |pairs| <= m.capacity && r.capacity == m.capacity
    requires victim.Some? ==> Size(r) == r.capacity
    requires Contents(r') == (Contents(r) - KeyOf(victim))[pairs[i].0 := pairs[i].1]
    requires victim.None? ==> Size(r') <= Size(r) + 1
    ensures victim.None?
    ensures Contents(r') == Contents(m) + PairsMap(pairs[..i + 1]) && Size(r') <= Size(m) + i + 1
  {
    assert Size(r) < r.capacity;
    assert KeyOf(victim) == {};
    assert Contents(r) - KeyOf(victim) == Contents(r);
    PairsMapSnoc(pairs, i);
    ExtendUnion(Contents(m), PairsMap(pairs[..i]), pairs[i].0, pairs[i].1);
  }

  /** With distinct keys absent from the original map, the next key is not
      yet stored. */
  lemma PutAllFreshKey<K, V>(m: EvictedMap<K, V>, r: EvictedMap<K, V>, pairs: seq<(K, V)>, i: nat)
    requires i < |pairs|
    requires Contents(r) == Contents(m) + PairsMap(pairs[..i])
    requires DistinctKeys(pairs) && (forall j :: 0 <= j < |pairs| ==> pairs[j].0 !in m.store)
    ensures pairs[i].0 !in r.store
  {
    var key := pairs[i].0;
    PairsMapKeys(pairs[..i], key);
    assert key !in Contents(r);
  }

  /** `putAll`: one `put` per association, in the argument map's iteration
      order (`pairs`), the i-th at time `nows[i]`. When the pairs fit in the
      free capacity, nothing is evicted and the map view becomes the old one
      overwritten and extended by the pairs, the last pair for a key
      winning; when the keys are moreover distinct and new, each put adds
      one entry. */
  method PutAll<K(==), V>(m: EvictedMap<K, V>, pairs: seq<(K, V)>, nows: seq<int>) returns (r: EvictedMap<K, V>)
    requires |nows| == |pairs|
    ensures r.capacity == m.capacity && r.comparator == m.comparator
    ensures Valid(m) ==> Valid(r)
    ensures |pairs| > 0 ==> pairs[|pairs| - 1].0 in Contents(r) && Contents(r)[pairs[|pairs| - 1].0] == pairs[|pairs| - 1].1
    ensures Size(m) + |pairs| <= m.capacity ==>
              Contents(r) == Contents(m) + PairsMap(pairs) && Size(r) <= Size(m) + |pairs|
    ensures DistinctKeys(pairs) && (forall i :: 0 <= i < |pairs| ==> pairs[i].0 !in m.store)
            && Size(m) + |pairs| <= m.capacity ==>
              Contents(r) == Contents(m) + PairsMap(pairs) && Size(r) == Size(m) + |pairs|
  {
    ghost var room := Size(m) + |pairs| <= m.capacity;
    ghost var grows := room && DistinctKeys(pairs) && (forall i :: 0 <= i < |pairs| ==> pairs[i].0 !in m.store);
    r := PutAllLoop(m, pairs, nows, room, grows);
    PutAllEnd(m, r, pairs, room, grows);
  }

  /** The loop of `putAll` over all the pairs. */
  method PutAllLoop<K(==), V>(m: EvictedMap<K, V>, pairs: seq<(K, V)>, nows: seq<int>, ghost room: bool, ghost grows: bool)
    returns (r: EvictedMap<K, V>)
    requires |nows| == |pairs|
    requires room ==> Size(m) + |pairs| <= m.capacity
    requires grows ==> room && DistinctKeys(pairs) && (forall j :: 0 <= j < |pairs| ==> pairs[j].0 !in m.store)
    ensures PutAllSoFar(m, r, pairs, |pairs|, room, grows)
  {
    r := m;
    PutAllStart(m, pairs, room, grows);
    var i := 0;
    while i < |pairs|
      invariant 0 <= i <= |pairs|
      invariant PutAllSoFar(m, r, pairs, i, room, grows)
    {
      r := PutAllNext(m, r, pairs, i, nows[i], room, grows);
      i := i + 1;
    }
  }

  /** After the last put, the achievements cover all the pairs. */
  lemma PutAllEnd<K, V>(m: EvictedMap<K, V>, r: EvictedMap<K, V>, pairs: seq<(K, V)>, room: bool, grows: bool)
    requires PutAllSoFar(m, r, pairs, |pairs|, room, grows)
    ensures r.capacity == m.capacity && r.comparator == m.comparator
    ensures Valid(m) ==> Valid(r)
    ensures |pairs| > 0 ==> pairs[|pairs| - 1].0 in Contents(r) && Contents(r)[pairs[|pairs| - 1].0] == pairs[|pairs| - 1].1
    ensures room ==> Contents(r) == Contents(m) + PairsMap(pairs) && Size(r) <= Size(m) + |pairs|
    ensures grows ==> Size(r) == Size(m) + |pairs|
  {
    assert pairs[..|pairs|] == pairs;
  }

  /** Before the first put, `putAll` has achieved everything vacuously. */
  lemma PutAllStart<K, V>(m: EvictedMap<K, V>, pairs: seq<(K, V)>, room: bool, grows: bool)
    ensures PutAllSoFar(m, m, pairs, 0, room, grows)
  {
    assert PairsMap(pairs[..0]) == map[];
    assert Contents(m) + map[] == Contents(m);
  }

  /** The `i`-th `put` of `putAll`. */
  method PutAllNext<K(==), V>(m: EvictedMap<K, V>, r: EvictedMap<K, V>, pairs: seq<(K, V)>, i: nat, now: int, ghost room: bool, ghost grows: bool)
    returns (r': EvictedMap<K, V>)
    requires i < |pairs| && PutAllSoFar(m, r, pairs, i, room, grows)
    requires room ==> Size(m) + |pairs| <= m.capacity
    requires grows ==> room && DistinctKeys(pairs) && (forall j :: 0 <= j < |pairs| ==> pairs[j].0 !in m.store)
    ensures PutAllSoFar(m, r', pairs, i + 1, room, grows)
  {
    if grows {
      PutAllFreshKey(m, r, pairs, i);
    }
    var previous, victim;
    r', previous, victim := Put(r, pairs[i].0, pairs[i].1, now);
    if room {
      PutAllRoomStep(m, r, r', pairs, i, victim);
    }
  }
}
