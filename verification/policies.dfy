/** The two policy presets. Each preset class only supplies a comparator and
    hands its capacity to the engine's constructor; `EvictedMapLFU`/`LRU`
    build on `EvictedMap`, `EvictedCacheLFU`/`LRU` on the older
    `EvictedCache`, with the same comparators. */
module Policies {
  import opened Wrappers
  import opened CacheEntries
  import opened Comparators
  import opened Engine

  /** `ComparatorLFU.compare`: the difference of the access counts (counts
      are unbounded here, so the subtraction cannot wrap). */
  function LfuCompare(right: CacheEntry, left: CacheEntry): (r: int)
    ensures r < 0 <==> right.accessedCount < left.accessedCount
    ensures r == 0 <==> right.accessedCount == left.accessedCount
    ensures r > 0 <==> right.accessedCount > left.accessedCount
  {
    right.accessedCount - left.accessedCount
  }

  /** `Long.compare`. */
  function LongCompare(x: int, y: int): (r: int)
    ensures r == -1 || r == 0 || r == 1
    ensures r == Sign(x - y)
  {
    if x < y then -1 else if x == y then 0 else 1
  }

  /** `ComparatorLRU.compare`: `Long.compare` of the last access times. */
  function LruCompare(right: CacheEntry, left: CacheEntry): (r: int)
    ensures r < 0 <==> right.accessedAt < left.accessedAt
    ensures r == 0 <==> right.accessedAt == left.accessedAt
    ensures r > 0 <==> right.accessedAt > left.accessedAt
  {
    LongCompare(right.accessedAt, left.accessedAt)
  }

  /** The LFU comparator honours the Comparator contract: it is the total
      preorder "has no more accesses than". */
  lemma LfuIsTotalPreorder()
    ensures TotalPreorder(LfuCompare)
    ensures forall a, b :: Le(LfuCompare, a, b) <==> a.accessedCount <= b.accessedCount
  {
  }

  /** The LRU comparator honours the Comparator contract: it is the total
      preorder "was last accessed no later than". */
  lemma LruIsTotalPreorder()
    ensures TotalPreorder(LruCompare)
    ensures forall a, b :: Le(LruCompare, a, b) <==> a.accessedAt <= b.accessedAt
  {
  }

  /** Under LFU, the victims are exactly the entries with the fewest accesses. */
  lemma LfuVictimIsLeastUsed<K, V>(store: map<K, Slot<V>>, k: K)
    ensures IsVictim(store, LfuCompare, k) <==>
      k in store && forall j :: j in store ==> store[k].entry.accessedCount <= store[j].entry.accessedCount
  {
  }

  /** Under LRU, the victims are exactly the least recently accessed entries. */
  lemma LruVictimIsLeastRecent<K, V>(store: map<K, Slot<V>>, k: K)
    ensures IsVictim(store, LruCompare, k) <==>
      k in store && forall j :: j in store ==> store[k].entry.accessedAt <= store[j].entry.accessedAt
  {
  }

  /** `new EvictedMapLFU(initialCapacity)`. */
  function NewLfu<K(==), V>(initialCapacity: int): (r: Result<EvictedMap<K, V>>)
    ensures r.Failure? <==> initialCapacity < 1
    ensures r.Failure? ==> r.error == IllegalArgument
    ensures r.Success? ==> Valid(r.value) && Size(r.value) == 0 && r.value.capacity == initialCapacity
    ensures r.Success? ==> r.value.comparator == LfuCompare
  {
    New(initialCapacity, Some(LfuCompare))
  }

  /** `new EvictedMapLRU(initialCapacity)`. */
  function NewLru<K(==), V>(initialCapacity: int): (r: Result<EvictedMap<K, V>>)
    ensures r.Failure? <==> initialCapacity < 1
    ensures r.Failure? ==> r.error == IllegalArgument
    ensures r.Success? ==> Valid(r.value) && Size(r.value) == 0 && r.value.capacity == initialCapacity
    ensures r.Success? ==> r.value.comparator == LruCompare
  {
    New(initialCapacity, Some(LruCompare))
  }

  /** `new EvictedCacheLFU(initialCapacity)`: the comparator is never null, so
      only the capacity check of `EvictedCache` can fail. */
  function NewCacheLfu<K(==), V>(initialCapacity: int): (r: Result<EvictedMap<K, V>>)
    ensures r.Failure? <==> initialCapacity < 1
    ensures r.Failure? ==> r.error == IllegalArgument
    ensures r.Success? ==> Valid(r.value) && Size(r.value) == 0 && r.value.capacity == initialCapacity
    ensures r.Success? ==> r.value.comparator == LfuCompare
  {
    NewCache(initialCapacity, Some(LfuCompare))
  }

  /** `new EvictedCacheLRU(initialCapacity)`. */
  function NewCacheLru<K(==), V>(initialCapacity: int): (r: Result<EvictedMap<K, V>>)
    ensures r.Failure? <==> initialCapacity < 1
    ensures r.Failure? ==> r.error == IllegalArgument
    ensures r.Success? ==> Valid(r.value) && Size(r.value) == 0 && r.value.capacity == initialCapacity
    ensures r.Success? ==> r.value.comparator == LruCompare
  {
    NewCache(initialCapacity, Some(LruCompare))
  }
}
