# EvictedCacheMaps — a Dafny model of the eviction-bounded map

This project models the core of EvictedCacheMaps, a Java library of maps
that hold at most `capacity` entries. When a map is full, it evicts an entry
chosen by a pluggable comparator over per-key usage metadata. The model
covers:

- the engine class `EvictedMap`, and its older twin `EvictedCache`, whose
  engine logic is the same line for line;
- the default `evict(int count)` of `EvictedMapInterface`;
- the LFU and LRU presets of both families.

Every operation is a transition from one immutable engine value to the
next:

- `CacheEntries`: the per-key metadata (`accessedCount`, `accessedAt`,
  `createdAt`). The wall clock is an explicit `now` argument.
- `Comparators`: the comparator type and the Comparator contract
  (sign-antisymmetric and transitive, i.e. a total preorder).
- `Engine`:
  - the store, as a map from key to (metadata, value);
  - the constructors of both families;
  - `get`, `containsKey`, `containsValue`, `keySet`, `remove`, `clear`;
  - victim selection, `evict()`, `evict(count)`, `setCapacity`, `put`,
    `putAll`.
- `Policies`: the LFU and LRU comparators, proofs that they honour the
  Comparator contract, what their victims are, and the four preset
  constructors.
- `Laws`: read-your-write, and `remove` undoing `put`.
- `Scenarios`: the repository's tests, replayed with explicit clock values.
- `CountLoop`: the 32-bit loop counter of `evict(int count)`; see Findings.

Victim selection follows `Stream.min`. It walks the entries in an
arbitrary order, which stands for `HashMap` order, and keeps the running
minimum unless it compares greater than the next entry. The result is
always a stored key. When the comparator honours the Comparator contract,
the result is also a minimal entry. Ties are left open, as in the code.

Two behaviours a reader might not expect; the model follows the code:

- Unlike the usual `Map.put` contract, where overwriting a key never
  changes the size, `put` on a full map evicts before storing even when
  the key is already present (EvictedMap.java:149-159: the size test on
  line 156 ignores whether an entry was found on line 149). The victim can
  be the overwritten key itself: its entry is then stored again with its
  increased usage, and `put` returns no previous value. Otherwise the map
  loses one entry while `put` returns the old value. See
  `Scenarios.OverwriteOwnVictim` and `Scenarios.OverwriteShrinks`.
- `evict(count)` is meant to evict min(count, size) entries and return,
  and it does so for every count below `Integer.MAX_VALUE`; for
  `count == Integer.MAX_VALUE` its 32-bit loop counter wraps and the loop
  never exits (see Findings).

A null comparator is rejected differently by the two families:

- `EvictedMap` throws IllegalArgumentException.
- `EvictedCache` throws NullPointerException. This comes from Lombok's
  `@NonNull`, which runs before the body.

Java's null key and null value are ordinary values of `K` and `V` here.
The `HashMap` of the code holds at most one entry per key, because
`getEntry` finds the existing entry and `put` reuses it. So the null key
is simply one more key.

## Model

| member | source | states |
|---|---|---|
| CacheEntries.IncreaseUsage | src/main/java/pw/komarov/caches/EvictedMap.java:40-43 | one access adds exactly one to the count and sets the last access time to now; the creation time is kept |
| CacheEntries.NewEntry | src/main/java/pw/komarov/caches/EvictedMap.java:33-38 | a new entry has already been used once, and its creation and last access times are both the construction time |
| CacheEntries.UsedAtCounts | src/main/java/pw/komarov/caches/EvictedMap.java:40-43 | after n accesses the count has grown by exactly n, the creation time is unchanged and the last access time is that of the last access |
| CacheEntries.LifetimeUsage | src/main/java/pw/komarov/caches/EvictedMap.java:33-43 | an entry created and then accessed n times has been used 1 + n times (never fewer than once) and keeps its creation time |
| Engine.New | src/main/java/pw/komarov/caches/EvictedMap.java:98-107 | construction fails with IllegalArgument exactly when the comparator is null or the capacity is below one; otherwise the map is empty, valid, and has that capacity and comparator |
| Engine.NewCache | src/main/java/pw/komarov/caches/EvictedCache.java:73-83 | a null comparator fails with NullPointer, then a capacity below one fails with IllegalArgument; success exactly otherwise, with an empty valid map |
| Engine.FamiliesAgree | src/main/java/pw/komarov/caches/EvictedCache.java:73-83 | both families build the same engine from a non-null comparator; for a null one `EvictedCache` fails with NullPointer where `EvictedMap` fails with IllegalArgument |
| Engine.Touch | src/main/java/pw/komarov/caches/EvictedMap.java:149-152 | recording an access changes only the metadata of that key (count + 1, access time now, creation time and value kept) and nothing for an absent key |
| Engine.Get | src/main/java/pw/komarov/caches/EvictedMap.java:133-144 | a hit exactly when the key is in the map view, returning its value; the map view and key set are unchanged; only the hit key's usage is bumped; a miss changes nothing; validity is kept |
| Engine.ContainsKey | src/main/java/pw/komarov/caches/EvictedMap.java:128-131 | true exactly when the key is in the map view |
| Engine.ContainsValue | src/main/java/pw/komarov/caches/EvictedMap.java:123-126 | true exactly when the value is among the map view's values |
| Engine.KeySet | src/main/java/pw/komarov/caches/EvictedMap.java:181-188 | the key set of the map view, of the map's size |
| Engine.Remove | src/main/java/pw/komarov/caches/EvictedMap.java:162-169 | the map view loses exactly the key; the old value is returned exactly when the key was present; other entries untouched; size drops by one exactly when present; validity is kept |
| Engine.Clear | src/main/java/pw/komarov/caches/EvictedMap.java:176-179 | the map is empty with capacity and comparator kept |
| Engine.SelectVictim | src/main/java/pw/komarov/caches/EvictedMap.java:244-247 | the selected key is stored, and under a comparator honouring the Comparator contract its entry ranks no better than any stored entry |
| Engine.Evict | src/main/java/pw/komarov/caches/EvictedMap.java:249-253 | an empty map is unchanged; otherwise exactly one stored key is removed, a minimal one under a lawful comparator, and size drops by one |
| Engine.EvictStep | src/main/java/pw/komarov/caches/EvictedMapInterface.java:6-10 | one more minimal eviction extends an in-order eviction history: victims distinct, all gone, survivors unchanged and ranked no better than every victim |
| Engine.EvictCount | src/main/java/pw/komarov/caches/EvictedMapInterface.java:6-10 | evicts min(count, size) distinct stored keys (none for count <= 0), survivors untouched; under a lawful comparator each victim is minimal among those left at its turn, so victims come out in non-decreasing order and rank no better than every survivor |
| Engine.SetCapacity | src/main/java/pw/komarov/caches/EvictedMap.java:80-94 | below one fails with IllegalArgument and evicts nothing; otherwise sets the capacity and evicts distinct stored keys, nothing when the new capacity is at least the size; under a lawful comparator the victims come out in non-decreasing order and rank no better than every survivor; survivors are untouched; for a valid map exactly the surplus is evicted, leaving min(size, newCapacity) entries, and validity is kept |
| Engine.MakeRoom | src/main/java/pw/komarov/caches/EvictedMap.java:149-157 | records the access on a present key, then evicts exactly one entry of the touched store when the map is full, a minimal one under a lawful comparator, and nothing otherwise |
| Engine.Put | src/main/java/pw/komarov/caches/EvictedMap.java:146-160 | evicts exactly when the map is full (even on an overwrite); the map view becomes (old view minus victim) with key mapped to value; the previous value is returned exactly when the key was present and not itself the victim; usage of an old key grows by one, a new key gets fresh metadata; exact size change; validity kept |
| Engine.PutAll | src/main/java/pw/komarov/caches/EvictedMap.java:171-174 | validity is kept and the last pair's association holds; when the pairs fit in the free capacity (size + number of pairs <= capacity) nothing is evicted and the map view becomes the old view overwritten and extended by the pairs, for present and new keys alike, with at most one new entry per pair; when the keys are moreover distinct and new, the size grows by exactly the number of pairs |
| Policies.LfuCompare | src/main/java/pw/komarov/caches/EvictedMapLFU.java:6-8 | negative, zero or positive exactly as the first entry has fewer, as many or more accesses than the second |
| Policies.LongCompare | src/main/java/pw/komarov/caches/EvictedMapLRU.java:7 | returns -1, 0 or 1, the sign of the difference of the two arguments |
| Policies.LruCompare | src/main/java/pw/komarov/caches/EvictedMapLRU.java:6-8 | negative, zero or positive exactly as the first entry was last accessed earlier, at the same time or later than the second |
| Policies.LfuIsTotalPreorder | src/main/java/pw/komarov/caches/EvictedMapLFU.java:6-8 | the LFU comparator honours the Comparator contract, and ranks no better means has no more accesses |
| Policies.LruIsTotalPreorder | src/main/java/pw/komarov/caches/EvictedMapLRU.java:6-8 | the LRU comparator honours the Comparator contract, and ranks no better means was last accessed no later |
| Policies.LfuVictimIsLeastUsed | src/main/java/pw/komarov/caches/EvictedMapLFU.java:6-8 | under LFU a key is a legitimate victim exactly when it is stored and has the fewest accesses |
| Policies.LruVictimIsLeastRecent | src/main/java/pw/komarov/caches/EvictedMapLRU.java:6-8 | under LRU a key is a legitimate victim exactly when it is stored and was least recently accessed |
| Policies.NewLfu | src/main/java/pw/komarov/caches/EvictedMapLFU.java:11-13 | fails with IllegalArgument exactly for a capacity below one; otherwise an empty valid map with the LFU comparator |
| Policies.NewLru | src/main/java/pw/komarov/caches/EvictedMapLRU.java:11-13 | fails with IllegalArgument exactly for a capacity below one; otherwise an empty valid map with the LRU comparator |
| Policies.NewCacheLfu | src/main/java/pw/komarov/caches/EvictedCacheLFU.java:11-13 | the `EvictedCache` family's LFU preset: same outcome as `NewLfu` |
| Policies.NewCacheLru | src/main/java/pw/komarov/caches/EvictedCacheLRU.java:11-13 | the `EvictedCache` family's LRU preset: same outcome as `NewLru` |
| Laws.PutThenGet | src/main/java/pw/komarov/caches/EvictedMap.java:133-160 | right after `put(key, value)`, `get(key)` returns value, whatever was evicted |
| Laws.PutThenRemove | src/main/java/pw/komarov/caches/EvictedMap.java:146-169 | removing the key just put returns its value and restores the old map view minus that key and any victim; exactly the old view and size when the key was new and there was room |
| Scenarios.LfuOnlyVictim | src/test/java/pw/komarov/caches/test/LFUTest.java:24-31 | a strictly least-used entry is the only entry LFU may evict |
| Scenarios.LruOnlyVictim | src/test/java/pw/komarov/caches/test/LRUTest.java:28-35 | a strictly least-recently-accessed entry is the only entry LRU may evict |
| Scenarios.PutFresh | src/main/java/pw/komarov/caches/EvictedMap.java:153-159 | a new key put into a map with room adds one fresh entry and evicts nothing |
| Scenarios.PutThree | src/test/java/pw/komarov/caches/test/LFUTest.java:13-15 | three puts of new keys at times 1, 2, 3 give three fresh entries |
| Scenarios.LfuPrepare | src/test/java/pw/komarov/caches/test/LFUTest.java:12-19 | the tests' puts and gets leave the access counts 1:2, 2:1, 3:3 |
| Scenarios.LfuEvictionOrder | src/test/java/pw/komarov/caches/test/LFUTest.java:11-35 | under LFU three evictions remove keys 2, 1, 3 in that order and empty the map |
| Scenarios.LfuMapTest | src/test/java/pw/komarov/caches/test/LFUTest.java:11-35 | `EvictedMapLFU(10)` evicts 2, 1, 3 |
| Scenarios.LfuCacheTest | src/test/java/LFULRUTest.java:10-34 | `EvictedCacheLFU(10)` evicts 2, 1, 3 |
| Scenarios.LruPrepare | src/test/java/pw/komarov/caches/test/LRUTest.java:13-22 | the tests' puts and gets, at increasing times, leave the last access times 1:6, 2:5, 3:4 |
| Scenarios.LruEvictionOrder | src/test/java/pw/komarov/caches/test/LRUTest.java:12-39 | under LRU three evictions remove keys 3, 2, 1 in that order and empty the map |
| Scenarios.LruMapTest | src/test/java/pw/komarov/caches/test/LRUTest.java:12-39 | `EvictedMapLRU(10)` evicts 3, 2, 1 |
| Scenarios.LruCacheTest | src/test/java/LFULRUTest.java:37-64 | `EvictedCacheLRU(10)` evicts 3, 2, 1 |
| Scenarios.PutKeys | src/test/java/pw/komarov/caches/test/EvictedMapTest.java:21-22 | putting keys 1..hi grows the map by one per key above the old keys until it is full, and never below its start size |
| Scenarios.CapacityTest | src/test/java/pw/komarov/caches/test/EvictedMapTest.java:15-36 | sizes 15, 30, 15 and capacities 15, 30, 15 across the fill, the raise and the trim |
| Scenarios.ReplaceValueTest | src/test/java/pw/komarov/caches/test/EvictedMapTest.java:50-65 | an overwrite in a map with room keeps size 3 and changes only that key's value |
| Scenarios.EvictTest | src/test/java/pw/komarov/caches/test/EvictedMapTest.java:182-186 | one put into an empty map of capacity one leaves exactly the association 5 to "String value for five", the map the test renders as `{5=String value for five}` |
| Scenarios.SecondKeyEvictsFirst | src/main/java/pw/komarov/caches/EvictedMap.java:148-160 | going beyond `evictTest`: after that single association, a put of a second key evicts key 5, the only candidate, and leaves only the new association |
| Scenarios.PutIntoSingleton | src/main/java/pw/komarov/caches/EvictedMap.java:156-159 | a put into a full map of capacity one evicts its only entry and leaves only the put key |
| Scenarios.OverwriteOwnVictim | src/main/java/pw/komarov/caches/EvictedMap.java:148-160 | overwriting in a full map of capacity one re-stores the key with count 2 and reports no previous value |
| Scenarios.OverwriteBusier | src/main/java/pw/komarov/caches/EvictedMap.java:148-160 | overwriting the busier of two keys in a full LFU map of capacity two evicts the other key and returns the old value |
| Scenarios.OverwriteShrinks | src/main/java/pw/komarov/caches/EvictedMap.java:148-160 | that overwrite leaves a single entry, so the map shrinks |
| Scenarios.NullKeyAndValue | src/test/java/pw/komarov/caches/test/EvictedMapTest.java:216-223 | the third put evicts one of the two tied entries; two remain exactly when the null key was its own victim; `get(null)` returns the null value either way |
| CountLoop.Increment | src/main/java/pw/komarov/caches/EvictedMapInterface.java:7 | Java's `i++` on an int: one more, except that the largest int wraps to the smallest |
| CountLoop.RunsAsWritten | src/main/java/pw/komarov/caches/EvictedMapInterface.java:7-9 | the number of body runs of the loop as written, with 32-bit `i++`, cut off by fuel: never more than the fuel, none once `i` exceeds `count`, at least one while `i <= count` and fuel remains |
| CountLoop.MaxCountNeverExits | src/main/java/pw/komarov/caches/EvictedMapInterface.java:7-9 | with count equal to Integer.MAX_VALUE the written loop runs every iteration any fuel allows, so it never exits |
| CountLoop.BelowMaxRunsCount | src/main/java/pw/komarov/caches/EvictedMapInterface.java:7-9 | for any count below Integer.MAX_VALUE the written loop runs exactly max(count, 0) times from 1 |

## Left out

- `equals`, `hashCode` and `toString` of the map and of `CacheEntry`: object identity and rendering, not eviction logic. `Scenarios.EvictTest` states the map view that `evictTest` renders, not the string.
- `entrySet` and the inner `Node` class: `entrySet` builds a fresh set of fresh `Node` pairs, a snapshot of the associations that `Contents` gives.
- `values`: a live view of the store's values; `Contents(m).Values` gives the same values at any moment, but the model has no live views.
- `isEmpty`, `size` and `getCapacity`: plain reads, modelled as the `Size` helper and the `capacity` field.
- The `HashMap` rebuild in `setCapacity` (EvictedMap.java:88-90): it keeps the same associations and metadata. It can change the table size and with it the `HashMap` iteration order, which `toString`, key iteration and the choice among tied victims follow. The model already leaves that order open.
- `System.currentTimeMillis` and the tests' `Thread.sleep`: the clock is an explicit `now`. The constructor reads the clock twice (creation time, then first access); the model uses one reading for both.
- `getObject`: the comparator sees only the metadata, not the wrapped key. No comparator in the core reads the key. The tests' `suppress` comparator does, and it is not modelled.
- The `EvictionComparator` interface: it is the function type `Comparator`.
- Java's `get`, `put` and `remove` return null both for a miss and for a stored null value. The model returns `Option`, so the two cases stay apart.
- `getEntry`'s linear scan by `equals` is a map lookup. Keys are compared by Dafny equality, not by a user-defined `equals`.
- Engine.PutAll: when the pairs do not fit in the free capacity, some puts meet a full map and evict victims that depend on the metadata at that moment. The contract then states only validity, capacity and comparator kept, and the last pair's association; it gives no closed form for the map view.
- Engine.Put: `accessedCount` is an unbounded integer, so the 32-bit overflow after 2^31 - 1 accesses is not modelled.
- Policies.LfuCompare: the subtraction of two counts cannot wrap, because counts are unbounded. In Java it wraps only for counts more than 2^31 - 1 apart, which the count overflow above would need first.
- Lombok and its generated getters: the getters are datatype fields.
- Concurrency: the library is single-threaded and unsynchronised; the model is sequential.

## Findings

| source | as written | input that shows it | evidently intended | confidence | as-written member | corrected member |
|---|---|---|---|---|---|---|
| src/main/java/pw/komarov/caches/EvictedMapInterface.java:7 | `for (int i = 1; i <= count; i++)` counts with a 32-bit int, so `i <= count` holds for every int when count is Integer.MAX_VALUE and `i++` wraps to Integer.MIN_VALUE | `evict(2147483647)` on any map: the loop never exits, and once the map is empty every further `evict()` is a no-op | evict min(count, size) entries and return | not executed; high | CountLoop.MaxCountNeverExits | Engine.EvictCount |
