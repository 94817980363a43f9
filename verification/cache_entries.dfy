/** Per-key usage bookkeeping of the engine (the nested `CacheEntry` class).
    The wrapped key itself is the key of the engine's store, so a
    `CacheEntry` here carries only the metadata the eviction policy reads.
    The wall clock is an explicit `now` argument. */
module CacheEntries {

  datatype CacheEntry = CacheEntry(accessedCount: int, accessedAt: int, createdAt: int)

  /** One recorded access: the count grows by one and the access time is `now`. */
  function IncreaseUsage(e: CacheEntry, now: int): (r: CacheEntry)
    ensures r.accessedCount == e.accessedCount + 1
    ensures r.accessedAt == now
    ensures r.createdAt == e.createdAt
  {
    e.(accessedCount := e.accessedCount + 1, accessedAt := now)
  }

  /** Construction stamps the creation time, starts the count at zero and then
      performs one access, so a fresh entry has been used exactly once. */
  function NewEntry(now: int): (r: CacheEntry)
    ensures r.accessedCount == 1
    ensures r.accessedAt == now && r.createdAt == now
  {
    IncreaseUsage(CacheEntry(0, 0, now), now)
  }

  /** The metadata after one access at each of the times in `nows`, in order. */
  function UsedAt(e: CacheEntry, nows: seq<int>): CacheEntry
    decreases |nows|
  {
    if |nows| == 0 then e else UsedAt(IncreaseUsage(e, nows[0]), nows[1..])
  }

  /** Every access adds exactly one to the count, the creation time never
      changes, and the last access time is the time of the last access. */
  lemma {:induction false} UsedAtCounts(e: CacheEntry, nows: seq<int>)
    ensures UsedAt(e, nows).accessedCount == e.accessedCount + |nows|
    ensures UsedAt(e, nows).createdAt == e.createdAt
    ensures |nows| > 0 ==> UsedAt(e, nows).accessedAt == nows[|nows| - 1]
    ensures |nows| == 0 ==> UsedAt(e, nows) == e
    decreases |nows|
  {
    if |nows| > 0 {
      UsedAtCounts(IncreaseUsage(e, nows[0]), nows[1..]);
    }
  }

  /** An entry created at `created` and then accessed at `nows` has been used
      `1 + |nows|` times and still carries its creation time. */
  lemma LifetimeUsage(created: int, nows: seq<int>)
    ensures UsedAt(NewEntry(created), nows).accessedCount == 1 + |nows|
    ensures UsedAt(NewEntry(created), nows).createdAt == created
    ensures UsedAt(NewEntry(created), nows).accessedCount >= 1
  {
    UsedAtCounts(NewEntry(created), nows);
  }
}
