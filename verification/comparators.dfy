/** The eviction policy: a comparator over two entries' metadata. A negative
    result means the first entry should be evicted before the second. */
module Comparators {
  import opened CacheEntries

  type Comparator = (CacheEntry, CacheEntry) -> int

  function Sign(x: int): int {
    if x < 0 then -1 else if x == 0 then 0 else 1
  }

  /** `a` ranks no better than `b`: it may be evicted before `b`. */
  predicate Le(cmp: Comparator, a: CacheEntry, b: CacheEntry) {
    cmp(a, b) <= 0
  }

  /** The sign rule of java.util.Comparator: swapping the arguments flips the sign. */
  ghost predicate SignAntisymmetric(cmp: Comparator) {
    forall a, b :: Sign(cmp(a, b)) == -Sign(cmp(b, a))
  }

  ghost predicate Transitive(cmp: Comparator) {
    forall a, b, c :: cmp(a, b) <= 0 && cmp(b, c) <= 0 ==> cmp(a, c) <= 0
  }

  /** A comparator that honours the Comparator contract; its `Le` is then a
      total preorder and an eviction minimum exists in every non-empty store. */
  ghost predicate TotalPreorder(cmp: Comparator) {
    SignAntisymmetric(cmp) && Transitive(cmp)
  }

  /** Under the contract, `Le` is reflexive and total. */
  lemma PreorderIsTotal(cmp: Comparator, a: CacheEntry, b: CacheEntry)
    requires TotalPreorder(cmp)
    ensures Le(cmp, a, a)
    ensures Le(cmp, a, b) || Le(cmp, b, a)
    ensures !Le(cmp, a, b) ==> cmp(b, a) < 0
  {
    assert Sign(cmp(a, a)) == -Sign(cmp(a, a));
    assert Sign(cmp(a, b)) == -Sign(cmp(b, a));
  }
}
