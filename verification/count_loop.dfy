/** The counter of the default `evict(int count)` loop,
    `for (int i = 1; i <= count; i++)`, with Java's 32-bit `int` arithmetic.
    The engine model counts with an unbounded integer; this module shows
    where the two part ways. */
module CountLoop {
  const IntMin: int := -0x8000_0000
  const IntMax: int := 0x7fff_ffff

  type Int32 = x: int | IntMin <= x <= IntMax

  function Max(a: int, b: int): int {
    if a <= b then b else a
  }

  /** Java's `i++` on an `int`: the largest value wraps to the smallest. */
  function Increment(i: Int32): (r: Int32)
    ensures i < IntMax ==> r == i + 1
    ensures i == IntMax ==> r == IntMin
  {
    if i == IntMax then IntMin else i + 1
  }

  /** How many times the loop body runs from counter `i`, as the code is
      written, cut off after `fuel` iterations. */
  function RunsAsWritten(i: Int32, count: Int32, fuel: nat): (r: nat)
    ensures r <= fuel
    ensures i > count ==> r == 0
    ensures fuel > 0 && i <= count ==> r >= 1
    decreases fuel
  {
    if fuel == 0 || !(i <= count) then 0 else 1 + RunsAsWritten(Increment(i), count, fuel - 1)
  }

  /** `evict(Integer.MAX_VALUE)` never leaves its loop: whatever the fuel,
      every iteration allowed runs, because every `int` is at most `count`. */
  lemma {:induction false} MaxCountNeverExits(i: Int32, fuel: nat)
    ensures RunsAsWritten(i, IntMax, fuel) == fuel
    decreases fuel
  {
    if fuel > 0 {
      MaxCountNeverExits(Increment(i), fuel - 1);
    }
  }

  /** Below `Integer.MAX_VALUE` the written loop runs exactly `count` times
      from 1 (none for `count <= 0`), given enough fuel, which is what the
      engine model's unbounded counter does for every `count`. */
  lemma {:induction false} BelowMaxRunsCount(i: Int32, count: Int32, fuel: nat)
    requires 1 <= i && count < IntMax
    requires fuel >= count - i + 1
    ensures RunsAsWritten(i, count, fuel) == Max(count - i + 1, 0)
    decreases fuel
  {
    if fuel > 0 && i <= count {
      BelowMaxRunsCount(Increment(i), count, fuel - 1);
    }
  }
}
