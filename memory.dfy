/** The growth policy of include/memory.h. */
module Memory {

  /** GROW_CAPACITY: 8 below eight, otherwise double. */
  function GrowCapacity(capacity: nat): (r: nat)
    ensures r > capacity && r >= 8
  {
    if capacity < 8 then 8 else capacity * 2
  }

  lemma GrowSmall(capacity: nat)
    requires capacity < 8
    ensures GrowCapacity(capacity) == 8
  {
  }

  lemma GrowDoubles(capacity: nat)
    requires capacity >= 8
    ensures GrowCapacity(capacity) == 2 * capacity
  {
  }

  function Pow2(n: nat): (r: nat)
    ensures r >= 1
  {
    if n == 0 then 1 else 2 * Pow2(n - 1)
  }

  /** The capacity after `n` growth steps from capacity 0. */
  function GrownFromZero(n: nat): nat
  {
    if n == 0 then 0 else GrowCapacity(GrownFromZero(n - 1))
  }

  /** Repeated growth from an empty array gives 8, 16, 32, ... */
  lemma {:induction false} GrowthSequence(n: nat)
    ensures GrownFromZero(n + 1) == 8 * Pow2(n)
  {
    if n > 0 {
      GrowthSequence(n - 1);
    }
  }
}
