// The growth policy shared by every growable buffer of the interpreter
// (grow_capacity in src/memory.hh): chunks, value arrays, hash tables
// and the collector's gray stack.
module Capacity {

  /** Smallest non-empty allocation; below it the buffer jumps straight to 8. */
  const MinCapacity: nat := 8

  function GrowCapacity(capacity: nat): (r: nat)
    ensures capacity < MinCapacity ==> r == MinCapacity
    ensures capacity >= MinCapacity ==> r == 2 * capacity
  {
    if capacity < MinCapacity then MinCapacity else capacity * 2
  }

  /** Growth always makes room for at least one more element. */
  lemma GrowIsLarger(capacity: nat)
    ensures GrowCapacity(capacity) >= MinCapacity
    ensures GrowCapacity(capacity) > capacity
  {
  }

  lemma GrowIsMonotone(a: nat, b: nat)
    requires a <= b
    ensures GrowCapacity(a) <= GrowCapacity(b)
  {
  }

  ghost predicate IsPowerOfTwo(n: nat)
    decreases n
  {
    if n == 1 then true
    else if n == 0 || n % 2 == 1 then false
    else IsPowerOfTwo(n / 2)
  }

  /** The capacity reached after k growth steps starting from an empty buffer. */
  function GrownFromEmpty(k: nat): (c: nat)
  {
    if k == 0 then 0 else GrowCapacity(GrownFromEmpty(k - 1))
  }

  lemma {:induction false} DoublingKeepsPowerOfTwo(n: nat)
    requires IsPowerOfTwo(n)
    ensures IsPowerOfTwo(2 * n)
  {
    assert (2 * n) / 2 == n;
  }

  /** Every non-empty capacity reached from 0 is a power of two of at
      least 8, which is what the probe mask `hash & (capacity - 1)` of the
      hash table needs. */
  lemma {:induction false} GrownFromEmptyIsPowerOfTwo(k: nat)
    requires k > 0
    ensures GrownFromEmpty(k) >= MinCapacity
    ensures IsPowerOfTwo(GrownFromEmpty(k))
  {
    if k == 1 {
      assert GrownFromEmpty(1) == 8;
      assert IsPowerOfTwo(8) by {
        assert IsPowerOfTwo(4) by { assert IsPowerOfTwo(2); }
      }
    } else {
      GrownFromEmptyIsPowerOfTwo(k - 1);
      DoublingKeepsPowerOfTwo(GrownFromEmpty(k - 1));
    }
  }

  /** Growth of a power-of-two capacity (or of 0) yields a power of two. */
  lemma GrowKeepsPowerOfTwo(capacity: nat)
    requires capacity == 0 || IsPowerOfTwo(capacity)
    ensures IsPowerOfTwo(GrowCapacity(capacity))
  {
    if capacity < MinCapacity {
      assert IsPowerOfTwo(8) by {
        assert IsPowerOfTwo(4) by { assert IsPowerOfTwo(2); }
      }
    } else {
      DoublingKeepsPowerOfTwo(capacity);
    }
  }

  /** GROW_ARRAY: a new buffer of the grown size holding the old contents
      (realloc keeps the first `count` elements). */
  method GrowArray<T(0)>(a: array<T>, count: nat, newCapacity: nat) returns (b: array<T>)
    requires count <= a.Length && count <= newCapacity
    ensures fresh(b) && b.Length == newCapacity
    ensures b[..count] == a[..count]
  {
    b := new T[newCapacity];
    var i := 0;
    while i < count
      invariant 0 <= i <= count
      invariant forall k :: 0 <= k < i ==> b[k] == a[k]
    {
      b[i] := a[i];
      i := i + 1;
    }
  }
}
