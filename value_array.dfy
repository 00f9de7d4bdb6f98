/**
 * The growable constant array of src/value.c.  The storage is a sequence
 * whose length is the allocated capacity; the first `count` slots hold the
 * values written so far.
 */
module ValueArrays {
  import opened Values
  import opened Memory

  class ValueArray {
    var values: seq<Value>
    var count: nat
    var capacity: nat

    ghost predicate Valid()
      reads this
    {
      count <= capacity && |values| == capacity
    }

    /** The values written so far, in order. */
    ghost function Contents(): seq<Value>
      reads this
      requires Valid()
    {
      values[..count]
    }

    /** A fresh array in the state initValueArray leaves it in. */
    constructor ()
      ensures Valid() && count == 0 && capacity == 0 && Contents() == []
    {
      values, count, capacity := [], 0, 0;
    }

    /** initValueArray: no storage, count 0, capacity 0. */
    method Init()
      modifies this
      ensures Valid() && count == 0 && capacity == 0 && Contents() == []
    {
      values, count, capacity := [], 0, 0;
    }

    /**
     * writeValueArray: grow when full, store at index `count`, bump `count`.
     * The source computes the new capacity from `count` rather than from
     * `capacity`; the growth branch is taken only when the two are equal.
     */
    method Write(value: Value)
      requires Valid()
      modifies this
      ensures Valid()
      ensures count == old(count) + 1
      ensures values[old(count)] == value
      ensures forall i :: 0 <= i < old(count) ==> values[i] == old(values[i])
      ensures Contents() == old(Contents()) + [value]
      ensures old(count) == old(capacity) ==> capacity == GrowCapacity(old(capacity))
      ensures old(count) < old(capacity) ==> capacity == old(capacity)
    {
      if capacity < count + 1 {
        var oldCapacity := count;
        capacity := GrowCapacity(oldCapacity);
        // GROW_ARRAY keeps the first `oldCapacity` slots; the new slots are
        // unspecified by realloc and filled here with NULL_VAL.
        values := values[..oldCapacity] + seq(capacity - oldCapacity, _ => NullValue);
      }
      values := values[count := value];
      count := count + 1;
    }

    /** freeValueArray: release the storage and reinitialise. */
    method Free()
      modifies this
      ensures Valid() && count == 0 && capacity == 0 && Contents() == []
    {
      Init();
    }
  }
}
