// The growable array of constants (src/val_array.cc): a buffer of
// `capacity` values of which the first `count` are in use. A null
// `values` pointer is an array of length 0.
module ValArray {
  import opened Value
  import Capacity
  import Gc

  /** The object pointer each value holds, 0 for a value that is not an object. */
  function ObjPointers(vs: seq<Word>): (ps: seq<Word>)
    ensures |ps| == |vs|
    ensures forall i :: 0 <= i < |vs| ==> ps[i] == (if IsObj(vs[i]) then AsObj(vs[i]) else 0)
  {
    if vs == [] then []
    else [if IsObj(vs[0]) then AsObj(vs[0]) else 0] + ObjPointers(vs[1..])
  }

  class ValueArray {
    var values: array<Word>
    var count: nat
    var capacity: nat

    ghost predicate Valid()
      reads this
    {
      values.Length == capacity && count <= capacity
    }

    /** The values in use, in the order they were written. */
    ghost function Contents(): seq<Word>
      reads this, values
      requires Valid()
    {
      values[..count]
    }

    /** init: capacity and count 0, no buffer. */
    constructor ()
      ensures Valid() && count == 0 && capacity == 0 && Contents() == []
      ensures fresh(values)
    {
      values := new Word[0];
      count, capacity := 0, 0;
    }

    /** init on an existing array. */
    method Init()
      modifies this
      ensures Valid() && count == 0 && capacity == 0 && Contents() == []
    {
      values := new Word[0];
      count, capacity := 0, 0;
    }

    /** freeValueArray: release the buffer and return to the state of init. */
    method FreeValueArray()
      modifies this
      ensures Valid() && count == 0 && capacity == 0 && Contents() == []
    {
      Init();
    }

    /** writeValueArray: append one value, growing the buffer only when it is full. */
    method WriteValueArray(value: Word)
      requires Valid()
      modifies this, values
      ensures Valid()
      ensures Contents() == old(Contents()) + [value]
      ensures count == old(count) + 1
      ensures capacity == if old(capacity) < old(count) + 1 then Capacity.GrowCapacity(old(capacity)) else old(capacity)
      ensures values == old(values) || fresh(values)
    {
      if capacity < count + 1 {
        var oldCapacity := capacity;
        capacity := Capacity.GrowCapacity(oldCapacity);
        values := Capacity.GrowArray(values, count, capacity);
      }
      values[count] := value;
      count := count + 1;
    }

    /** markArray: mark the object referenced by each of the first `count`
        values, in order. */
    method MarkArray(gc: Gc.GC)
      requires Valid() && gc.Valid() && values != gc.grayStack
      requires forall i :: 0 <= i < count && IsObj(values[i]) ==> AsObj(values[i]) == 0 || AsObj(values[i]) in gc.objects
      modifies gc, gc.grayStack
      ensures gc.Valid()
      ensures gc.grayStack == old(gc.grayStack) || fresh(gc.grayStack)
      ensures gc.objects == old(gc.objects)
      ensures gc.marked == old(gc.marked) + Gc.NonNull(ObjPointers(Contents()))
      ensures Gc.PushedOnly(old(gc.gray), old(gc.marked), gc.gray, gc.marked)
    {
      ghost var ps := ObjPointers(values[..count]);
      ghost var g0, m0 := gc.gray, gc.marked;
      var i := 0;
      while i < count
        invariant 0 <= i <= count
        invariant gc.Valid() && gc.objects == old(gc.objects)
        invariant gc.grayStack == old(gc.grayStack) || fresh(gc.grayStack)
        invariant gc.marked == m0 + Gc.NonNull(ps[..i])
        invariant Gc.PushedOnly(g0, m0, gc.gray, gc.marked)
      {
        ghost var before, markedBefore := gc.gray, gc.marked;
        gc.MarkValue(values[i]);
        Gc.MarkAllStep(ps, i, m0, g0, markedBefore, before, gc.marked, gc.gray);
        i := i + 1;
      }
      assert ps[..i] == ps;
    }
  }
}
