/** The ring buffer as one thread sees it when the other is at rest. `SpscProtocol` treats the two
    threads running at once. */
module Spsc {
  import opened Types
  import opened RingMath

  class SpscQueue<T(0)> {
    const capacity: nat
    const storage: array<T>
    var head: Word64
    var tail: Word64
    /** Everything ever pushed, and how much of it was popped. */
    ghost var pushed: seq<T>
    ghost var popped: nat

    ghost predicate Valid()
      reads this, storage
    {
      && IsCapacity(capacity) && storage.Length == capacity
      && popped <= |pushed| < popped + capacity
      && head == popped % capacity && tail == |pushed| % capacity
      && forall i :: popped <= i < |pushed| ==> storage[i % capacity] == pushed[i]
    }

    ghost function Items(): (items: seq<T>)
      reads this, storage
      requires Valid()
      ensures |items| < capacity
    {
      pushed[popped..]
    }

    constructor (capacity: nat)
      requires IsCapacity(capacity)
      ensures Valid() && this.capacity == capacity && pushed == [] && popped == 0 && fresh(storage)
    {
      this.capacity := capacity;
      storage := new T[capacity];
      head, tail := 0, 0;
      pushed, popped := [], 0;
    }

    /** What a push and a pop change: the indices, the history, and one cell. */
    method TryPush(item: T) returns (ok: bool)
      requires Valid()
      modifies this`tail, this`pushed, storage
      ensures Valid()
      ensures ok == (|old(Items())| < capacity - 1)
      ensures pushed == if ok then old(pushed) + [item] else old(pushed)
      ensures Items() == if ok then old(Items()) + [item] else old(Items())
    {
      var t := tail;
      MaskIsMod(capacity, t + 1);
      NextIndex(capacity, |pushed|);
      WholeRing(capacity, popped, |pushed| + 1);
      var nextTail := And(t + 1, capacity - 1);
      if nextTail == head {
        return false;
      }
      OthersKept(capacity, popped, |pushed|);
      storage[t] := item;
      tail := nextTail;
      pushed := pushed + [item];
      ok := true;
    }

    method TryPop() returns (item: Option<T>)
      requires Valid()
      modifies this`head, this`popped
      ensures Valid()
      ensures item == if old(Items()) == [] then None else Some(old(Items())[0])
      ensures popped == old(popped) + (if item.Some? then 1 else 0)
      ensures Items() == if item.Some? then old(Items())[1..] else []
    {
      var h := head;
      SameCell(capacity, popped, |pushed|);
      if h == tail {
        return None;
      }
      item := Some(storage[h]);
      MaskIsMod(capacity, h + 1);
      NextIndex(capacity, popped);
      head := And(h + 1, capacity - 1);
      popped := popped + 1;
    }

    /** The number of items, although the difference of the indices may wrap around the machine word. */
    method Size() returns (n: nat)
      requires Valid()
      ensures n == |Items()| <= capacity - 1
    {
      SizeIsDifference(capacity, popped, |pushed|);
      n := And(Wrap64(Wrap64(tail - head) + capacity), capacity - 1);
    }

    method IsEmpty() returns (empty: bool)
      requires Valid()
      ensures empty <==> Items() == []
    {
      SameCell(capacity, popped, |pushed|);
      empty := head == tail;
    }

    /** A queue of capacity `c` is full at `c - 1` items, and never holds more. */
    method IsFull() returns (full: bool)
      requires Valid()
      ensures full <==> |Items()| == capacity - 1
    {
      MaskIsMod(capacity, tail + 1);
      NextIndex(capacity, |pushed|);
      WholeRing(capacity, popped, |pushed| + 1);
      full := And(tail + 1, capacity - 1) == head;
    }
  }

  /** The cell of a new item is the cell of no item still queued. */
  lemma OthersKept(c: nat, from: nat, to: nat)
    requires c > 0 && from <= to < from + c
    ensures forall i :: from <= i < to ==> i % c != to % c
  {
    forall i | from <= i < to
      ensures i % c != to % c
    {
      SameCell(c, i, to);
    }
  }
}
