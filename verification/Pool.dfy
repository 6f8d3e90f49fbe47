/** The slab allocator: a fixed array of slots and a stack of the free ones. */
module Pool {
  import opened Types

  /** The free part of the stack names distinct slots of the pool. */
  ghost predicate StackOk(free: seq<nat>, capacity: nat) {
    && (forall i :: 0 <= i < |free| ==> free[i] < capacity)
    && (forall i, j :: 0 <= i < j < |free| ==> free[i] != free[j])
  }

  ghost function Live(free: seq<nat>, capacity: nat): set<nat> {
    set x | x in AllSlots(capacity) && x !in free
  }

  /** Live and free slots partition the pool, so counting one counts the other. */
  lemma {:induction false} LiveAndFree(free: seq<nat>, capacity: nat)
    requires StackOk(free, capacity)
    ensures |free| + |Live(free, capacity)| == capacity
    ensures |free| <= capacity
  {
    if free == [] {
      assert Live(free, capacity) == AllSlots(capacity);
    } else {
      var top, below := free[|free| - 1], free[..|free| - 1];
      assert free == below + [top];
      LiveAndFree(below, capacity);
      assert Live(below, capacity) == Live(free, capacity) + {top};
    }
  }

  /** Taking the top slot off the free stack makes it live. */
  lemma TopGoesLive(free: seq<nat>, capacity: nat)
    requires StackOk(free, capacity) && free != []
    ensures var top, below := free[|free| - 1], free[..|free| - 1];
            && StackOk(below, capacity) && top < capacity && top !in Live(free, capacity)
            && Live(below, capacity) == Live(free, capacity) + {top}
  {
    var top, below := free[|free| - 1], free[..|free| - 1];
    assert free == below + [top];
  }

  class MemoryPool<T(0)> {
    const capacity: nat
    const slots: array<T>
    const freeStack: array<nat>
    var freeTop: nat

    ghost predicate Valid()
      reads this, freeStack
    {
      && slots.Length == freeStack.Length == capacity
      && (slots as object) != freeStack
      && freeTop <= capacity
      && StackOk(freeStack[..freeTop], capacity)
    }

    ghost function Free(): seq<nat>
      requires Valid()
      reads this, freeStack
    {
      freeStack[..freeTop]
    }

    constructor (capacity: nat)
      requires capacity > 0
      ensures Valid() && this.capacity == capacity && fresh(slots) && fresh(freeStack)
      ensures |Free()| == capacity && forall i :: 0 <= i < capacity ==> Free()[i] == capacity - 1 - i
    {
      this.capacity := capacity;
      slots := new T[capacity];
      freeStack := new nat[capacity];
      freeTop := 0;
      new;
      var i := 0;
      while i < capacity
        invariant 0 <= i <= capacity
        invariant forall k :: 0 <= k < i ==> freeStack[k] == capacity - 1 - k
      {
        freeStack[i] := capacity - 1 - i;
        i := i + 1;
      }
      freeTop := capacity;
    }

    /** Hands out the top free slot; fails exactly when every slot is live. */
    method Acquire() returns (p: int)
      requires Valid()
      modifies this`freeTop
      ensures Valid()
      ensures p == NULL <==> |old(Live(Free(), capacity))| == capacity
      ensures p == NULL ==> Free() == old(Free()) == []
      ensures p != NULL ==>
                && 0 <= p < capacity && p !in old(Live(Free(), capacity))
                && old(Free()) == Free() + [p]
                && Live(Free(), capacity) == old(Live(Free(), capacity)) + {p}
    {
      hide StackOk, Live;
      LiveAndFree(Free(), capacity);
      if freeTop == 0 {
        return NULL;
      }
      ghost var was := Free();
      TopGoesLive(was, capacity);
      freeTop := freeTop - 1;
      p := freeStack[freeTop];
      assert was[..|was| - 1] == freeStack[..freeTop];
    }

    /** Takes back a live slot. The stack cannot overflow, because a live slot is missing from it. */
    method Release(p: nat)
      requires Valid() && p in Live(Free(), capacity)
      modifies this`freeTop, freeStack
      ensures Valid() && Free() == old(Free()) + [p]
      ensures Live(Free(), capacity) == old(Live(Free(), capacity)) - {p}
    {
      LiveAndFree(Free(), capacity);
      assert |Live(Free(), capacity) - {p}| == |Live(Free(), capacity)| - 1;
      assert freeTop < capacity;
      freeStack[freeTop] := p;
      freeTop := freeTop + 1;
      assert Free() == old(Free()) + [p];
    }

    method Construct(value: T) returns (p: int)
      requires Valid()
      modifies this`freeTop, slots
      ensures Valid()
      ensures p == NULL <==> old(Free()) == []
      ensures p == NULL ==> Free() == old(Free()) && slots[..] == old(slots[..])
      ensures p != NULL ==> 0 <= p < capacity && old(Free()) == Free() + [p] && slots[..] == old(slots[..])[p := value]
    {
      p := Acquire();
      if p != NULL {
        slots[p] := value;
      }
    }

    /** The destructor is trivial: the slot's bytes stay as they are. */
    method Destroy(p: nat)
      requires Valid() && p in Live(Free(), capacity)
      modifies this`freeTop, freeStack
      ensures Valid() && Free() == old(Free()) + [p]
    {
      Release(p);
    }

    method Available() returns (n: nat)
      requires Valid()
      ensures n == capacity - |Live(Free(), capacity)|
    {
      LiveAndFree(Free(), capacity);
      n := freeTop;
    }
  }
}
