/** The fixed pool of include/order_book/pool_allocator.hpp. A pointer is the number of a slot;
    a slot is the source's union: either a link of the free list or a live object. */
module Pool {

  const NIL: int := -1

  datatype Slot<+T> = Free(nextFree: int) | Live(value: T)

  // ---------------------------------------------------------------- lists of slots

  function First(c: seq<int>): int {
    if c == [] then NIL else c[0]
  }

  function Last(c: seq<int>): int {
    if c == [] then NIL else c[|c| - 1]
  }

  function Next(c: seq<int>, k: int): int {
    if 0 <= k < |c| - 1 then c[k + 1] else NIL
  }

  function Prev(c: seq<int>, k: int): int {
    if 0 < k <= |c| then c[k - 1] else NIL
  }

  ghost predicate Distinct(c: seq<int>) {
    forall i, j :: 0 <= i < j < |c| ==> c[i] != c[j]
  }

  /** The free list starts at `head`, visits `free` in order, and misses no free slot. */
  ghost predicate FreeListOk<T>(store: seq<Slot<T>>, head: int, free: seq<int>) {
    && head == First(free)
    && Distinct(free)
    && (forall k :: 0 <= k < |free| ==> 0 <= free[k] < |store| && store[free[k]] == Free(Next(free, k)))
    && (forall i :: 0 <= i < |store| && store[i].Free? ==> i in free)
  }

  lemma AcquireKeepsFreeList<T>(store: seq<Slot<T>>, free: seq<int>, x: T)
    requires FreeListOk(store, First(free), free) && free != []
    ensures FreeListOk(store[free[0] := Live(x)], First(free[1..]), free[1..])
  {
  }

  lemma ReleaseKeepsFreeList<T>(store: seq<Slot<T>>, free: seq<int>, p: int)
    requires FreeListOk(store, First(free), free) && 0 <= p < |store| && store[p].Live?
    ensures FreeListOk(store[p := Free(First(free))], p, [p] + free)
  {
  }

  /** The first free slot already holds the link that releasing it again would write. */
  lemma HeadSlot<T>(store: seq<Slot<T>>, head: int, free: seq<int>)
    requires FreeListOk(store, head, free) && free != []
    ensures 0 <= free[0] < |store| && store[free[0]] == Free(First(free[1..]))
  {
  }

  lemma ThreadedIsFreeList<T>(store: seq<Slot<T>>, free: seq<int>)
    requires |store| >= 1 && free == seq(|store|, i => i)
    requires forall k :: 0 <= k < |store| ==> store[k] == Free(if k < |store| - 1 then k + 1 else NIL)
    ensures FreeListOk(store, 0, free)
  {
    forall i | 0 <= i < |store|
      ensures i in free
    {
      assert free[i] == i;
    }
  }

  class ObjectPool<T> {
    const storage: array<Slot<T>>
    var freeHead: int
    ghost var free: seq<int>

    ghost function Store(): (s: seq<Slot<T>>)
      reads storage
      ensures |s| == storage.Length
    {
      storage[..]
    }

    ghost predicate Valid()
      reads this, storage
    {
      FreeListOk(Store(), freeHead, free)
    }

    constructor (capacity: nat)
      requires capacity >= 1
      ensures Valid() && fresh(storage) && storage.Length == capacity
      ensures free == seq(capacity, i => i)
      ensures forall i :: 0 <= i < capacity ==> Store()[i].Free?
    {
      storage := new Slot<T>[capacity](_ => Free(NIL));
      freeHead := 0;
      free := seq(capacity, i => i);
      new;
      var i := 0;
      while i + 1 < capacity
        invariant 0 <= i <= capacity - 1
        invariant freeHead == 0 && free == seq(capacity, k => k)
        invariant forall k :: 0 <= k < capacity ==> storage[k] == Free(if k < i then k + 1 else NIL)
      {
        storage[i] := Free(i + 1);
        i := i + 1;
      }
      storage[capacity - 1] := Free(NIL);
      ThreadedIsFreeList(Store(), free);
    }

    /** Construct `x` in the first free slot; NIL when the pool is exhausted. */
    method Acquire(x: T) returns (p: int)
      requires Valid()
      modifies this, storage
      ensures Valid()
      ensures old(free) == [] ==> p == NIL && free == [] && Store() == old(Store())
      ensures old(free) != [] ==>
                && p == old(free)[0] && free == old(free)[1..]
                && 0 <= p < storage.Length && old(Store())[p].Free?
                && Store() == old(Store())[p := Live(x)]
    {
      if freeHead == NIL {
        return NIL;
      }
      AcquireKeepsFreeList(Store(), free, x);
      p := freeHead;
      freeHead := storage[p].nextFree;
      storage[p] := Live(x);
      free := free[1..];
      assert Store() == old(Store())[p := Live(x)];
    }

    method Release(p: int)
      requires Valid()
      requires p == NIL || (0 <= p < storage.Length && Store()[p].Live?)
      modifies this, storage
      ensures Valid()
      ensures p == NIL ==> free == old(free) && Store() == old(Store())
      ensures p != NIL ==> free == [p] + old(free) && Store() == old(Store())[p := Free(First(old(free)))]
    {
      if p == NIL {
        return;
      }
      ReleaseKeepsFreeList(Store(), free, p);
      storage[p] := Free(freeHead);
      freeHead := p;
      free := [p] + free;
      assert Store() == old(Store())[p := Free(First(old(free)))];
    }

    function Get(p: int): T
      requires 0 <= p < storage.Length && storage[p].Live?
      reads storage
    {
      storage[p].value
    }

    /** A write through a pointer to a live object. */
    method Put(p: int, x: T)
      requires Valid() && 0 <= p < storage.Length && Store()[p].Live?
      modifies storage
      ensures Valid() && Store() == old(Store())[p := Live(x)]
    {
      storage[p] := Live(x);
      assert Store() == old(Store())[p := Live(x)];
    }

    function Capacity(): nat
      ensures Capacity() == storage.Length
    {
      storage.Length
    }
  }

  /** A released slot is handed out again first, and giving back what was just acquired
      restores the pool exactly, link for link. */
  method AcquireThenRelease<T>(pool: ObjectPool<T>, x: T)
    requires pool.Valid()
    modifies pool, pool.storage
    ensures pool.Valid() && pool.free == old(pool.free) && pool.freeHead == old(pool.freeHead)
    ensures pool.Store() == old(pool.Store())
  {
    var p := pool.Acquire(x);
    pool.Release(p);
  }
}
