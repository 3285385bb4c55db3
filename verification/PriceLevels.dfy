/** The intrusive queue of include/order_book/price_level.hpp. A level is a value held in the
    side's vector; its methods write the links of the orders in the pool and give back the
    updated level. */
module PriceLevels {
  import opened Types
  import opened Pool
  import opened Chains

  /** `o` has been linked in behind `tail`; no other slot has been written. */
  ghost predicate Pushed(s: Store, s': Store, tail: int, o: int) {
    && |s'| == |s|
    && Holds(s', o, At(s, o).(prev := tail, next := NIL))
    && (tail != NIL ==> Holds(s', tail, At(s, tail).(next := o)))
    && forall i :: 0 <= i < |s| && i != o && i != tail ==> s'[i] == s[i]
  }

  lemma PushedIsLocal(s: Store, s': Store, side: Side, price: Price, tail: int, o: int)
    requires Pushed(s, s', tail, o) && IsLive(s, o) && (tail == NIL || IsLive(s, tail))
    requires At(s, o).side == side && At(s, o).price == price
    requires tail == NIL || (At(s, tail).side == side && At(s, tail).price == price && tail != o)
    ensures TouchesOnly(s, s', side, price) && SamePayload(s, s')
  {
  }

  lemma PushedIsLinked(s: Store, s': Store, side: Side, price: Price, c: seq<int>, o: int)
    requires ChainOk(s, side, price, c) && Pushed(s, s', Last(c), o) && o !in c
    ensures LinkedBehind(s, s', c, o)
  {
    AllLinked(s, side, price, c);
    forall i | 0 <= i < |c| - 1
      ensures Holds(s', c[i], At(s, c[i]))
    {
      assert c[i] != Last(c) && c[i] in c;
    }
  }

  method PushBack(pool: ObjectPool<Order>, lvl: PriceLevel, o: int, ghost side: Side, ghost c: seq<int>)
      returns (lvl': PriceLevel)
    requires pool.Valid() && LevelOk(pool.Store(), side, lvl, c)
    requires IsLive(pool.Store(), o) && o !in c
    requires At(pool.Store(), o).side == side && At(pool.Store(), o).price == lvl.price && At(pool.Store(), o).qty > 0
    modifies pool.storage
    ensures pool.Valid() && lvl'.price == lvl.price
    ensures LevelOk(pool.Store(), side, lvl', c + [o])
    ensures Entries(pool.Store(), c + [o]) == old(Entries(pool.Store(), c)) + [old(EntryAt(pool.Store(), o))]
    ensures TouchesOnly(old(pool.Store()), pool.Store(), side, lvl.price)
    ensures SamePayload(old(pool.Store()), pool.Store())
  {
    hide FreeListOk;
    ghost var s0 := pool.Store();
    EndsLinked(s0, side, lvl, c);
    lvl' := WriteBack(pool, lvl, o);
    PushedIsLocal(s0, pool.Store(), side, lvl.price, lvl.tail, o);
    PushedIsLinked(s0, pool.Store(), side, lvl.price, c, o);
    PushKeepsLevel(s0, pool.Store(), side, lvl, lvl', c, o);
  }

  /** The assignments of push_back, in the source's order. */
  method WriteBack(pool: ObjectPool<Order>, lvl: PriceLevel, o: int) returns (lvl': PriceLevel)
    requires pool.Valid() && IsLive(pool.Store(), o)
    requires lvl.tail == NIL || (IsLive(pool.Store(), lvl.tail) && lvl.tail != o)
    modifies pool.storage
    ensures pool.Valid() && Pushed(old(pool.Store()), pool.Store(), lvl.tail, o)
    ensures lvl' == PriceLevel(lvl.price, (lvl.totalQty + old(At(pool.Store(), o)).qty) % TWO64,
                               if lvl.tail == NIL then o else lvl.head, o)
  {
    hide FreeListOk;
    pool.Put(o, pool.Get(o).(prev := lvl.tail));
    pool.Put(o, pool.Get(o).(next := NIL));
    lvl' := lvl;
    if lvl'.tail != NIL {
      pool.Put(lvl'.tail, pool.Get(lvl'.tail).(next := o));
    } else {
      lvl' := lvl'.(head := o);
    }
    lvl' := lvl'.(tail := o);
    lvl' := lvl'.(totalQty := (lvl'.totalQty + pool.Get(o).qty) % TWO64);
  }

  /** The neighbours of `o` have been joined and `o` has no links; no other slot has been
      written. */
  ghost predicate Joined(s: Store, s': Store, prev: int, o: int, next: int) {
    && |s'| == |s|
    && (prev != NIL ==> Holds(s', prev, At(s, prev).(next := next)))
    && (next != NIL ==> Holds(s', next, At(s, next).(prev := prev)))
    && Holds(s', o, Payload(At(s, o)))
    && forall i :: 0 <= i < |s| && i != prev && i != o && i != next ==> s'[i] == s[i]
  }

  lemma JoinedIsLocal(s: Store, s': Store, side: Side, price: Price, prev: int, o: int, next: int)
    requires Joined(s, s', prev, o, next) && IsLive(s, o)
    requires prev == NIL || (IsLive(s, prev) && At(s, prev).side == side && At(s, prev).price == price)
    requires next == NIL || (IsLive(s, next) && At(s, next).side == side && At(s, next).price == price)
    requires At(s, o).side == side && At(s, o).price == price
    ensures TouchesOnly(s, s', side, price) && SamePayload(s, s')
  {
  }

  lemma JoinedIsUnlinked(s: Store, s': Store, side: Side, price: Price, c: seq<int>, k: nat)
    requires ChainOk(s, side, price, c) && k < |c|
    requires Joined(s, s', Prev(c, k), c[k], Next(c, k))
    ensures Unlinked(s, s', c, k)
  {
    AllLinked(s, side, price, c);
  }

  lemma Neighbours(s: Store, side: Side, price: Price, c: seq<int>, k: nat)
    requires ChainOk(s, side, price, c) && k < |c|
    ensures IsLive(s, c[k]) && At(s, c[k]).side == side && At(s, c[k]).price == price
    ensures At(s, c[k]).prev == Prev(c, k) && At(s, c[k]).next == Next(c, k)
    ensures k == 0 <==> Prev(c, k) == NIL
    ensures k + 1 == |c| <==> Next(c, k) == NIL
    ensures k > 0 ==> Prev(c, k) != c[k] && IsLive(s, Prev(c, k))
                      && At(s, Prev(c, k)).side == side && At(s, Prev(c, k)).price == price
    ensures k + 1 < |c| ==> Next(c, k) != c[k] && IsLive(s, Next(c, k))
                            && At(s, Next(c, k)).side == side && At(s, Next(c, k)).price == price
    ensures k > 0 && k + 1 < |c| ==> Prev(c, k) != Next(c, k)
  {
    AllLinked(s, side, price, c);
  }

  /** Unlink the order in slot `o`, the `k`-th of the queue. */
  method Unlink(pool: ObjectPool<Order>, lvl: PriceLevel, o: int, ghost side: Side, ghost c: seq<int>, ghost k: nat)
      returns (lvl': PriceLevel)
    requires pool.Valid() && LevelOk(pool.Store(), side, lvl, c)
    requires k < |c| && c[k] == o
    modifies pool.storage
    ensures pool.Valid() && LevelOk(pool.Store(), side, lvl', Remove(c, k))
    ensures lvl' == PriceLevel(lvl.price, (lvl.totalQty - old(At(pool.Store(), o)).qty) % TWO64,
                               if k == 0 then Next(c, k) else lvl.head,
                               if k + 1 == |c| then Prev(c, k) else lvl.tail)
    ensures Unlinked(old(pool.Store()), pool.Store(), c, k)
    ensures TouchesOnly(old(pool.Store()), pool.Store(), side, lvl.price)
    ensures SamePayload(old(pool.Store()), pool.Store())
  {
    hide FreeListOk;
    ghost var s0 := pool.Store();
    Neighbours(s0, side, lvl.price, c, k);
    lvl' := JoinNeighbours(pool, lvl, o);
    JoinedIsLocal(s0, pool.Store(), side, lvl.price, Prev(c, k), o, Next(c, k));
    JoinedIsUnlinked(s0, pool.Store(), side, lvl.price, c, k);
    UnlinkKeepsLevel(s0, pool.Store(), side, lvl, lvl', c, k);
  }

  /** The assignments of unlink, in the source's order. */
  method JoinNeighbours(pool: ObjectPool<Order>, lvl: PriceLevel, o: int) returns (lvl': PriceLevel)
    requires pool.Valid() && IsLive(pool.Store(), o)
    requires var prev, next := At(pool.Store(), o).prev, At(pool.Store(), o).next;
             && (prev == NIL || (IsLive(pool.Store(), prev) && prev != o && prev != next))
             && (next == NIL || (IsLive(pool.Store(), next) && next != o))
    modifies pool.storage
    ensures pool.Valid()
    ensures var x := old(At(pool.Store(), o));
            && Joined(old(pool.Store()), pool.Store(), x.prev, o, x.next)
            && lvl' == PriceLevel(lvl.price, (lvl.totalQty - x.qty) % TWO64,
                                  if x.prev == NIL then x.next else lvl.head,
                                  if x.next == NIL then x.prev else lvl.tail)
  {
    hide FreeListOk;
    lvl' := lvl;
    if pool.Get(o).prev != NIL {
      pool.Put(pool.Get(o).prev, pool.Get(pool.Get(o).prev).(next := pool.Get(o).next));
    } else {
      lvl' := lvl'.(head := pool.Get(o).next);
    }
    if pool.Get(o).next != NIL {
      pool.Put(pool.Get(o).next, pool.Get(pool.Get(o).next).(prev := pool.Get(o).prev));
    } else {
      lvl' := lvl'.(tail := pool.Get(o).prev);
    }
    lvl' := lvl'.(totalQty := (lvl'.totalQty - pool.Get(o).qty) % TWO64);
    pool.Put(o, pool.Get(o).(prev := NIL, next := NIL));
  }

  lemma AllLinked(store: Store, side: Side, price: Price, c: seq<int>)
    requires ChainOk(store, side, price, c)
    ensures forall k :: 0 <= k < |c| ==>
              && IsLive(store, c[k]) && At(store, c[k]).side == side && At(store, c[k]).price == price
              && At(store, c[k]).prev == Prev(c, k) && At(store, c[k]).next == Next(c, k)
  {
    forall k | 0 <= k < |c|
      ensures IsLive(store, c[k]) && At(store, c[k]).side == side && At(store, c[k]).price == price
      ensures At(store, c[k]).prev == Prev(c, k) && At(store, c[k]).next == Next(c, k)
    {
      assert Linked(store, side, price, c, k);
    }
  }

  lemma EndsLinked(store: Store, side: Side, lvl: PriceLevel, c: seq<int>)
    requires LevelOk(store, side, lvl, c)
    ensures c == [] <==> lvl.tail == NIL
    ensures c == [] <==> lvl.head == NIL
    ensures lvl.tail == Last(c) && (c != [] ==> Last(c) in c)
    ensures c != [] ==>
              IsLive(store, lvl.tail) && At(store, lvl.tail).side == side && At(store, lvl.tail).price == lvl.price
  {
    AllLinked(store, side, lvl.price, c);
  }
}
