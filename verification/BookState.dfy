/** The whole-book invariant: pool slots, free list, both ladders and the id index agree. The
    lemmas say which edits keep it and what they do to the reference view. */
module BookState {
  import opened Types
  import opened Pool
  import opened PriceTime
  import opened Chains

  type Index = map<OrderId, int>

  /** The index is a bijection from ids onto the queued slots. */
  ghost predicate Indexed(store: Store, idx: Index, fa: seq<int>, fb: seq<int>) {
    && (forall id :: id in idx ==>
          IsLive(store, idx[id]) && At(store, idx[id]).id == id && (idx[id] in fa || idx[id] in fb))
    && (forall i :: i in fa || i in fb ==> At(store, i).id in idx && idx[At(store, i).id] == i)
  }

  /** `t` is the slot of the order being processed, NIL between calls. `spare` is the length
      of the free list: free slots, queued slots and `t` make up the pool. */
  ghost predicate BookOk(store: Store, spare: nat, idx: Index, own: Ladder, opp: Ladder, t: int) {
    && LadderOk(store, own) && LadderOk(store, opp) && own.side != opp.side
    && Indexed(store, idx, Flat(own.chains), Flat(opp.chains))
    && (forall i :: IsLive(store, i) && i != t ==> i in Flat(own.chains) || i in Flat(opp.chains))
    && t !in Flat(own.chains) && t !in Flat(opp.chains)
    && (t == NIL || IsLive(store, t))
    && spare + |idx| + (if t == NIL then 0 else 1) == |store|
    && |Flat(own.chains)| + |Flat(opp.chains)| == |idx|
  }

  lemma BookOkSymmetric(store: Store, spare: nat, idx: Index, own: Ladder, opp: Ladder, t: int)
    requires BookOk(store, spare, idx, own, opp, t)
    ensures BookOk(store, spare, idx, opp, own, t)
  {
  }

  lemma IndexedSame(store: Store, store': Store, idx: Index, fa: seq<int>, fb: seq<int>)
    requires Indexed(store, idx, fa, fb)
    requires forall i :: i in fa || i in fb ==> IsLive(store', i) && At(store', i).id == At(store, i).id
    ensures Indexed(store', idx, fa, fb)
  {
  }

  // ---------------------------------------------------------------- edits away from the queues

  /** Acquiring, writing or releasing the slot in hand does not disturb the queues. */
  lemma OffBookEdit(store: Store, store': Store, spare: nat, spare': nat, idx: Index,
                    own: Ladder, opp: Ladder, t: int, t': int, x: int)
    requires BookOk(store, spare, idx, own, opp, t)
    requires |store'| == |store| && x !in Flat(own.chains) && x !in Flat(opp.chains)
    requires forall i :: 0 <= i < |store| && i != x ==> store'[i] == store[i]
    requires (t == NIL || t == x) && t' == (if IsLive(store', x) then x else NIL)
    requires spare' + (if t' == NIL then 0 else 1) == spare + (if t == NIL then 0 else 1)
    requires t == NIL ==> !IsLive(store, x)
    ensures BookOk(store', spare', idx, own, opp, t')
    ensures View(store', own) == View(store, own) && View(store', opp) == View(store, opp)
  {
    hide LadderOk, View, Indexed;
    FlatMembers(store, own);
    FlatMembers(store, opp);
    LadderFrame(store, store', own);
    LadderFrame(store, store', opp);
    IndexedSame(store, store', idx, Flat(own.chains), Flat(opp.chains));
  }

  // ---------------------------------------------------------------- taking an order out

  /** Slot `c[k]` of level `j` has been unlinked and released. */
  ghost predicate Removal(store: Store, store': Store, l: Ladder, j: nat, k: nat, lvl: PriceLevel)
    requires |l.levels| == |l.chains|
  {
    && j < |l.levels| && k < |l.chains[j]|
    && var c := l.chains[j];
       && Unlinked(store, store', c, k)
       && TouchesOnly(store, store', l.side, l.levels[j].price)
       && (forall i :: IsLive(store', i) <==> IsLive(store, i) && i != c[k])
       && lvl == PriceLevel(l.levels[j].price, (l.levels[j].totalQty - At(store, c[k]).qty) % TWO64,
                            if k == 0 then Next(c, k) else l.levels[j].head,
                            if k + 1 == |c| then Prev(c, k) else l.levels[j].tail)
  }

  /** The ladder without the order. */
  function Removed(l: Ladder, j: nat, k: nat, lvl: PriceLevel): Ladder
    requires j < |l.levels| == |l.chains| && k < |l.chains[j]|
  {
    SetLevel(l, j, lvl, Remove(l.chains[j], k))
  }

  lemma Regroup<X>(a: seq<X>, x: seq<X>, e: X, y: seq<X>, b: seq<X>)
    ensures a + (x + [e] + y) + b == (a + x) + [e] + (y + b)
    ensures a + (x + y) + b == (a + x) + (y + b)
  {
  }

  lemma RemovalLevel(store: Store, store': Store, l: Ladder, j: nat, k: nat, lvl: PriceLevel)
    requires LadderOk(store, l) && Removal(store, store', l, j, k, lvl)
    ensures LadderOk(store', Removed(l, j, k, lvl))
    ensures View(store', Removed(l, j, k, lvl)) ==
              View(store, Above(l, j + 1)) + (Entries(store, l.chains[j][..k]) + Entries(store, l.chains[j][k + 1..]))
              + View(store, Below(l, j))
    ensures Entries(store, l.chains[j]) ==
              Entries(store, l.chains[j][..k]) + [EntryAt(store, l.chains[j][k])] + Entries(store, l.chains[j][k + 1..])
  {
    var c := l.chains[j];
    OtherLevelsAgree(store, store', l, j);
    UnlinkKeepsLevel(store, store', l.side, l.levels[j], lvl, c, k);
    SetLevelOk(store, store', l, j, lvl, Remove(c, k));
    SetLevelView(store, store', l, j, lvl, Remove(c, k));
  }

  /** The view loses exactly that order: `a` is in front of it and `b` behind. */
  lemma RemovalLadder(store: Store, store': Store, l: Ladder, j: nat, k: nat, lvl: PriceLevel)
      returns (a: seq<Entry>, b: seq<Entry>)
    requires LadderOk(store, l) && Removal(store, store', l, j, k, lvl)
    ensures LadderOk(store', Removed(l, j, k, lvl))
    ensures View(store, l) == a + [EntryAt(store, l.chains[j][k])] + b
    ensures View(store', Removed(l, j, k, lvl)) == a + b
    ensures j == |l.levels| - 1 && k == 0 ==> a == []
  {
    var c := l.chains[j];
    RemovalLevel(store, store', l, j, k, lvl);
    ViewSplit(store, l, j);
    var above, below := View(store, Above(l, j + 1)), View(store, Below(l, j));
    var x, y := Entries(store, c[..k]), Entries(store, c[k + 1..]);
    Regroup(above, x, EntryAt(store, c[k]), y, below);
    a, b := above + x, y + below;
  }

  /** The flat list loses exactly that slot. */
  lemma RemovalFlat(store: Store, l: Ladder, j: nat, k: nat, lvl: PriceLevel)
    requires LadderOk(store, l) && j < |l.levels| && k < |l.chains[j]|
    ensures |Flat(Removed(l, j, k, lvl).chains)| == |Flat(l.chains)| - 1
    ensures forall i :: i in Flat(Removed(l, j, k, lvl).chains) <==> i in Flat(l.chains) && i != l.chains[j][k]
  {
    var c, l' := l.chains[j], Removed(l, j, k, lvl);
    var above, below := Flat(l.chains[j + 1..]), Flat(l.chains[..j]);
    FlatSplit(l.chains, j);
    FlatSplit(l'.chains, j);
    assert l'.chains[j + 1..] == l.chains[j + 1..] && l'.chains[..j] == l.chains[..j];
    assert c == c[..k] + [c[k]] + c[k + 1..];
    Regroup(above, c[..k], c[k], c[k + 1..], below);
    FlatDistinct(store, l);
    RemoveOne(above + c[..k], c[k], c[k + 1..] + below);
  }

  lemma RemoveOne(a: seq<int>, x: int, b: seq<int>)
    requires Distinct(a + [x] + b)
    ensures forall i :: i in a + b <==> i in a + [x] + b && i != x
  {
    var s := a + [x] + b;
    assert s[|a|] == x;
    forall k | 0 <= k < |a|
      ensures a[k] != x
    {
      assert s[k] == a[k];
    }
    forall k | 0 <= k < |b|
      ensures b[k] != x
    {
      assert s[|a| + 1 + k] == b[k];
    }
  }

  lemma IndexedAfterRemoval(store: Store, store': Store, idx: Index, fa: seq<int>, fb: seq<int>, fb': seq<int>, o: int)
    requires Indexed(store, idx, fa, fb) && o in fb && o !in fa
    requires forall i :: i in fb' <==> i in fb && i != o
    requires forall i :: (i in fa || i in fb) && i != o ==> IsLive(store', i) && At(store', i).id == At(store, i).id
    ensures Indexed(store', idx - {At(store, o).id}, fa, fb')
    ensures |idx - {At(store, o).id}| == |idx| - 1
  {
  }

  lemma IndexedAfterQueueing(store: Store, store': Store, idx: Index, fa: seq<int>, fa': seq<int>, fb: seq<int>, t: int)
    requires Indexed(store, idx, fa, fb) && IsLive(store', t) && At(store, t).id !in idx
    requires forall i :: i in fa' <==> i in fa || i == t
    requires forall i :: i in fa || i in fb ==> IsLive(store', i)
    requires forall i :: i in fa || i in fb || i == t ==> At(store', i).id == At(store, i).id
    ensures Indexed(store', idx[At(store, t).id := t], fa', fb)
    ensures |idx[At(store, t).id := t]| == |idx| + 1
  {
  }

  lemma RemovedSlot(store: Store, own: Ladder, opp: Ladder, j: nat, k: nat)
    requires LadderOk(store, own) && LadderOk(store, opp) && own.side != opp.side
    requires j < |opp.levels| && k < |opp.chains[j]|
    ensures opp.chains[j][k] in Flat(opp.chains) && opp.chains[j][k] !in Flat(own.chains)
    ensures IsLive(store, opp.chains[j][k]) && At(store, opp.chains[j][k]).side == opp.side
  {
    assert opp.chains[j][k] in opp.chains[j];
    InFlat(opp.chains, opp.chains[j][k]);
    FlatMembers(store, own);
    FlatMembers(store, opp);
  }

  lemma RemovalKeepsBook(store: Store, store': Store, spare: nat, idx: Index, own: Ladder, opp: Ladder, t: int,
                         j: nat, k: nat, lvl: PriceLevel)
    requires BookOk(store, spare, idx, own, opp, t) && Removal(store, store', opp, j, k, lvl)
    ensures BookOk(store', spare + 1, idx - {At(store, opp.chains[j][k]).id}, own, Removed(opp, j, k, lvl), t)
    ensures View(store', own) == View(store, own)
  {
    var o := opp.chains[j][k];
    RemovalLevel(store, store', opp, j, k, lvl);
    RemovalFlat(store, opp, j, k, lvl);
    OtherSideAgrees(store, store', own, opp.side, opp.levels[j].price);
    IdsKept(store, store', own, opp, j, k, lvl);
    RemovedSlot(store, own, opp, j, k);
    FlatMembers(store, own);
    FlatMembers(store, opp);
    IndexedAfterRemoval(store, store', idx, Flat(own.chains), Flat(opp.chains),
                        Flat(Removed(opp, j, k, lvl).chains), o);
  }

  lemma IdsKept(store: Store, store': Store, own: Ladder, opp: Ladder, j: nat, k: nat, lvl: PriceLevel)
    requires LadderOk(store, own) && LadderOk(store, opp) && own.side != opp.side
    requires Removal(store, store', opp, j, k, lvl)
    ensures forall i :: (i in Flat(own.chains) || i in Flat(opp.chains)) && i != opp.chains[j][k]
              ==> At(store', i).id == At(store, i).id
  {
    FlatMembers(store, own);
    forall i | i in Flat(opp.chains) && i != opp.chains[j][k]
      ensures At(store', i).id == At(store, i).id
    {
      var a, b := FlatMember(store, opp, i);
      if a != j {
        assert opp.levels[a].price != opp.levels[j].price;
      }
    }
  }

  /** What removal does to the view: cancelling drops the order, filling it in full pops it. */
  lemma RemovalViews(store: Store, store': Store, l: Ladder, j: nat, k: nat, lvl: PriceLevel)
    requires LadderOk(store, l) && Removal(store, store', l, j, k, lvl)
    requires DistinctIds(View(store, l))
    ensures View(store', Removed(l, j, k, lvl)) == Without(View(store, l), At(store, l.chains[j][k]).id)
    ensures HasId(View(store, l), At(store, l.chains[j][k]).id)
  {
    var a, b := RemovalLadder(store, store', l, j, k, lvl);
    assert View(store, l)[|a|] == EntryAt(store, l.chains[j][k]);
    WithoutOne(a, EntryAt(store, l.chains[j][k]), b);
  }

  /** The ids of one side, given that its slots are indexed. */
  lemma SideIds(store: Store, idx: Index, f: seq<int>)
    requires Distinct(f)
    requires forall i :: i in f ==> At(store, i).id in idx && idx[At(store, i).id] == i
    ensures DistinctIds(Entries(store, f))
    ensures forall k :: 0 <= k < |f| ==> Entries(store, f)[k].id in idx && idx[Entries(store, f)[k].id] == f[k]
  {
  }

  /** No id rests twice, on one side or across both. */
  lemma ViewsDistinct(store: Store, spare: nat, idx: Index, own: Ladder, opp: Ladder, t: int)
    requires BookOk(store, spare, idx, own, opp, t)
    ensures DistinctIds(View(store, own)) && DistinctIds(View(store, opp))
  {
    FlatDistinct(store, own);
    FlatDistinct(store, opp);
    SideIds(store, idx, Flat(own.chains));
    SideIds(store, idx, Flat(opp.chains));
  }

  /** The index knows exactly the ids in view, and knows their side. */
  lemma IndexedIds(store: Store, spare: nat, idx: Index, own: Ladder, opp: Ladder, t: int, id: OrderId)
    requires BookOk(store, spare, idx, own, opp, t)
    ensures HasId(View(store, own), id) <==> id in idx && idx[id] in Flat(own.chains)
    ensures id in idx ==> (idx[id] in Flat(own.chains) <==> At(store, idx[id]).side == own.side)
    ensures id in idx <==> HasId(View(store, own), id) || HasId(View(store, opp), id)
  {
    FlatMembers(store, own);
    FlatMembers(store, opp);
    HasIdAt(store, Flat(own.chains), id);
    HasIdAt(store, Flat(opp.chains), id);
  }

  lemma HasIdAt(store: Store, f: seq<int>, id: OrderId)
    ensures HasId(Entries(store, f), id) <==> exists i :: i in f && At(store, i).id == id
  {
    if HasId(Entries(store, f), id) {
      var k :| 0 <= k < |f| && Entries(store, f)[k].id == id;
      assert f[k] in f && At(store, f[k]).id == id;
    }
    if exists i :: i in f && At(store, i).id == id {
      var i :| i in f && At(store, i).id == id;
      var k :| 0 <= k < |f| && f[k] == i;
      assert Entries(store, f)[k].id == id;
    }
  }

  // ---------------------------------------------------------------- filling the best order

  lemma FillInFull(store: Store, store': Store, l: Ladder, lvl: PriceLevel)
    requires LadderOk(store, l) && |l.levels| > 0
    requires Removal(store, store', l, |l.levels| - 1, 0, lvl)
    ensures View(store, l) != []
    ensures View(store, l)[0] == EntryAt(store, l.chains[|l.levels| - 1][0])
    ensures View(store', Removed(l, |l.levels| - 1, 0, lvl)) == View(store, l)[1..]
  {
    var a, b := RemovalLadder(store, store', l, |l.levels| - 1, 0, lvl);
  }

  ghost predicate Reduction(store: Store, store': Store, l: Ladder, fill: Quantity, lvl: PriceLevel)
    requires |l.levels| == |l.chains|
  {
    && |l.levels| > 0 && l.chains[|l.levels| - 1] != []
    && var n := |l.levels| - 1;
       var m := l.chains[n][0];
       && 0 < fill < At(store, m).qty
       && IsLive(store, m)
       && store' == store[m := Live(At(store, m).(qty := At(store, m).qty - fill))]
       && lvl == l.levels[n].(totalQty := (l.levels[n].totalQty - fill) % TWO64)
  }

  lemma FillInPartLevel(store: Store, store': Store, l: Ladder, fill: Quantity, lvl: PriceLevel)
    requires LadderOk(store, l) && Reduction(store, store', l, fill, lvl)
    ensures var n := |l.levels| - 1;
            && LevelOk(store', l.side, lvl, l.chains[n])
            && Entries(store', l.chains[n]) == AfterFill(Entries(store, l.chains[n]), fill)
            && TouchesOnly(store, store', l.side, l.levels[n].price)
            && EntryAt(store, l.chains[n][0]).qty == At(store, l.chains[n][0]).qty
    ensures forall i :: IsLive(store', i) <==> IsLive(store, i)
    ensures forall i :: IsLive(store, i) ==> At(store', i).id == At(store, i).id
  {
    var n := |l.levels| - 1;
    var c := l.chains[n];
    assert LevelOk(store, l.side, l.levels[n], c) && Linked(store, l.side, l.levels[n].price, c, 0);
    forall i | 0 < i < |c|
      ensures Holds(store', c[i], At(store, c[i]))
    {
      assert Linked(store, l.side, l.levels[n].price, c, i);
    }
    ReduceKeepsLevel(store, store', l.side, l.levels[n], lvl, c, fill);
  }

  lemma AfterFillConcat(a: seq<Entry>, b: seq<Entry>, fill: Quantity)
    requires a != [] && fill < a[0].qty
    ensures AfterFill(a + b, fill) == AfterFill(a, fill) + b
  {
  }

  lemma AboveBest(store: Store, l: Ladder)
    requires |l.levels| == |l.chains|
    ensures View(store, Above(l, |l.levels|)) == []
  {
  }

  lemma BestFirst(store: Store, l: Ladder)
    requires |l.levels| == |l.chains| > 0
    ensures View(store, l) == Entries(store, l.chains[|l.levels| - 1]) + View(store, Below(l, |l.levels| - 1))
  {
  }

  lemma FillInPart(store: Store, store': Store, l: Ladder, fill: Quantity, lvl: PriceLevel)
    requires LadderOk(store, l) && Reduction(store, store', l, fill, lvl)
    ensures var n := |l.levels| - 1;
            && LadderOk(store', SetLevel(l, n, lvl, l.chains[n]))
            && View(store, l) != [] && View(store, l)[0] == EntryAt(store, l.chains[n][0])
            && fill < View(store, l)[0].qty
            && View(store', SetLevel(l, n, lvl, l.chains[n])) == AfterFill(View(store, l), fill)
  {
    var n := |l.levels| - 1;
    var c := l.chains[n];
    FillInPartLevel(store, store', l, fill, lvl);
    OtherLevelsAgree(store, store', l, n);
    SetLevelOk(store, store', l, n, lvl, c);
    SetLevelView(store, store', l, n, lvl, c);
    BestFirst(store, l);
    AboveBest(store, l);
    AfterFillConcat(Entries(store, c), View(store, Below(l, n)), fill);
  }

  lemma FillInPartKeepsBook(store: Store, store': Store, spare: nat, idx: Index, own: Ladder, opp: Ladder, t: int,
                            fill: Quantity, lvl: PriceLevel)
    requires BookOk(store, spare, idx, own, opp, t)
    requires |opp.levels| == |opp.chains| > 0 && Reduction(store, store', opp, fill, lvl)
    ensures BookOk(store', spare, idx, own, SetLevel(opp, |opp.levels| - 1, lvl, opp.chains[|opp.levels| - 1]), t)
    ensures View(store', own) == View(store, own)
  {
    hide LadderOk, View, Indexed, Reduction, TouchesOnly, LevelOk;
    var n := |opp.levels| - 1;
    FillInPartLevel(store, store', opp, fill, lvl);
    FillInPart(store, store', opp, fill, lvl);
    OtherSideAgrees(store, store', own, opp.side, opp.levels[n].price);
    assert SetLevel(opp, n, lvl, opp.chains[n]).chains == opp.chains;
    FlatMembers(store, own);
    FlatMembers(store, opp);
    IndexedSame(store, store', idx, Flat(own.chains), Flat(opp.chains));
  }

  // ---------------------------------------------------------------- resting an order

  /** Slot `t` has been queued at the back of level `j`. */
  ghost predicate Queueing(store: Store, store': Store, l: Ladder, j: nat, t: int, lvl: PriceLevel)
    requires |l.levels| == |l.chains|
  {
    && j < |l.levels|
    && LevelOk(store', l.side, lvl, l.chains[j] + [t])
    && lvl.price == l.levels[j].price
    && Entries(store', l.chains[j] + [t]) == Entries(store, l.chains[j]) + [EntryAt(store, t)]
    && TouchesOnly(store, store', l.side, lvl.price)
    && (forall i :: IsLive(store', i) <==> IsLive(store, i))
    && (forall i :: IsLive(store, i) ==> At(store', i).id == At(store, i).id)
  }

  lemma QueueingLadder(store: Store, store': Store, l: Ladder, j: nat, t: int, lvl: PriceLevel)
    requires LadderOk(store, l) && Queueing(store, store', l, j, t, lvl)
    ensures LadderOk(store', Queued(l, j, t, lvl))
    ensures View(store, l) == View(store, Above(l, j + 1)) + Entries(store, l.chains[j]) + View(store, Below(l, j))
    ensures View(store', Queued(l, j, t, lvl)) ==
            View(store, Above(l, j + 1)) + Entries(store, l.chains[j]) + [EntryAt(store, t)] + View(store, Below(l, j))
  {
    var c := l.chains[j] + [t];
    OtherLevelsAgree(store, store', l, j);
    SetLevelOk(store, store', l, j, lvl, c);
    SetLevelView(store, store', l, j, lvl, c);
    ViewSplit(store, l, j);
  }

  function Queued(l: Ladder, j: nat, t: int, lvl: PriceLevel): Ladder
    requires j < |l.levels| == |l.chains|
  {
    SetLevel(l, j, lvl, l.chains[j] + [t])
  }

  lemma QueueingFlat(l: Ladder, j: nat, t: int, lvl: PriceLevel)
    requires j < |l.levels| == |l.chains|
    ensures |Flat(Queued(l, j, t, lvl).chains)| == |Flat(l.chains)| + 1
    ensures forall i :: i in Flat(Queued(l, j, t, lvl).chains) <==> i in Flat(l.chains) || i == t
  {
    var l' := Queued(l, j, t, lvl);
    FlatSplit(l.chains, j);
    FlatSplit(l'.chains, j);
    assert l'.chains[j + 1..] == l.chains[j + 1..] && l'.chains[..j] == l.chains[..j];
  }

  lemma QueueingKeepsBook(store: Store, store': Store, spare: nat, idx: Index, own: Ladder, opp: Ladder, t: int,
                          j: nat, lvl: PriceLevel)
    requires BookOk(store, spare, idx, own, opp, t) && t != NIL
    requires Queueing(store, store', own, j, t, lvl) && At(store, t).id !in idx
    ensures BookOk(store', spare, idx[At(store, t).id := t], Queued(own, j, t, lvl), opp, NIL)
    ensures View(store', opp) == View(store, opp)
  {
    QueueingLadder(store, store', own, j, t, lvl);
    QueueingFlat(own, j, t, lvl);
    OtherSideAgrees(store, store', opp, own.side, lvl.price);
    FlatMembers(store, own);
    FlatMembers(store, opp);
    IndexedAfterQueueing(store, store', idx, Flat(own.chains), Flat(Queued(own, j, t, lvl).chains),
                         Flat(opp.chains), t);
  }

  lemma SamePrice(store: Store, side: Side, lvl: PriceLevel, c: seq<int>)
    requires LevelOk(store, side, lvl, c)
    ensures forall i :: 0 <= i < |c| ==> Entries(store, c)[i].price == lvl.price
  {
    forall i | 0 <= i < |c|
      ensures Entries(store, c)[i].price == lvl.price
    {
      assert Linked(store, side, lvl.price, c, i);
    }
  }

  /** Queueing at the back of a level is insertion in price-time order. */
  lemma QueueingView(store: Store, store': Store, l: Ladder, j: nat, t: int, lvl: PriceLevel)
    requires LadderOk(store, l) && Queueing(store, store', l, j, t, lvl)
    requires EntryAt(store, t).price == lvl.price
    ensures View(store', Queued(l, j, t, lvl)) == Insert(l.side, View(store, l), EntryAt(store, t))
  {
    var a, b := View(store, Above(l, j + 1)), View(store, Below(l, j));
    var c, e := Entries(store, l.chains[j]), EntryAt(store, t);
    SamePrice(store, l.side, l.levels[j], l.chains[j]);
    NeighboursOrdered(store, l, j, a, b);
    QueueingLadder(store, store', l, j, t, lvl);
    InsertBetween(l.side, a + c, b, e);
  }

  lemma NeighboursOrdered(store: Store, l: Ladder, j: nat, above: seq<Entry>, below: seq<Entry>)
    requires LadderOk(store, l) && j < |l.levels|
    requires above == View(store, Above(l, j + 1)) && below == View(store, Below(l, j))
    ensures forall i :: 0 <= i < |above| ==> Better(l.side, above[i].price, l.levels[j].price)
    ensures forall i :: 0 <= i < |below| ==> Better(l.side, l.levels[j].price, below[i].price)
  {
    PartsOk(store, l, j);
    PartsOk(store, l, j + 1);
    ViewSorted(store, Above(l, j + 1));
    ViewSorted(store, Below(l, j));
  }

  lemma {:induction false} InsertBetween(side: Side, a: seq<Entry>, b: seq<Entry>, e: Entry)
    requires forall i :: 0 <= i < |a| ==> !Better(side, e.price, a[i].price)
    requires forall i :: 0 <= i < |b| ==> Better(side, e.price, b[i].price)
    ensures Insert(side, a + b, e) == a + [e] + b
  {
    if a == [] {
      assert a + b == b;
    } else {
      assert (a + b)[1..] == a[1..] + b;
      InsertBetween(side, a[1..], b, e);
    }
  }
}
