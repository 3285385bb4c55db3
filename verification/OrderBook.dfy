/** The matching engine of src/order_book.cpp over pool slots, intrusive queues, sorted level
    vectors and the id index. Every method is proved to compute the function of the same
    operation on the reference book. */
module OrderBooks {
  import opened Types
  import opened Pool
  import opened PriceTime
  import opened Chains
  import opened BookState
  import opened PriceLevels
  import opened SideBooks
  import opened Fok
  import Conservation

  /** Slot `t` holds the incoming order `r` with `q` of its quantity still to fill. */
  ghost predicate TakerAt(store: Store, t: int, r: Request, q: nat) {
    && IsLive(store, t)
    && var o := At(store, t);
       o.id == r.id && o.side == r.side && o.kind == r.kind && o.price == r.price && o.ts == r.ts && o.qty == q
  }

  /** The first order of queue `c` has been filled, unlinked from its successor and released. */
  ghost predicate HeadReleased(s: Store, s': Store, c: seq<int>)
    requires c != []
  {
    && |s'| == |s|
    && !IsLive(s', c[0])
    && (|c| > 1 ==> Holds(s', c[1], At(s, c[1]).(prev := NIL)))
    && forall i :: 0 <= i < |s| && i != c[0] && (|c| > 1 ==> i != c[1]) ==> s'[i] == s[i]
  }

  lemma HeadReleasedIsRemoval(s: Store, s': Store, l: Ladder, lvl: PriceLevel)
    requires LadderOk(s, l) && |l.levels| == |l.chains| > 0 && l.chains[|l.levels| - 1] != []
    requires HeadReleased(s, s', l.chains[|l.levels| - 1])
    requires var c, best := l.chains[|l.levels| - 1], l.levels[|l.levels| - 1];
             lvl == PriceLevel(best.price, (best.totalQty - At(s, c[0]).qty) % TWO64, Next(c, 0),
                               if |c| == 1 then NIL else best.tail)
    ensures Removal(s, s', l, |l.levels| - 1, 0, lvl)
  {
    hide LadderOk, LevelOk, Distinct;
    HeadOf(s, l, |l.levels| - 1);
    var c := l.chains[|l.levels| - 1];
    DistinctHead(c);
    HeadUnlinked(s, s', c);
    HeadOnly(s, s', c, l.side, l.levels[|l.levels| - 1].price);
  }

  lemma DistinctHead(c: seq<int>)
    requires Distinct(c) && c != []
    ensures forall k :: 1 <= k < |c| ==> c[k] != c[0]
    ensures forall k :: 2 <= k < |c| ==> c[k] != c[1]
  {
  }

  lemma HeadUnlinked(s: Store, s': Store, c: seq<int>)
    requires c != [] && HeadReleased(s, s', c)
    requires forall k :: 0 <= k < |c| ==> IsLive(s, c[k])
    requires forall k :: 1 <= k < |c| ==> c[k] != c[0]
    requires forall k :: 2 <= k < |c| ==> c[k] != c[1]
    ensures Unlinked(s, s', c, 0)
  {
  }

  lemma HeadOnly(s: Store, s': Store, c: seq<int>, side: Side, price: Price)
    requires c != [] && HeadReleased(s, s', c)
    requires forall k :: 0 <= k < |c| ==> IsLive(s, c[k]) && At(s, c[k]).side == side && At(s, c[k]).price == price
    requires forall k :: 1 <= k < |c| ==> c[k] != c[0]
    ensures TouchesOnly(s, s', side, price)
    ensures forall i :: IsLive(s', i) <==> IsLive(s, i) && i != c[0]
  {
  }

  lemma TakerFacts(s: Store, t: int, r: Request, q: nat)
    requires TakerAt(s, t, r, q)
    ensures IsLive(s, t) && At(s, t).id == r.id && At(s, t).ts == r.ts && At(s, t).qty == q
  {
  }

  /** The order in the slot decides crossing as the request does. */
  lemma TakerCrosses(s: Store, t: int, r: Request, q: nat)
    requires TakerAt(s, t, r, q)
    ensures forall p: Price :: Crosses(r, p) <==> At(s, t).kind == Market || PriceCrosses(r.side, At(s, t).price, p)
  {
  }

  lemma HeadOf(s: Store, l: Ladder, j: nat)
    requires LadderOk(s, l) && j < |l.levels|
    ensures l.levels[j].head == First(l.chains[j])
    ensures l.chains[j] == [] <==> l.levels[j].Empty()
    ensures forall k :: 0 <= k < |l.chains[j]| ==>
              IsLive(s, l.chains[j][k]) && At(s, l.chains[j][k]).side == l.side && At(s, l.chains[j][k]).qty > 0
              && At(s, l.chains[j][k]).price == l.levels[j].price
              && At(s, l.chains[j][k]).next == Next(l.chains[j], k)
    ensures Distinct(l.chains[j])
  {
    assert LevelOk(s, l.side, l.levels[j], l.chains[j]);
    AllLinked(s, l.side, l.levels[j].price, l.chains[j]);
    forall k | 0 <= k < |l.chains[j]|
      ensures At(s, l.chains[j][k]).qty > 0
    {
      assert Linked(s, l.side, l.levels[j].price, l.chains[j], k);
    }
  }

  /** What the book invariant says about the first order of the best level. */
  lemma BestHead(s: Store, spare: nat, idx: Index, own: Ladder, opp: Ladder, t: int)
    requires BookOk(s, spare, idx, own, opp, t) && opp.levels != []
    ensures |opp.levels| == |opp.chains| && Ascending(opp.side, opp.levels)
    ensures var n := |opp.levels| - 1;
            var c := opp.chains[n];
            && opp.levels[n].head == First(c)
            && (opp.levels[n].head == NIL <==> c == [])
            && (c != [] ==>
                  && IsLive(s, c[0]) && At(s, c[0]).next == Next(c, 0) && c[0] != t && At(s, c[0]).qty > 0
                  && At(s, c[0]).price == opp.levels[n].price && At(s, c[0]).side == opp.side
                  && (|c| == 1 <==> Next(c, 0) == NIL)
                  && (|c| > 1 ==> IsLive(s, c[1]) && c[1] != c[0] && c[1] != t)
                  && View(s, opp) != [] && View(s, opp)[0] == EntryAt(s, c[0]))
  {
    var n := |opp.levels| - 1;
    HeadOf(s, opp, n);
    BestFirst(s, opp);
    if opp.chains[n] != [] {
      RemovedSlot(s, own, opp, n, 0);
      if |opp.chains[n]| > 1 {
        RemovedSlot(s, own, opp, n, 1);
      }
    }
  }

  /** Taking `fill` off the taker in slot `t` does not touch the queues. */
  lemma TakerReduced(s: Store, s': Store, spare: nat, idx: Index, own: Ladder, opp: Ladder, t: int, fill: Quantity)
    requires BookOk(s, spare, idx, own, opp, t) && IsLive(s, t) && fill <= At(s, t).qty
    requires s' == s[t := Live(At(s, t).(qty := At(s, t).qty - fill))]
    ensures BookOk(s', spare, idx, own, opp, t)
    ensures View(s', own) == View(s, own) && View(s', opp) == View(s, opp)
  {
    OffBookEdit(s, s', spare, spare, idx, own, opp, t, t, t);
  }

  /** The maker is exhausted: its order leaves the queue, the index and the pool. */
  lemma MakerExhausted(s: Store, s': Store, spare: nat, idx: Index, own: Ladder, opp: Ladder, t: int, lvl: PriceLevel)
    requires BookOk(s, spare, idx, own, opp, t) && opp.levels != [] && opp.chains[|opp.levels| - 1] != []
    requires HeadReleased(s, s', opp.chains[|opp.levels| - 1])
    requires var n := |opp.levels| - 1;
             var c := opp.chains[n];
             lvl == PriceLevel(opp.levels[n].price, (opp.levels[n].totalQty - At(s, c[0]).qty) % TWO64, Next(c, 0),
                               if |c| == 1 then NIL else opp.levels[n].tail)
    ensures var n := |opp.levels| - 1;
            var c := opp.chains[n];
            var opp' := SetLevel(opp, n, lvl, c[1..]);
            && BookOk(s', spare + 1, idx - {At(s, c[0]).id}, own, opp', t)
            && View(s', own) == View(s, own)
            && View(s, opp) != [] && View(s, opp)[0] == EntryAt(s, c[0])
            && View(s', opp') == AfterFill(View(s, opp), At(s, c[0]).qty)
  {
    var n := |opp.levels| - 1;
    HeadReleasedIsRemoval(s, s', opp, lvl);
    RemovalKeepsBook(s, s', spare, idx, own, opp, t, n, 0, lvl);
    FillInFull(s, s', opp, lvl);
    assert Remove(opp.chains[n], 0) == opp.chains[n][1..];
  }

  /** The maker keeps part of its quantity and its place. */
  lemma MakerReduced(s: Store, s': Store, spare: nat, idx: Index, own: Ladder, opp: Ladder, t: int,
                     fill: Quantity, lvl: PriceLevel)
    requires BookOk(s, spare, idx, own, opp, t)
    requires |opp.levels| == |opp.chains| > 0 && Reduction(s, s', opp, fill, lvl)
    ensures var n := |opp.levels| - 1;
            var opp' := SetLevel(opp, n, lvl, opp.chains[n]);
            && BookOk(s', spare, idx, own, opp', t)
            && View(s', own) == View(s, own)
            && View(s, opp) != [] && View(s, opp)[0] == EntryAt(s, opp.chains[n][0])
            && fill <= View(s, opp)[0].qty
            && View(s', opp') == AfterFill(View(s, opp), fill)
  {
    FillInPartKeepsBook(s, s', spare, idx, own, opp, t, fill, lvl);
    FillInPart(s, s', opp, fill, lvl);
  }

  /** Make the second order of the queue the first, and release the exhausted one. */
  method PopHead(pool: ObjectPool<Order>, lvl: PriceLevel, ghost c: seq<int>) returns (lvl': PriceLevel)
    requires pool.Valid() && c != [] && lvl.head == c[0] && IsLive(pool.Store(), c[0])
    requires At(pool.Store(), c[0]).next == Next(c, 0)
    requires |c| == 1 <==> Next(c, 0) == NIL
    requires |c| > 1 ==> IsLive(pool.Store(), c[1]) && c[1] != c[0]
    modifies pool, pool.storage
    ensures pool.Valid() && HeadReleased(old(pool.Store()), pool.Store(), c)
    ensures pool.free == [c[0]] + old(pool.free)
    ensures lvl' == lvl.(head := Next(c, 0), tail := if |c| == 1 then NIL else lvl.tail)
  {
    hide FreeListOk;
    var maker := lvl.head;
    lvl' := lvl.(head := pool.Get(maker).next);
    if lvl'.head != NIL {
      pool.Put(lvl'.head, pool.Get(lvl'.head).(prev := NIL));
    } else {
      lvl' := lvl'.(tail := NIL);
    }
    pool.Release(maker);
  }

  /** A maker's quantity does not matter once it is released. */
  lemma ReleasedAfterWrite(s1: Store, s2: Store, s3: Store, c: seq<int>, x: Order)
    requires c != [] && IsLive(s1, c[0]) && s2 == s1[c[0] := Live(x)] && HeadReleased(s2, s3, c)
    requires |c| > 1 ==> c[1] != c[0]
    ensures HeadReleased(s1, s3, c)
  {
  }

  lemma FilledInPart(s: Store, s': Store, l: Ladder, fill: Quantity, lvl: PriceLevel)
    requires |l.levels| == |l.chains| > 0 && l.chains[|l.levels| - 1] != []
    requires var c := l.chains[|l.levels| - 1];
             && IsLive(s, c[0]) && 0 < fill < At(s, c[0]).qty
             && At(s, c[0]).side == l.side && At(s, c[0]).price == l.levels[|l.levels| - 1].price
             && s' == s[c[0] := Live(At(s, c[0]).(qty := At(s, c[0]).qty - fill))]
             && lvl == l.levels[|l.levels| - 1].(totalQty := (l.levels[|l.levels| - 1].totalQty - fill) % TWO64)
    ensures Reduction(s, s', l, fill, lvl)
  {
  }

  lemma SetLast(l: Ladder, lvl: PriceLevel, c: seq<int>)
    requires |l.levels| == |l.chains| > 0 && lvl.price == l.levels[|l.levels| - 1].price
    ensures SameButLast(l, SetLevel(l, |l.levels| - 1, lvl, c))
  {
  }

  lemma StillNoneEmpty(l: Ladder, l': Ladder)
    requires NoneEmpty(l) && SameButLast(l, l')
    ensures l'.chains[|l'.levels| - 1] != [] ==> NoneEmpty(l')
    ensures NoneEmpty(DropLevel(l', |l'.levels| - 1))
  {
  }

  /** What the best level, if there is one, shows of the view. */
  lemma BestView(s: Store, spare: nat, idx: Index, own: Ladder, opp: Ladder, t: int)
    requires BookOk(s, spare, idx, own, opp, t) && NoneEmpty(opp)
    ensures View(s, opp) == [] <==> opp.levels == []
    ensures opp.levels != [] ==> |opp.chains| == |opp.levels| && opp.chains[|opp.levels| - 1] != []
                                 && View(s, opp)[0].price == opp.levels[|opp.levels| - 1].price
  {
    if opp.levels != [] {
      BestHead(s, spare, idx, own, opp, t);
    }
  }

  /** The incoming order crosses the best resting one. */
  predicate Meets(r: Request, opp: seq<Entry>) {
    opp != [] && Crosses(r, opp[0].price)
  }

  lemma SweepStops(r: Request, opp: seq<Entry>, q: Quantity)
    requires q == 0 || opp == [] || !Crosses(r, opp[0].price)
    ensures PriceTime.Match(r, opp, q) == Sweep([], opp, q)
  {
  }

  /** Erasing an exhausted level changes nothing the book stands for. */
  lemma DropKeepsBook(s: Store, spare: nat, idx: Index, own: Ladder, opp: Ladder, t: int, j: nat)
    requires BookOk(s, spare, idx, own, opp, t) && j < |opp.levels| && opp.chains[j] == []
    ensures BookOk(s, spare, idx, own, DropLevel(opp, j), t)
    ensures View(s, DropLevel(opp, j)) == View(s, opp)
  {
    DropEmptyLevelOk(s, opp, j);
    DropEmptyLevelFlat(opp, j);
  }

  lemma AddKeepsBook(s: Store, spare: nat, idx: Index, own: Ladder, opp: Ladder, t: int, price: Price)
    requires BookOk(s, spare, idx, own, opp, t)
    requires |own.levels| == |own.chains|
    requires var j := LowerBound(own.side, own.levels, price); j == |own.levels| || own.levels[j].price != price
    ensures var own' := AddLevel(own, LowerBound(own.side, own.levels, price), PriceLevel(price, 0, NIL, NIL), []);
            BookOk(s, spare, idx, own', opp, t) && View(s, own') == View(s, own)
  {
    hide LadderOk, Flat;
    LadderShape(s, spare, idx, own, opp, t);
    var j := LowerBound(own.side, own.levels, price);
    assert forall i :: j < i < |own.levels| ==> Better(own.side, own.levels[i].price, own.levels[j].price);
    AddEmptyLevelOk(s, own, j, price);
    AddEmptyLevelFlat(own, j, PriceLevel(price, 0, NIL, NIL));
  }

  lemma ReleasedKeeps(s: Store, s': Store, c: seq<int>, t: int)
    requires c != [] && HeadReleased(s, s', c) && IsLive(s, t) ==> t != c[0] && (|c| > 1 ==> t != c[1])
    ensures c != [] && HeadReleased(s, s', c) && IsLive(s, t) ==> IsLive(s', t) && At(s', t) == At(s, t)
  {
  }

  /** Only the queue of the best level and its cached values may differ. */
  ghost predicate SameButLast(l: Ladder, l': Ladder) {
    && |l'.levels| == |l.levels| > 0 && |l'.chains| == |l.chains| == |l.levels| && l'.side == l.side
    && l'.levels[|l.levels| - 1].price == l.levels[|l.levels| - 1].price
    && l'.chains[..|l.chains| - 1] == l.chains[..|l.chains| - 1]
  }

  lemma EmptyBook(s: Store, spare: nat)
    requires spare == |s| && forall i :: 0 <= i < |s| ==> s[i].Free?
    ensures BookOk(s, spare, map[], Ladder(Buy, [], []), Ladder(Sell, [], []), NIL)
    ensures View(s, Ladder(Buy, [], [])) == [] && View(s, Ladder(Sell, [], [])) == []
    ensures NoneEmpty(Ladder(Buy, [], [])) && NoneEmpty(Ladder(Sell, [], []))
  {
  }

  // ---------------------------------------------------------------- the order in hand

  lemma OrderAcquired(s: Store, spare: nat, idx: Index, own: Ladder, opp: Ladder, o: int, x: Order)
    requires BookOk(s, spare, idx, own, opp, NIL) && spare > 0
    requires 0 <= o < |s| && s[o].Free?
    ensures BookOk(s[o := Live(x)], spare - 1, idx, own, opp, o)
    ensures View(s[o := Live(x)], own) == View(s, own) && View(s[o := Live(x)], opp) == View(s, opp)
  {
    FlatMembers(s, own);
    FlatMembers(s, opp);
    OffBookEdit(s, s[o := Live(x)], spare, spare - 1, idx, own, opp, NIL, o, o);
  }

  lemma OrderReleased(s: Store, spare: nat, idx: Index, own: Ladder, opp: Ladder, o: int, next: int)
    requires BookOk(s, spare, idx, own, opp, o) && o != NIL
    ensures IsLive(s, o)
    ensures BookOk(s[o := Free(next)], spare + 1, idx, own, opp, NIL)
    ensures View(s[o := Free(next)], own) == View(s, own) && View(s[o := Free(next)], opp) == View(s, opp)
  {
    OffBookEdit(s, s[o := Free(next)], spare, spare + 1, idx, own, opp, o, NIL, o);
  }

  /** The pool is exhausted exactly when as many orders rest as it has slots. */
  lemma SpareCounts(s: Store, spare: nat, idx: Index, own: Ladder, opp: Ladder)
    requires BookOk(s, spare, idx, own, opp, NIL)
    ensures |View(s, own)| + |View(s, opp)| == |idx| == |s| - spare
  {
  }

  /** Acquired, queued at the back of its level and indexed: the order rests. */
  lemma OrderRested(s: Store, s': Store, spare: nat, idx: Index, own: Ladder, opp: Ladder, o: int,
                    j: nat, lvl: PriceLevel)
    requires BookOk(s, spare, idx, own, opp, o) && o != NIL
    requires Queueing(s, s', own, j, o, lvl) && At(s, o).id !in idx && At(s, o).price == lvl.price
    ensures BookOk(s', spare, idx[At(s, o).id := o], Queued(own, j, o, lvl), opp, NIL)
    ensures View(s', opp) == View(s, opp)
    ensures View(s', Queued(own, j, o, lvl)) == Insert(own.side, View(s, own), EntryAt(s, o))
  {
    QueueingKeepsBook(s, s', spare, idx, own, opp, o, j, lvl);
    QueueingView(s, s', own, j, o, lvl);
  }

  lemma QuietSweep(r: Request, opp: seq<Entry>)
    ensures !Meets(r, opp) ==> PriceTime.Match(r, opp, r.qty) == Sweep([], opp, r.qty)
  {
  }

  /** A sweep brings no id into the book, so a fresh id is still fresh when the order rests. */
  lemma StillFresh(s: Store, spare: nat, idx: Index, own: Ladder, opp: Ladder, t: int,
                   r: Request, own0: seq<Entry>, opp0: seq<Entry>)
    requires BookOk(s, spare, idx, own, opp, t)
    requires View(s, own) == own0 && View(s, opp) == PriceTime.Match(r, opp0, r.qty).rest
    requires Positive(opp0) && !HasId(own0, r.id) && !HasId(opp0, r.id)
    ensures r.id !in idx
  {
    SweepIntroducesNoId(r, opp0, r.id);
    IndexedIds(s, spare, idx, own, opp, t, r.id);
  }

  lemma ViewPositive(s: Store, spare: nat, idx: Index, own: Ladder, opp: Ladder, t: int)
    requires BookOk(s, spare, idx, own, opp, t)
    ensures Positive(View(s, opp))
  {
    ViewSorted(s, opp);
  }

  lemma LevelAt(s: Store, spare: nat, idx: Index, own: Ladder, opp: Ladder, o: int, j: nat)
    requires BookOk(s, spare, idx, own, opp, o) && o != NIL && j < |own.levels|
    ensures |own.levels| == |own.chains| && Ascending(own.side, own.levels)
    ensures LevelOk(s, own.side, own.levels[j], own.chains[j]) && o !in own.chains[j] && IsLive(s, o)
  {
    InFlat(own.chains, o);
  }

  lemma LadderShape(s: Store, spare: nat, idx: Index, own: Ladder, opp: Ladder, o: int)
    requires BookOk(s, spare, idx, own, opp, o)
    ensures |own.levels| == |own.chains| && Ascending(own.side, own.levels)
    ensures |opp.levels| == |opp.chains| && Ascending(opp.side, opp.levels)
  {
  }

  lemma LadderKept(s: Store, spare: nat, idx: Index, own: Ladder, opp: Ladder, o: int)
    requires BookOk(s, spare, idx, own, opp, o)
    ensures LadderOk(s, opp) && opp.side == Opposite(own.side)
  {
  }

  lemma Overwrite<X>(a: seq<X>, x: X, y: X, b: seq<X>)
    ensures (a + [x] + b)[|a|] == x && (a + [x] + b)[|a| := y] == a + [y] + b
  {
  }

  lemma NonemptyParts(a: seq<seq<int>>, c: seq<int>, b: seq<seq<int>>)
    requires c != [] && (forall i :: 0 <= i < |a| ==> a[i] != []) && (forall i :: 0 <= i < |b| ==> b[i] != [])
    ensures forall i :: 0 <= i < |a + [c] + b| ==> (a + [c] + b)[i] != []
  {
  }

  /** Finding or adding the level and queueing behind it is PutChain. */
  lemma PutChainShape(l: Ladder, l1: Ladder, p: Price, o: int)
    requires |l.levels| == |l.chains|
    requires var j := LowerBound(l.side, l.levels, p);
             l1 == if j < |l.levels| && l.levels[j].price == p then l
                   else AddLevel(l, j, PriceLevel(p, 0, NIL, NIL), [])
    ensures var j := LowerBound(l.side, l.levels, p);
            j < |l1.chains| && PutChain(l, p, o) == l1.chains[j := l1.chains[j] + [o]]
    ensures NoneEmpty(l) ==> forall i :: 0 <= i < |PutChain(l, p, o)| ==> PutChain(l, p, o)[i] != []
  {
    var j := LowerBound(l.side, l.levels, p);
    if !(j < |l.levels| && l.levels[j].price == p) {
      var a, b := l.chains[..j], l.chains[j..];
      assert [] + [o] == [o];
      Overwrite(a, [], [o], b);
      if NoneEmpty(l) {
        NonemptyParts(a, [o], b);
      }
    }
  }

  lemma PushedIsQueueing(s: Store, s': Store, l: Ladder, j: nat, o: int, lvl: PriceLevel)
    requires j < |l.levels| == |l.chains|
    requires LevelOk(s', l.side, lvl, l.chains[j] + [o]) && lvl.price == l.levels[j].price
    requires Entries(s', l.chains[j] + [o]) == Entries(s, l.chains[j]) + [EntryAt(s, o)]
    requires TouchesOnly(s, s', l.side, lvl.price) && SamePayload(s, s')
    ensures Queueing(s, s', l, j, o, lvl)
  {
  }

  // ---------------------------------------------------------------- cancelling

  /** The index leads to an order of this id, and the order's own price and side lead to its
      level. */
  lemma Located(s: Store, spare: nat, idx: Index, own: Ladder, opp: Ladder, id: OrderId) returns (j: nat, k: nat)
    requires BookOk(s, spare, idx, own, opp, NIL) && id in idx && At(s, idx[id]).side == own.side
    ensures j < |own.levels| == |own.chains| && k < |own.chains[j]| && own.chains[j][k] == idx[id]
    ensures At(s, idx[id]).price == own.levels[j].price && At(s, idx[id]).id == id
    ensures LadderOk(s, own) && LevelOk(s, own.side, own.levels[j], own.chains[j])
  {
    FlatMembers(s, opp);
    j, k := FlatMember(s, own, idx[id]);
    assert LevelOk(s, own.side, own.levels[j], own.chains[j]);
  }

  lemma SamePosition(side: Side, levels: seq<PriceLevel>, i: int, j: int)
    requires Ascending(side, levels) && 0 <= i < |levels| && 0 <= j < |levels| && levels[i].price == levels[j].price
    ensures i == j
  {
  }

  lemma StillLive(s: Store, s': Store, o: int)
    requires SamePayload(s, s') && IsLive(s, o)
    ensures IsLive(s', o) && At(s', o).id == At(s, o).id && |s'| == |s|
  {
  }

  lemma ReleasedBoth(s: Store, s': Store, o: int, x: Slot<Order>)
    requires SamePayload(s, s') && IsLive(s, o)
    ensures 0 <= o < |s'| && SamePayload(s[o := x], s'[o := x])
  {
    var t, t' := s[o := x], s'[o := x];
    forall i | i != o
      ensures IsLive(t, i) <==> IsLive(t', i)
      ensures IsLive(t, i) ==> Payload(At(t', i)) == Payload(At(t, i))
    {
      assert IsLive(s, i) <==> IsLive(s', i);
    }
  }

  /** Releasing the unlinked slot does not disturb the joined links. */
  lemma ReleaseUnlinked(s: Store, s1: Store, s2: Store, side: Side, price: Price, c: seq<int>, k: nat)
    requires ChainOk(s, side, price, c) && k < |c|
    requires Unlinked(s, s1, c, k) && TouchesOnly(s, s1, side, price) && SamePayload(s, s1)
    requires |s2| == |s1| && !IsLive(s2, c[k]) && forall i :: 0 <= i < |s1| && i != c[k] ==> s2[i] == s1[i]
    ensures Unlinked(s, s2, c, k) && TouchesOnly(s, s2, side, price)
    ensures forall i :: IsLive(s2, i) <==> IsLive(s, i) && i != c[k]
  {
    AllLinked(s, side, price, c);
    assert forall i :: 0 <= i < |c| && i != k ==> c[i] != c[k];
  }

  lemma UnlinkedIsRemoval(s: Store, s1: Store, l: Ladder, j: nat, k: nat, lvl: PriceLevel, next: int)
    requires LadderOk(s, l) && j < |l.levels| == |l.chains| && k < |l.chains[j]|
    requires var c := l.chains[j];
             && Unlinked(s, s1, c, k) && TouchesOnly(s, s1, l.side, l.levels[j].price) && SamePayload(s, s1)
             && lvl == PriceLevel(l.levels[j].price, (l.levels[j].totalQty - At(s, c[k]).qty) % TWO64,
                                  if k == 0 then Next(c, k) else l.levels[j].head,
                                  if k + 1 == |c| then Prev(c, k) else l.levels[j].tail)
    ensures 0 <= l.chains[j][k] < |s1|
    ensures Removal(s, s1[l.chains[j][k] := Free(next)], l, j, k, lvl)
  {
    hide LadderOk, Unlinked, TouchesOnly, SamePayload, Removal, ChainOk;
    var c := l.chains[j];
    InRange(s, s1, l, j, k);
    ReleaseUnlinked(s, s1, s1[c[k] := Free(next)], l.side, l.levels[j].price, c, k);
    RemovalParts(s, s1[c[k] := Free(next)], l, j, k, lvl);
  }

  lemma InRange(s: Store, s1: Store, l: Ladder, j: nat, k: nat)
    requires LadderOk(s, l) && j < |l.levels| && k < |l.chains[j]| && SamePayload(s, s1)
    ensures 0 <= l.chains[j][k] < |s1| && ChainOk(s, l.side, l.levels[j].price, l.chains[j])
  {
    HeadOf(s, l, j);
    assert LevelOk(s, l.side, l.levels[j], l.chains[j]);
  }

  lemma RemovalParts(s: Store, s2: Store, l: Ladder, j: nat, k: nat, lvl: PriceLevel)
    requires |l.levels| == |l.chains| && j < |l.levels| && k < |l.chains[j]|
    requires var c := l.chains[j];
             && Unlinked(s, s2, c, k) && TouchesOnly(s, s2, l.side, l.levels[j].price)
             && (forall i :: IsLive(s2, i) <==> IsLive(s, i) && i != c[k])
             && lvl == PriceLevel(l.levels[j].price, (l.levels[j].totalQty - At(s, c[k]).qty) % TWO64,
                                  if k == 0 then Next(c, k) else l.levels[j].head,
                                  if k + 1 == |c| then Prev(c, k) else l.levels[j].tail)
    ensures Removal(s, s2, l, j, k, lvl)
  {
  }

  lemma OtherSideLacks(s: Store, spare: nat, idx: Index, own: Ladder, opp: Ladder, j: nat, k: nat)
    requires BookOk(s, spare, idx, own, opp, NIL) && j < |own.levels| == |own.chains| && k < |own.chains[j]|
    ensures !HasId(View(s, opp), At(s, own.chains[j][k]).id)
  {
    hide LadderOk, View, HasId;
    RemovedSlot(s, opp, own, j, k);
    IndexedIds(s, spare, idx, opp, own, NIL, At(s, own.chains[j][k]).id);
  }

  /** The order is gone from its side and from the index, and an exhausted level with it. */
  lemma CancelKeepsBook(s: Store, s': Store, spare: nat, idx: Index, own: Ladder, opp: Ladder,
                        j: nat, k: nat, lvl: PriceLevel)
    requires BookOk(s, spare, idx, own, opp, NIL)
    requires j < |own.levels| == |own.chains| && k < |own.chains[j]| && Removal(s, s', own, j, k, lvl)
    ensures var id := At(s, own.chains[j][k]).id;
            var own1 := Removed(own, j, k, lvl);
            var own' := if lvl.Empty() then DropLevel(own1, j) else own1;
            && BookOk(s', spare + 1, idx - {id}, own', opp, NIL)
            && View(s', own') == Without(View(s, own), id)
            && View(s', opp) == View(s, opp) && Without(View(s, opp), id) == View(s, opp)
            && HasId(View(s, own), id)
            && (NoneEmpty(own) ==> NoneEmpty(own'))
  {
    hide LadderOk, View, Removal, Without, HasId, DistinctIds, Indexed;
    var id := At(s, own.chains[j][k]).id;
    var own1 := Removed(own, j, k, lvl);
    BookOkSymmetric(s, spare, idx, own, opp, NIL);
    RemovalKeepsBook(s, s', spare, idx, opp, own, NIL, j, k, lvl);
    ViewsDistinct(s, spare, idx, own, opp, NIL);
    RemovalViews(s, s', own, j, k, lvl);
    OtherSideLacks(s, spare, idx, own, opp, j, k);
    Conservation.NoSuchId(View(s, opp), id);
    HeadOf(s', own1, j);
    if lvl.Empty() {
      DropKeepsBook(s', spare + 1, idx - {id}, opp, own1, NIL, j);
    }
    BookOkSymmetric(s', spare + 1, idx - {id}, opp, if lvl.Empty() then DropLevel(own1, j) else own1, NIL);
  }

  lemma CutChainShape(s: Store, l: Ladder, j: nat, k: nat, lvl: PriceLevel)
    requires LadderOk(s, l) && j < |l.levels| && k < |l.chains[j]|
    requires lvl.Empty() <==> Remove(l.chains[j], k) == []
    ensures var l1 := Removed(l, j, k, lvl);
            CutChain(l, l.levels[j].price, l.chains[j][k]) == if lvl.Empty() then DropLevel(l1, j).chains else l1.chains
  {
    LowerBoundUnique(l.side, l.levels, l.levels[j].price, j);
    HeadOf(s, l, j);
    DropIsRemove(l.chains[j], k);
    assert l.chains[j := Remove(l.chains[j], k)][j + 1..] == l.chains[j + 1..];
  }

  class OrderBook {
    const pool: ObjectPool<Order>
    const bids: SideBook
    const asks: SideBook
    var idIndex: Index
    var clock: Timestamp

    ghost predicate Ok(own: SideBook, opp: SideBook, t: int)
      reads this, pool, pool.storage, own, opp
    {
      pool.Valid() && own != opp && BookOk(pool.Store(), |pool.free|, idIndex, own.AsLadder(), opp.AsLadder(), t)
    }

    /** The reference book this object stands for. */
    ghost function Abs(): Book
      reads this, pool, pool.storage, bids, asks
    {
      Book(View(pool.Store(), bids.AsLadder()), View(pool.Store(), asks.AsLadder()), clock)
    }

    ghost predicate Valid()
      reads this, pool, pool.storage, bids, asks
    {
      && bids.side == Buy && asks.side == Sell
      && Ok(bids, asks, NIL)
      && NoneEmpty(bids.AsLadder()) && NoneEmpty(asks.AsLadder())
    }

    constructor (capacity: nat)
      requires capacity >= 1
      ensures Valid() && Abs() == EMPTY && pool.Capacity() == capacity
      ensures fresh(pool) && fresh(pool.storage) && fresh(bids) && fresh(asks)
    {
      hide FreeListOk, BookOk, View, NoneEmpty;
      pool := new ObjectPool(capacity);
      bids := new SideBook(Buy);
      asks := new SideBook(Sell);
      idIndex := map[];
      clock := 0;
      new;
      EmptyBook(pool.Store(), |pool.free|);
    }

    /** Take `fill` off the first order of queue `c` and off its level; an exhausted order is
        deindexed, unlinked from its successor and released. */
    method FillMaker(lvl: PriceLevel, ghost c: seq<int>, fill: Quantity) returns (lvl': PriceLevel)
      requires pool.Valid() && c != [] && lvl.head == c[0] && IsLive(pool.Store(), c[0])
      requires 0 < fill <= At(pool.Store(), c[0]).qty
      requires At(pool.Store(), c[0]).next == Next(c, 0)
      requires |c| == 1 <==> Next(c, 0) == NIL
      requires |c| > 1 ==> IsLive(pool.Store(), c[1]) && c[1] != c[0]
      modifies this`idIndex, pool, pool.storage
      ensures pool.Valid()
      ensures var s, m := old(pool.Store()), At(old(pool.Store()), c[0]);
              var total := (lvl.totalQty - fill) % TWO64;
              if fill == m.qty then
                && HeadReleased(s, pool.Store(), c)
                && pool.free == [c[0]] + old(pool.free) && idIndex == old(idIndex) - {m.id}
                && lvl' == lvl.(totalQty := total, head := Next(c, 0), tail := if |c| == 1 then NIL else lvl.tail)
              else
                && pool.Store() == s[c[0] := Live(m.(qty := m.qty - fill))]
                && pool.free == old(pool.free) && idIndex == old(idIndex) && lvl' == lvl.(totalQty := total)
    {
      hide FreeListOk, HeadReleased;
      ghost var s1 := pool.Store();
      var maker := pool.Get(lvl.head);
      maker := maker.(qty := maker.qty - fill);
      pool.Put(lvl.head, maker);
      ghost var s2 := pool.Store();
      lvl' := lvl.(totalQty := (lvl.totalQty - fill) % TWO64);
      if maker.qty == 0 {
        idIndex := idIndex - {maker.id};
        lvl' := PopHead(pool, lvl', c);
        ReleasedAfterWrite(s1, s2, pool.Store(), c, maker);
      }
    }

    /** The best level and its first order lose `fill`; an exhausted order leaves the book. */
    method TakeFromBest(ghost own: SideBook, opp: SideBook, ghost t: int, fill: Quantity)
      requires Ok(own, opp, t) && opp.levels != [] && opp.chains[|opp.levels| - 1] != []
      requires 0 < fill <= At(pool.Store(), opp.chains[|opp.levels| - 1][0]).qty
      modifies this`idIndex, pool, pool.storage, opp
      ensures Ok(own, opp, t)
      ensures SameButLast(old(opp.AsLadder()), opp.AsLadder())
      ensures IsLive(old(pool.Store()), t) ==>
                IsLive(pool.Store(), t) && At(pool.Store(), t) == At(old(pool.Store()), t)
      ensures View(pool.Store(), own.AsLadder()) == old(View(pool.Store(), own.AsLadder()))
      ensures View(pool.Store(), opp.AsLadder()) == AfterFill(old(View(pool.Store(), opp.AsLadder())), fill)
    {
      hide FreeListOk, BookOk, View, HeadReleased, Distinct, AfterFill, SameButLast;
      ghost var s1, idx0, free0 := pool.Store(), idIndex, pool.free;
      ghost var l, o := opp.AsLadder(), own.AsLadder();
      BestHead(s1, |free0|, idx0, o, l, t);
      ghost var n := |l.levels| - 1;
      ghost var c := l.chains[n];

      var b := opp.Best();
      var lvl := FillMaker(opp.levels[b], c, fill);
      ghost var c' := if fill == At(s1, c[0]).qty then c[1..] else c;
      if fill == At(s1, c[0]).qty {
        MakerExhausted(s1, pool.Store(), |free0|, idx0, o, l, t, lvl);
        ReleasedKeeps(s1, pool.Store(), c, t);
      } else {
        FilledInPart(s1, pool.Store(), l, fill, lvl);
        MakerReduced(s1, pool.Store(), |free0|, idx0, o, l, t, fill, lvl);
      }
      SetLast(l, lvl, c');
      opp.Set(b, lvl, c');
    }

    /** One iteration of the inner matching loop: fill the taker from the head of the best
        level. */
    method FillHead(ghost own: SideBook, opp: SideBook, t: int, ghost r: Request) returns (trade: Trade)
      requires Ok(own, opp, t) && opp.levels != [] && opp.chains[|opp.levels| - 1] != []
      requires TakerAt(pool.Store(), t, r, At(pool.Store(), t).qty) && At(pool.Store(), t).qty > 0
      requires Crosses(r, opp.levels[|opp.levels| - 1].price)
      modifies this`idIndex, pool, pool.storage, opp
      ensures Ok(own, opp, t)
      ensures SameButLast(old(opp.AsLadder()), opp.AsLadder())
      ensures var q, q' := old(At(pool.Store(), t).qty), At(pool.Store(), t).qty;
              && TakerAt(pool.Store(), t, r, q') && q' < q
              && PriceTime.Match(r, old(View(pool.Store(), opp.AsLadder())), q)
                 == PriceTime.Match(r, View(pool.Store(), opp.AsLadder()), q').Prepend([trade])
      ensures View(pool.Store(), own.AsLadder()) == old(View(pool.Store(), own.AsLadder()))
    {
      hide FreeListOk, BookOk, View, PriceTime.Match, Distinct;
      ghost var s0 := pool.Store();
      ghost var l, o := opp.AsLadder(), own.AsLadder();
      BestHead(s0, |pool.free|, idIndex, o, l, t);
      MatchStep(r, View(s0, l), At(s0, t).qty);

      var lvl := opp.levels[opp.Best()];
      var taker, maker := pool.Get(t), pool.Get(lvl.head);
      var fill: Quantity := Min(taker.qty, maker.qty);
      trade := Trade(maker.id, taker.id, lvl.price, fill, taker.ts);
      pool.Put(t, taker.(qty := taker.qty - fill));
      TakerReduced(s0, pool.Store(), |pool.free|, idIndex, o, l, t, fill);
      TakeFromBest(own, opp, t, fill);
    }

    /** The inner loop: trade with the best level until it or the taker is exhausted. */
    method MatchLevel(ghost own: SideBook, opp: SideBook, t: int, ghost r: Request) returns (trades: seq<Trade>)
      requires Ok(own, opp, t) && opp.levels != []
      requires TakerAt(pool.Store(), t, r, At(pool.Store(), t).qty)
      requires Crosses(r, opp.levels[|opp.levels| - 1].price)
      modifies this`idIndex, pool, pool.storage, opp
      ensures Ok(own, opp, t)
      ensures SameButLast(old(opp.AsLadder()), opp.AsLadder())
      ensures var q, q' := old(At(pool.Store(), t).qty), At(pool.Store(), t).qty;
              && TakerAt(pool.Store(), t, r, q') && q' <= q
              && (q' == 0 || opp.chains[|opp.chains| - 1] == [])
              && PriceTime.Match(r, old(View(pool.Store(), opp.AsLadder())), q)
                 == PriceTime.Match(r, View(pool.Store(), opp.AsLadder()), q').Prepend(trades)
      ensures old(opp.chains[|opp.levels| - 1] != [] && At(pool.Store(), t).qty > 0) ==>
                At(pool.Store(), t).qty < old(At(pool.Store(), t).qty)
      ensures View(pool.Store(), own.AsLadder()) == old(View(pool.Store(), own.AsLadder()))
    {
      hide FreeListOk, BookOk, View, PriceTime.Match, Distinct;
      trades := [];
      BestHead(pool.Store(), |pool.free|, idIndex, own.AsLadder(), opp.AsLadder(), t);
      while pool.Get(t).qty > 0 && opp.levels[opp.Best()].head != NIL
        invariant Ok(own, opp, t)
        invariant SameButLast(old(opp.AsLadder()), opp.AsLadder())
        invariant TakerAt(pool.Store(), t, r, At(pool.Store(), t).qty)
        invariant At(pool.Store(), t).qty <= old(At(pool.Store(), t).qty)
        invariant trades != [] ==> At(pool.Store(), t).qty < old(At(pool.Store(), t).qty)
        invariant trades == [] ==> opp.AsLadder() == old(opp.AsLadder())
        invariant opp.levels[|opp.levels| - 1].head == NIL <==> opp.chains[|opp.levels| - 1] == []
        invariant PriceTime.Match(r, old(View(pool.Store(), opp.AsLadder())), old(At(pool.Store(), t).qty))
                  == PriceTime.Match(r, View(pool.Store(), opp.AsLadder()), At(pool.Store(), t).qty).Prepend(trades)
        invariant View(pool.Store(), own.AsLadder()) == old(View(pool.Store(), own.AsLadder()))
        decreases At(pool.Store(), t).qty
      {
        var trade := FillHead(own, opp, t, r);
        trades := trades + [trade];
        BestHead(pool.Store(), |pool.free|, idIndex, own.AsLadder(), opp.AsLadder(), t);
      }
    }

    /** Match against the best level, and erase it if that exhausts it. */
    method SweepLevel(ghost own: SideBook, opp: SideBook, t: int, ghost r: Request) returns (trades: seq<Trade>)
      requires Ok(own, opp, t) && NoneEmpty(opp.AsLadder()) && opp.levels != []
      requires TakerAt(pool.Store(), t, r, At(pool.Store(), t).qty) && At(pool.Store(), t).qty > 0
      requires Crosses(r, opp.levels[|opp.levels| - 1].price)
      modifies this`idIndex, pool, pool.storage, opp
      ensures Ok(own, opp, t) && NoneEmpty(opp.AsLadder())
      ensures var q, q' := old(At(pool.Store(), t).qty), At(pool.Store(), t).qty;
              && TakerAt(pool.Store(), t, r, q') && q' < q
              && PriceTime.Match(r, old(View(pool.Store(), opp.AsLadder())), q)
                 == PriceTime.Match(r, View(pool.Store(), opp.AsLadder()), q').Prepend(trades)
      ensures View(pool.Store(), own.AsLadder()) == old(View(pool.Store(), own.AsLadder()))
    {
      hide FreeListOk, BookOk, View, PriceTime.Match, Distinct, TakerAt, Crosses;
      BestView(pool.Store(), |pool.free|, idIndex, own.AsLadder(), opp.AsLadder(), t);
      ghost var l := opp.AsLadder();
      trades := MatchLevel(own, opp, t, r);
      BestHead(pool.Store(), |pool.free|, idIndex, own.AsLadder(), opp.AsLadder(), t);
      StillNoneEmpty(l, opp.AsLadder());
      var best := opp.Best();
      if opp.levels[best].Empty() {
        DropKeepsBook(pool.Store(), |pool.free|, idIndex, own.AsLadder(), opp.AsLadder(), t, best);
        opp.EraseIfEmpty(best);
      }
    }

    /** The outer loop: sweep level after level while prices cross. */
    method Match(takerSide: Side, ghost own: SideBook, opp: SideBook, t: int, ghost r: Request)
        returns (trades: seq<Trade>)
      requires Ok(own, opp, t) && NoneEmpty(opp.AsLadder()) && takerSide == r.side
      requires TakerAt(pool.Store(), t, r, At(pool.Store(), t).qty)
      modifies this`idIndex, pool, pool.storage, opp
      ensures Ok(own, opp, t) && NoneEmpty(opp.AsLadder())
      ensures TakerAt(pool.Store(), t, r, At(pool.Store(), t).qty)
      ensures PriceTime.Match(r, old(View(pool.Store(), opp.AsLadder())), old(At(pool.Store(), t).qty))
              == Sweep(trades, View(pool.Store(), opp.AsLadder()), At(pool.Store(), t).qty)
      ensures View(pool.Store(), own.AsLadder()) == old(View(pool.Store(), own.AsLadder()))
      ensures !old(Meets(r, View(pool.Store(), opp.AsLadder()))) ==>
                && trades == [] && SameBooks(old(pool.Store()), old(pool.free), old(idIndex), opp, old(opp.AsLadder()))
    {
      hide FreeListOk, BookOk, View, PriceTime.Match, Distinct, TakerAt, Crosses;
      ghost var s0, free0, idx0, l0 := pool.Store(), pool.free, idIndex, opp.AsLadder();
      ghost var opp0, own0, q0 := View(s0, l0), View(s0, own.AsLadder()), At(s0, t).qty;
      trades := [];
      TakerFacts(pool.Store(), t, r, At(pool.Store(), t).qty);
      while pool.Get(t).qty > 0
        invariant Ok(own, opp, t) && NoneEmpty(opp.AsLadder())
        invariant IsLive(pool.Store(), t) && TakerAt(pool.Store(), t, r, At(pool.Store(), t).qty)
        invariant PriceTime.Match(r, opp0, q0)
                  == PriceTime.Match(r, View(pool.Store(), opp.AsLadder()), At(pool.Store(), t).qty).Prepend(trades)
        invariant View(pool.Store(), own.AsLadder()) == own0
        invariant !Meets(r, opp0) ==> trades == [] && SameBooks(s0, free0, idx0, opp, l0)
        decreases At(pool.Store(), t).qty
      {
        BestView(pool.Store(), |pool.free|, idIndex, own.AsLadder(), opp.AsLadder(), t);
        TakerCrosses(pool.Store(), t, r, At(pool.Store(), t).qty);
        var best := opp.Best();
        if best == NIL {
          break;
        }
        var unlimited := pool.Get(t).kind == Market;
        if !unlimited && !PriceCrosses(takerSide, pool.Get(t).price, opp.levels[best].price) {
          break;
        }
        var ts := SweepLevel(own, opp, t, r);
        trades := trades + ts;
        TakerFacts(pool.Store(), t, r, At(pool.Store(), t).qty);
      }
      SweepStops(r, View(pool.Store(), opp.AsLadder()), At(pool.Store(), t).qty);
    }

    ghost predicate SameBooks(s: Store, free: seq<int>, idx: Index, opp: SideBook, l: Ladder)
      reads this, pool, pool.storage, opp
    {
      pool.Store() == s && pool.free == free && idIndex == idx && opp.AsLadder() == l
    }

    method Rest(own: SideBook, ghost opp: SideBook, o: int)
      requires Ok(own, opp, o) && o != NIL && NoneEmpty(own.AsLadder())
      requires var x := At(pool.Store(), o); x.side == own.side && x.qty > 0 && x.id !in idIndex
      modifies this`idIndex, pool.storage, own
      ensures Ok(own, opp, NIL) && NoneEmpty(own.AsLadder())
      ensures View(pool.Store(), opp.AsLadder()) == old(View(pool.Store(), opp.AsLadder()))
      ensures View(pool.Store(), own.AsLadder())
              == Insert(own.side, old(View(pool.Store(), own.AsLadder())), old(EntryAt(pool.Store(), o)))
      ensures own.chains == PutChain(old(own.AsLadder()), old(At(pool.Store(), o).price), o)
      ensures SamePayload(old(pool.Store()), pool.Store())
      ensures idIndex == old(idIndex)[old(At(pool.Store(), o).id) := o]
    {
      hide FreeListOk, BookOk, View, Insert;
      ghost var s0, l0, r0, free := pool.Store(), own.AsLadder(), opp.AsLadder(), |pool.free|;
      LadderShape(s0, free, idIndex, l0, r0, o);
      OrderReleased(s0, free, idIndex, l0, r0, o, NIL);
      var x := pool.Get(o);
      var j := own.GetOrInsert(x.price);
      if own.AsLadder() != l0 {
        AddKeepsBook(s0, free, idIndex, l0, r0, o, x.price);
      }
      ghost var l1, c := own.AsLadder(), own.chains[j];
      LevelAt(s0, free, idIndex, l1, r0, o, j);
      var lvl := PushBack(pool, own.levels[j], o, own.side, c);
      PushedIsQueueing(s0, pool.Store(), l1, j, o, lvl);
      OrderRested(s0, pool.Store(), free, idIndex, l1, r0, o, j, lvl);
      own.Set(j, lvl, c + [o]);
      PutChainShape(l0, l1, x.price, o);
      if x.id !in idIndex {
        idIndex := idIndex[x.id := o];
      }
    }

    /** The fill-or-kill walk from the best level down, over cached totals. */
    method FokPasses(opp: SideBook, r: Request) returns (pass: bool)
      requires r.kind == FOK && opp.side == Opposite(r.side) && LadderOk(pool.Store(), opp.AsLadder())
      ensures pass <==> Passes(r, View(pool.Store(), opp.AsLadder()))
    {
      hide LadderOk, View, AdmittedTotals;
      WalkIsAdmittedTotals(pool.Store(), opp.AsLadder(), r);
      var needed: nat, k := r.qty, |opp.levels|;
      assert opp.levels[..k] == opp.levels;
      while k > 0 && needed > 0
        invariant 0 <= k <= |opp.levels|
        invariant needed > 0 ==> WalkQty(r, opp.levels) == r.qty - needed + WalkQty(r, opp.levels[..k])
        invariant needed == 0 ==> WalkQty(r, opp.levels) >= r.qty
      {
        var lvl := opp.levels[k - 1];
        assert opp.levels[..k][..k - 1] == opp.levels[..k - 1];
        if !PriceCrosses(r.side, r.price, lvl.price) {
          break;
        }
        needed := if lvl.totalQty >= needed then 0 else needed - lvl.totalQty;
        k := k - 1;
      }
      pass := needed == 0;
    }

    function SideOf(side: Side): SideBook
      reads this
    {
      if side == Buy then bids else asks
    }

    /** A Limit order that finds a free slot and nothing to trade with. */
    ghost predicate Quiet(r: Request)
      reads this, pool, pool.storage, bids, asks
    {
      r.kind == Limit && r.qty > 0 && pool.free != [] && !Meets(r, Abs().On(Opposite(r.side)))
    }

    /** Acquire a slot and write the stamped order into it. */
    method Take(r: Request) returns (o: int, ghost r1: Request)
      requires Valid() && r.qty > 0
      modifies this`clock, pool, pool.storage
      ensures pool.Valid()
      ensures o == NIL <==> old(Abs()).Resting() >= pool.Capacity()
      ensures o == NIL <==> old(pool.free) == []
      ensures old(pool.free) == [] ==>
                Valid() && clock == old(clock) && pool.Store() == old(pool.Store()) && pool.free == []
      ensures old(pool.free) != [] ==>
                && o == old(pool.free)[0] && pool.free == old(pool.free)[1..] && 0 <= o < pool.storage.Length
                && r1 == r.(ts := Stamp(old(Abs()), r)) && clock == NextClock(old(Abs()), r)
                && pool.Store() == old(pool.Store())[o := Live(Order(r.id, r.price, r.qty, r1.ts, r.side, r.kind,
                                                                     NIL, NIL))]
                && Ok(bids, asks, o) && TakerAt(pool.Store(), o, r1, r.qty)
                && Abs() == old(Abs()).(clock := clock)
    {
      hide FreeListOk, BookOk, View;
      ghost var s0, n := pool.Store(), |pool.free|;
      r1 := r;
      SpareCounts(s0, n, idIndex, bids.AsLadder(), asks.AsLadder());
      o := pool.Acquire(BLANK);
      if o == NIL {
        return;
      }
      var ts := r.ts;
      if ts == 0 {
        clock := (clock + 1) % TWO64;
        ts := clock;
      }
      r1 := r.(ts := ts);
      var x := Order(r.id, r.price, r.qty, ts, r.side, r.kind, NIL, NIL);
      pool.Put(o, x);
      OrderAcquired(s0, n, idIndex, bids.AsLadder(), asks.AsLadder(), o, x);
      assert pool.Store() == s0[o := Live(x)];
    }

    /** Against the given state, slot `o` has been queued at the back of the level at
        `price` and indexed under `id`; nothing else has changed. */
    ghost predicate Queued(id: OrderId, price: Price, o: int, s: Store, free: seq<int>, idx: Index,
                           own: SideBook, ownL: Ladder, opp: SideBook, oppL: Ladder)
      requires |ownL.levels| == |ownL.chains|
      reads this, pool, pool.storage, own, opp
    {
      && pool.free == free && idIndex == idx[id := o] && opp.AsLadder() == oppL
      && own.chains == PutChain(ownL, price, o) && SamePayload(s, pool.Store())
    }

    /** Match the order in slot `o`, then rest it or give its slot back. */
    method Execute(own: SideBook, opp: SideBook, o: int, ghost r1: Request) returns (trades: seq<Trade>)
      requires Ok(own, opp, o) && o != NIL && own.side == r1.side && r1.qty > 0
      requires NoneEmpty(own.AsLadder()) && NoneEmpty(opp.AsLadder())
      requires TakerAt(pool.Store(), o, r1, r1.qty)
      requires r1.kind == Limit ==> !HasId(View(pool.Store(), own.AsLadder()), r1.id)
                                    && !HasId(View(pool.Store(), opp.AsLadder()), r1.id)
      modifies this`idIndex, pool, pool.storage, own, opp
      ensures Ok(own, opp, NIL) && NoneEmpty(own.AsLadder()) && NoneEmpty(opp.AsLadder())
      ensures (View(pool.Store(), own.AsLadder()), View(pool.Store(), opp.AsLadder()), trades)
              == PriceTime.Process(r1, old(View(pool.Store(), own.AsLadder())),
                                   old(View(pool.Store(), opp.AsLadder())), true)
      ensures r1.kind == Limit && !old(Meets(r1, View(pool.Store(), opp.AsLadder()))) ==>
                && trades == []
                && Queued(r1.id, r1.price, o, old(pool.Store()), old(pool.free), old(idIndex),
                          own, old(own.AsLadder()), opp, old(opp.AsLadder()))
    {
      hide FreeListOk, BookOk, View, PriceTime.Match, Insert, PutChain, HasId;
      ghost var own0, opp0 := View(pool.Store(), own.AsLadder()), View(pool.Store(), opp.AsLadder());
      ViewPositive(pool.Store(), |pool.free|, idIndex, own.AsLadder(), opp.AsLadder(), o);
      QuietSweep(r1, opp0);
      trades := Match(own.side, own, opp, o, r1);
      var remaining := pool.Get(o).qty;
      if remaining > 0 && pool.Get(o).kind == Limit {
        StillFresh(pool.Store(), |pool.free|, idIndex, own.AsLadder(), opp.AsLadder(), o, r1, own0, opp0);
        Rest(own, opp, o);
      } else {
        OrderReleased(pool.Store(), |pool.free|, idIndex, own.AsLadder(), opp.AsLadder(), o, First(pool.free));
        pool.Release(o);
      }
    }

    /** Nothing but the clock may differ from the given state. */
    ghost predicate SameAs(store: Store, free: seq<int>, idx: Index, bl: Ladder, al: Ladder)
      reads this, pool, pool.storage, bids, asks
    {
      && pool.Store() == store && pool.free == free && idIndex == idx
      && bids.AsLadder() == bl && asks.AsLadder() == al
    }

    /** Process the stamped order in slot `o`: a fill-or-kill order first takes the check and
        gives its slot back if it is rejected. */
    method Process(own: SideBook, opp: SideBook, o: int, r: Request, ghost r1: Request) returns (trades: seq<Trade>)
      requires Ok(own, opp, o) && o != NIL && own.side == r.side && r.qty > 0 && r1 == r.(ts := r1.ts)
      requires NoneEmpty(own.AsLadder()) && NoneEmpty(opp.AsLadder())
      requires TakerAt(pool.Store(), o, r1, r1.qty)
      requires r1.kind == Limit ==> !HasId(View(pool.Store(), own.AsLadder()), r1.id)
                                    && !HasId(View(pool.Store(), opp.AsLadder()), r1.id)
      modifies this`idIndex, pool, pool.storage, own, opp
      ensures Ok(own, opp, NIL) && NoneEmpty(own.AsLadder()) && NoneEmpty(opp.AsLadder())
      ensures (View(pool.Store(), own.AsLadder()), View(pool.Store(), opp.AsLadder()), trades)
              == PriceTime.Process(r1, old(View(pool.Store(), own.AsLadder())), old(View(pool.Store(), opp.AsLadder())),
                                   Passes(r, old(View(pool.Store(), opp.AsLadder()))))
      ensures r.kind == FOK && !Passes(r, old(View(pool.Store(), opp.AsLadder()))) ==>
                && pool.Store() == old(pool.Store())[o := Free(First(old(pool.free)))]
                && pool.free == [o] + old(pool.free) && idIndex == old(idIndex)
                && own.AsLadder() == old(own.AsLadder()) && opp.AsLadder() == old(opp.AsLadder())
      ensures r1.kind == Limit && !old(Meets(r1, View(pool.Store(), opp.AsLadder()))) ==>
                && trades == []
                && Queued(r1.id, r1.price, o, old(pool.Store()), old(pool.free), old(idIndex),
                          own, old(own.AsLadder()), opp, old(opp.AsLadder()))
    {
      hide FreeListOk, BookOk, View, PriceTime.Match, Insert, PutChain, HasId, Passes, Queued;
      if r.kind == FOK {
        LadderKept(pool.Store(), |pool.free|, idIndex, own.AsLadder(), opp.AsLadder(), o);
        var pass := FokPasses(opp, r);
        if !pass {
          OrderReleased(pool.Store(), |pool.free|, idIndex, own.AsLadder(), opp.AsLadder(), o, First(pool.free));
          pool.Release(o);
          return [];
        }
      }
      trades := Execute(own, opp, o, r1);
    }

    method Submit(r: Request) returns (ok: bool, trades: seq<Trade>)
      requires Valid() && Legal(Abs(), SubmitOp(r))
      modifies this, pool, pool.storage, bids, asks
      ensures Valid()
      // what the call does to the reference book and reports
      ensures Outcome(Abs(), ok, trades) == PriceTime.Submit(old(Abs()), r, pool.Capacity())
      // refused exactly when an order finds the pool exhausted by resting orders
      ensures !ok <==> r.qty > 0 && old(RestingOrders()) == pool.Capacity()
      // a call that is turned away leaves every slot, link, level and index entry as it was
      ensures !ok || r.qty == 0 || (r.kind == FOK && !Passes(r, old(Abs()).On(Opposite(r.side)))) ==>
                SameAs(old(pool.Store()), old(pool.free), old(idIndex), old(bids.AsLadder()), old(asks.AsLadder()))
      // an order that meets nothing goes to the back of its level, in the first free slot
      ensures old(Quiet(r)) ==>
                && ok && trades == []
                && var x := BLANK.(id := r.id, side := r.side, price := r.price, qty := r.qty,
                                   ts := Stamp(old(Abs()), r));
                   Queued(r.id, r.price, old(pool.free)[0], old(pool.Store())[old(pool.free)[0] := Live(x)],
                          old(pool.free)[1..], old(idIndex), SideOf(r.side), old(SideOf(r.side).AsLadder()),
                          SideOf(Opposite(r.side)), old(SideOf(Opposite(r.side)).AsLadder()))
    {
      hide FreeListOk, BookOk, View, PriceTime.Process, HasId, Passes, Queued;
      Accessors();
      if r.qty == 0 {
        return true, [];
      }
      if pool.free != [] {
        HeadSlot(pool.Store(), pool.freeHead, pool.free);
      }
      var own, opp := SideOf(r.side), SideOf(Opposite(r.side));
      ghost var r1;
      var o;
      o, r1 := Take(r);
      if o == NIL {
        return false, [];
      }
      OkSymmetric(own, opp, o);
      trades := Process(own, opp, o, r, r1);
      OkSymmetric(own, opp, NIL);
      ok := true;
    }

    lemma OkSymmetric(own: SideBook, opp: SideBook, t: int)
      ensures Ok(own, opp, t) <==> Ok(opp, own, t)
    {
      if BookOk(pool.Store(), |pool.free|, idIndex, own.AsLadder(), opp.AsLadder(), t) {
        BookOkSymmetric(pool.Store(), |pool.free|, idIndex, own.AsLadder(), opp.AsLadder(), t);
      }
      if BookOk(pool.Store(), |pool.free|, idIndex, opp.AsLadder(), own.AsLadder(), t) {
        BookOkSymmetric(pool.Store(), |pool.free|, idIndex, opp.AsLadder(), own.AsLadder(), t);
      }
    }

    /** The best bid price, 0 on an empty side. */
    function BestBid(): Price
      reads this, bids
    {
      if bids.Best() == NIL then 0 else bids.levels[bids.Best()].price
    }

    /** The best ask price, 0 on an empty side. */
    function BestAsk(): Price
      reads this, asks
    {
      if asks.Best() == NIL then 0 else asks.levels[asks.Best()].price
    }

    function RestingOrders(): nat
      reads this
    {
      |idIndex|
    }

    /** The accessors report the reference book. */
    lemma Accessors()
      requires Valid()
      ensures BestBid() == if Abs().bids == [] then 0 else Abs().bids[0].price
      ensures BestAsk() == if Abs().asks == [] then 0 else Abs().asks[0].price
      ensures RestingOrders() == Abs().Resting() <= pool.Capacity()
    {
      hide BookOk, View;
      OkSymmetric(bids, asks, NIL);
      BestView(pool.Store(), |pool.free|, idIndex, bids.AsLadder(), asks.AsLadder(), NIL);
      BestView(pool.Store(), |pool.free|, idIndex, asks.AsLadder(), bids.AsLadder(), NIL);
      SpareCounts(pool.Store(), |pool.free|, idIndex, bids.AsLadder(), asks.AsLadder());
    }

    /** Every slot of the pool is in exactly one place: the free list, a bid queue or an ask
        queue; no list visits a slot twice; and the index is a bijection from ids onto the
        queued slots. */
    lemma SlotsAreAccountedFor()
      requires Valid()
      ensures var b, a := Flat(bids.chains), Flat(asks.chains);
              && Distinct(pool.free) && Distinct(b) && Distinct(a)
              && (forall i :: 0 <= i < pool.storage.Length ==>
                    && (i in pool.free || i in b || i in a)
                    && !(i in pool.free && i in b) && !(i in pool.free && i in a) && !(i in b && i in a))
              && (forall i :: i in b || i in a ==>
                    At(pool.Store(), i).id in idIndex && idIndex[At(pool.Store(), i).id] == i)
              && (forall id :: id in idIndex ==>
                    (idIndex[id] in b || idIndex[id] in a) && At(pool.Store(), idIndex[id]).id == id)
              && |pool.free| + |b| + |a| == pool.storage.Length
    {
      var s := pool.Store();
      FlatDistinct(s, bids.AsLadder());
      FlatDistinct(s, asks.AsLadder());
      FlatMembers(s, bids.AsLadder());
      FlatMembers(s, asks.AsLadder());
      assert forall i :: i in pool.free ==> 0 <= i < |s| && s[i].Free?;
      assert forall i :: 0 <= i < |s| ==> IsLive(s, i) || s[i].Free?;
    }

    lemma IndexKnows(id: OrderId)
      requires Valid()
      ensures id in idIndex <==> HasId(Abs().bids, id) || HasId(Abs().asks, id)
      ensures id in idIndex ==> IsLive(pool.Store(), idIndex[id]) && At(pool.Store(), idIndex[id]).id == id
    {
      IndexedIds(pool.Store(), |pool.free|, idIndex, bids.AsLadder(), asks.AsLadder(), NIL, id);
    }

    /** Against the given state, exactly the order of this id has been taken out. */
    ghost predicate Withdrawn(id: OrderId, s: Store, free: seq<int>, idx: Index, bl: Ladder, al: Ladder)
      requires |bl.levels| == |bl.chains| && |al.levels| == |al.chains|
      reads this, pool, pool.storage, bids, asks
    {
      && id in idx && IsLive(s, idx[id])
      && var o, x := idx[id], At(s, idx[id]);
         && pool.free == [o] + free && idIndex == idx - {id}
         && bids.chains == (if x.side == Buy then CutChain(bl, x.price, o) else bl.chains)
         && asks.chains == (if x.side == Sell then CutChain(al, x.price, o) else al.chains)
         && (x.side == Buy ==> asks.AsLadder() == al)
         && (x.side == Sell ==> bids.AsLadder() == bl)
         && SamePayload(s[o := Free(First(free))], pool.Store())
    }

    /** Find the order's level, unlink it there, and erase the level if that empties it. */
    method CutOut(own: SideBook, ghost opp: SideBook, o: int, ghost id: OrderId)
      requires Ok(own, opp, NIL) && NoneEmpty(own.AsLadder())
      requires id in idIndex && idIndex[id] == o && IsLive(pool.Store(), o) && At(pool.Store(), o).side == own.side
      modifies pool.storage, own
      ensures pool.Valid() && NoneEmpty(own.AsLadder())
      ensures IsLive(pool.Store(), o) && At(pool.Store(), o).id == id
      ensures own.chains == CutChain(old(own.AsLadder()), old(At(pool.Store(), o)).price, o)
      // with the slot released and the id deindexed, the book is whole again
      ensures var s, s' := old(pool.Store()), pool.Store()[o := Free(First(pool.free))];
              && SamePayload(s[o := Free(First(pool.free))], s')
              && BookOk(s', |pool.free| + 1, idIndex - {id}, own.AsLadder(), opp.AsLadder(), NIL)
              && HasId(View(s, old(own.AsLadder())), id)
              && View(s', own.AsLadder()) == Without(View(s, old(own.AsLadder())), id)
              && View(s', opp.AsLadder()) == View(s, opp.AsLadder()) == Without(View(s, opp.AsLadder()), id)
    {
      hide FreeListOk, BookOk, LadderOk, View, Without, CutChain, HasId, SamePayload, Unlinked, TouchesOnly, Removal;
      ghost var s0, free0, idx0 := pool.Store(), pool.free, idIndex;
      ghost var l, r := own.AsLadder(), opp.AsLadder();
      ghost var j, k := Located(s0, |free0|, idx0, l, r, id);
      LadderShape(s0, |free0|, idx0, l, r, NIL);
      var lvl := own.Find(pool.Get(o).price);
      if lvl != NIL {
        ghost var c := own.chains[lvl];
        SamePosition(l.side, l.levels, j, lvl);
        var level := Unlink(pool, own.levels[lvl], o, own.side, c, k);
        ghost var s1 := pool.Store();
        StillLive(s0, s1, o);
        EndsLinked(s1, own.side, level, Remove(c, k));
        ReleasedBoth(s0, s1, o, Free(First(free0)));
        UnlinkedIsRemoval(s0, s1, l, j, k, level, First(free0));
        CancelKeepsBook(s0, s1[o := Free(First(free0))], |free0|, idx0, l, r, j, k, level);
        own.Set(lvl, level, Remove(c, k));
        if own.levels[lvl].Empty() {
          own.EraseIfEmpty(lvl);
        }
        CutChainShape(s0, l, j, k, level);
      }
    }

    /** Unlink, deindex and release the order of this id, wherever it is. */
    method Cancel(id: OrderId) returns (ok: bool)
      requires Valid()
      modifies this`idIndex, pool, pool.storage, bids, asks
      ensures Valid()
      ensures Outcome(Abs(), ok, []) == PriceTime.Cancel(old(Abs()), id)
      ensures ok <==> id in old(idIndex)
      ensures !ok ==>
                SameAs(old(pool.Store()), old(pool.free), old(idIndex), old(bids.AsLadder()), old(asks.AsLadder()))
      // the order's slot is the next to be handed out; its level goes if it was the last
      ensures ok ==>
                Withdrawn(id, old(pool.Store()), old(pool.free), old(idIndex),
                          old(bids.AsLadder()), old(asks.AsLadder()))
    {
      hide FreeListOk, BookOk, View, Without, CutChain, HasId, SamePayload;
      IndexKnows(id);
      if id !in idIndex {
        return false;
      }
      var o := idIndex[id];
      var own, opp := SideOf(pool.Get(o).side), SideOf(Opposite(pool.Get(o).side));
      OkSymmetric(own, opp, NIL);
      CutOut(own, opp, o, id);
      idIndex := idIndex - {id};
      pool.Release(o);
      OkSymmetric(own, opp, NIL);
      ok := true;
    }
  }
}
