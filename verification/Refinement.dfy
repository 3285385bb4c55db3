/** Whole runs of the matching engine against the reference book, and the submit/cancel round
    trip down to the last link. */
module Refinement {
  import opened Types
  import opened Pool
  import opened PriceTime
  import opened Chains
  import opened BookState
  import opened SideBooks
  import opened OrderBooks
  import opened PriceLevels

  lemma RunNothing(b: Book, capacity: nat)
    ensures Run(b, [], capacity) == (b, [])
  {
  }

  /** One call of a run. */
  lemma Unroll(b: Book, ops: seq<Op>, i: nat, capacity: nat)
    requires i < |ops| && LegalRun(b, ops[i..], capacity)
    ensures Legal(b, ops[i])
    ensures var o := Apply(b, ops[i], capacity);
            && LegalRun(o.book, ops[i + 1..], capacity)
            && Run(b, ops[i..], capacity).0 == Run(o.book, ops[i + 1..], capacity).0
            && Run(b, ops[i..], capacity).1 == [Reply(o.ok, o.trades)] + Run(o.book, ops[i + 1..], capacity).1
  {
  }

  /** One call, answered as the reference book answers it. */
  method Perform(book: OrderBook, op: Op) returns (reply: Reply)
    requires book.Valid() && Legal(book.Abs(), op)
    modifies book, book.pool, book.pool.storage, book.bids, book.asks
    ensures book.Valid()
    ensures var o := Apply(old(book.Abs()), op, book.pool.Capacity());
            book.Abs() == o.book && reply == Reply(o.ok, o.trades)
  {
    hide OrderBook.Valid, OrderBook.Abs, Passes, PriceTime.Submit, PriceTime.Cancel;
    match op {
      case SubmitOp(r) =>
        var ok, trades := book.Submit(r);
        reply := Reply(ok, trades);
      case CancelOp(id) =>
        var ok := book.Cancel(id);
        reply := Reply(ok, []);
    }
  }

  lemma Shift<X>(a: seq<X>, x: X, b: seq<X>)
    ensures a + ([x] + b) == (a + [x]) + b
  {
  }

  /** Any sequence of calls gives the replies and reaches the state of the reference book. */
  method Replay(book: OrderBook, ops: seq<Op>) returns (replies: seq<Reply>)
    requires book.Valid()
    requires LegalRun(book.Abs(), ops, book.pool.Capacity())
    modifies book, book.pool, book.pool.storage, book.bids, book.asks
    ensures book.Valid()
    ensures (book.Abs(), replies) == Run(old(book.Abs()), ops, book.pool.Capacity())
  {
    hide OrderBook.Valid, OrderBook.Abs, Run, Legal, LegalRun, Apply;
    replies := [];
    var i := 0;
    ghost var capacity := book.pool.Capacity();
    ghost var total := Run(book.Abs(), ops, capacity);
    assert ops[0..] == ops && [] + total.1 == total.1;
    while i < |ops|
      invariant 0 <= i <= |ops|
      invariant book.Valid()
      invariant LegalRun(book.Abs(), ops[i..], capacity)
      invariant Run(book.Abs(), ops[i..], capacity).0 == total.0
      invariant total.1 == replies + Run(book.Abs(), ops[i..], capacity).1
    {
      Unroll(book.Abs(), ops, i, capacity);
      var reply := Perform(book, ops[i]);
      Shift(replies, reply, Run(book.Abs(), ops[i + 1..], capacity).1);
      replies := replies + [reply];
      i := i + 1;
    }
    RunNothing(book.Abs(), capacity);
    assert ops[i..] == [] && replies + [] == replies;
  }

  // ---------------------------------------------------------------- a wrapped total

  function HalfWord(id: OrderId): Request {
    Request(id, Sell, Limit, 100, 0x8000_0000_0000_0000, 0)
  }

  const ONE_UNIT := Request(3, Buy, FOK, 100, 1, 0)

  /** The asks once both halves rest. */
  const HALVES := [Entry(1, 100, 0x8000_0000_0000_0000, 1), Entry(2, 100, 0x8000_0000_0000_0000, 2)]

  lemma HalvesRest(capacity: nat)
    requires capacity >= 3
    ensures var b1 := PriceTime.Submit(EMPTY, HalfWord(1), capacity).book;
            var b2 := PriceTime.Submit(b1, HalfWord(2), capacity).book;
            && Legal(EMPTY, SubmitOp(HalfWord(1))) && Legal(b1, SubmitOp(HalfWord(2)))
            && b2 == Book([], HALVES, 2)
  {
    var first := Entry(1, 100, 0x8000_0000_0000_0000, 1);
    assert PriceTime.Submit(EMPTY, HalfWord(1), capacity).book == Book([], [first], 1);
    assert [first][1..] == [];
    assert Insert(Sell, [], HALVES[1]) == [HALVES[1]];
  }

  lemma HalvesAddUpToZero()
    ensures Fillable(ONE_UNIT, HALVES) && !Passes(ONE_UNIT, HALVES)
  {
    var tail := HALVES[1..];
    assert tail == [HALVES[1]] && tail[1..] == [];
    assert CrossingQty(ONE_UNIT, tail) == QtyAt(tail, 100) == 0x8000_0000_0000_0000;
    assert CrossingQty(ONE_UNIT, HALVES) == QtyAt(HALVES, 100) == TWO64;
    assert NotAt(tail, 100) == [] && NotAt(HALVES, 100) == [];
  }

  /** A new book, two sell orders of 2^63 at one price: the level's cached total is 0, and a
      fill-or-kill order for one unit trades nothing although both orders still rest and could
      fill it. */
  method WrappedTotalRefusesFillable(capacity: nat) returns (book: OrderBook, trades: seq<Trade>)
    requires capacity >= 3
    ensures fresh(book) && book.Valid() && trades == []
    ensures book.Abs().asks == HALVES && Fillable(ONE_UNIT, HALVES)
  {
    hide OrderBook.Valid, OrderBook.Abs, PriceTime.Submit, Passes, Fillable, Legal;
    book := new OrderBook(capacity);
    HalvesRest(capacity);
    HalvesAddUpToZero();
    var ok, none := book.Submit(HalfWord(1));
    ok, none := book.Submit(HalfWord(2));
    FokNeverRests(book.Abs());
    RejectedChangesNoOrder(book.Abs(), ONE_UNIT, capacity);
    ok, trades := book.Submit(ONE_UNIT);
  }

  lemma FokNeverRests(b: Book)
    ensures Legal(b, SubmitOp(ONE_UNIT))
  {
  }

  lemma RejectedChangesNoOrder(b: Book, r: Request, capacity: nat)
    requires r.kind == FOK && !Passes(r, b.On(Opposite(r.side)))
    ensures var o := PriceTime.Submit(b, r, capacity);
            o.trades == [] && o.book.bids == b.bids && o.book.asks == b.asks
  {
  }

  // ---------------------------------------------------------------- the structure is canonical

  lemma SameLevel(s: Store, s': Store, side: Side, lvl: PriceLevel, lvl': PriceLevel, c: seq<int>)
    requires LevelOk(s, side, lvl, c) && LevelOk(s', side, lvl', c) && c != []
    requires forall i :: i in c ==> Payload(At(s', i)) == Payload(At(s, i))
    ensures lvl' == lvl
    ensures forall i :: i in c ==> IsLive(s, i) && IsLive(s', i) && At(s', i) == At(s, i)
  {
    AllLinked(s, side, lvl.price, c);
    AllLinked(s', side, lvl'.price, c);
    forall i | i in c
      ensures IsLive(s, i) && IsLive(s', i) && At(s', i) == At(s, i)
    {
      var k :| 0 <= k < |c| && c[k] == i;
      PayloadAndLinks(At(s, i), At(s', i));
    }
    assert c[0] in c;
    assert Entries(s', c) == Entries(s, c);
  }

  lemma PayloadAndLinks(a: Order, b: Order)
    requires Payload(a) == Payload(b) && a.prev == b.prev && a.next == b.next
    ensures a == b
  {
  }

  /** Levels, cached totals, heads, tails and links follow from the queues and the orders. */
  lemma Canonical(s: Store, s': Store, l: Ladder, l': Ladder)
    requires LadderOk(s, l) && LadderOk(s', l') && NoneEmpty(l)
    requires l'.side == l.side && l'.chains == l.chains
    requires forall i :: i in Flat(l.chains) ==> Payload(At(s', i)) == Payload(At(s, i))
    ensures l' == l
    ensures forall i :: i in Flat(l.chains) ==> IsLive(s, i) && IsLive(s', i) && At(s', i) == At(s, i)
  {
    forall j | 0 <= j < |l.chains|
      ensures l'.levels[j] == l.levels[j]
      ensures forall i :: i in l.chains[j] ==> IsLive(s, i) && IsLive(s', i) && At(s', i) == At(s, i)
    {
      forall i | i in l.chains[j]
        ensures i in Flat(l.chains)
      {
        InFlat(l.chains, i);
      }
      SameLevel(s, s', l.side, l.levels[j], l'.levels[j], l.chains[j]);
    }
    forall i | i in Flat(l.chains)
      ensures IsLive(s, i) && IsLive(s', i) && At(s', i) == At(s, i)
    {
      var j := LevelOf(l.chains, i);
    }
  }

  // ---------------------------------------------------------------- the round trip

  lemma DropLast(c: seq<int>, o: int)
    requires o !in c
    ensures Drop(c + [o], o) == c
  {
    DropConcat(c, [o], o);
    DropAbsent(c, o);
    assert Drop([o], o) == [];
  }

  /** The level the slot was queued at is where the search for its price leads. */
  lemma FoundAgain(s': Store, l': Ladder, p: Price, o: int, j: nat)
    requires LadderOk(s', l') && j < |l'.levels| && o in l'.chains[j] && At(s', o).price == p
    ensures l'.levels[j].price == p && LowerBound(l'.side, l'.levels, p) == j
  {
    HeadOf(s', l', j);
    LowerBoundUnique(l'.side, l'.levels, p, j);
  }

  lemma UndoAppend(chains: seq<seq<int>>, j: nat, o: int)
    requires j < |chains| && o !in chains[j]
    ensures var put := chains[j := chains[j] + [o]];
            put[j := Drop(put[j], o)] == chains
  {
    DropLast(chains[j], o);
  }

  lemma UndoInsert(chains: seq<seq<int>>, j: nat, o: int)
    requires j <= |chains|
    ensures var put := chains[..j] + [[o]] + chains[j..];
            put[j] == [o] && Drop(put[j], o) == [] && put[..j] + put[j + 1..] == chains
  {
  }

  /** Taking the slot out again restores the queues. */
  lemma CutUndoesPut(s: Store, l: Ladder, s': Store, l': Ladder, p: Price, o: int)
    requires LadderOk(s, l) && LadderOk(s', l') && NoneEmpty(l) && l'.side == l.side
    requires l'.chains == PutChain(l, p, o) && o !in Flat(l.chains) && At(s', o).price == p
    ensures CutChain(l', p, o) == l.chains
  {
    var j := LowerBound(l.side, l.levels, p);
    if j < |l.levels| && l.levels[j].price == p {
      InFlat(l.chains, o);
      UndoAppend(l.chains, j, o);
    } else {
      UndoInsert(l.chains, j, o);
    }
    FoundAgain(s', l', p, o, j);
  }

  /** With the same queues, orders and free list, every slot is the same. */
  lemma SlotsRestored(s: Store, s': Store, h: int, h': int, free: seq<int>, fa: seq<int>, fb: seq<int>)
    requires |s'| == |s| && FreeListOk(s, h, free) && FreeListOk(s', h', free)
    requires forall i :: IsLive(s, i) ==> i in fa || i in fb
    requires forall i :: i in fa || i in fb ==> IsLive(s, i) && IsLive(s', i) && At(s', i) == At(s, i)
    ensures s' == s
  {
    forall i | 0 <= i < |s|
      ensures s'[i] == s[i]
    {
      if s[i].Free? {
        assert i in free;
      } else {
        assert IsLive(s, i);
      }
    }
  }

  lemma PayloadKept(s0: Store, s1: Store, s2: Store, o: int, x: Order, next: int)
    requires 0 <= o < |s0| && s0[o].Free?
    requires SamePayload(s0[o := Live(x)], s1) && IsLive(s1, o) && SamePayload(s1[o := Free(next)], s2)
    ensures |s2| == |s0| && forall i :: IsLive(s0, i) ==> IsLive(s2, i) && Payload(At(s2, i)) == Payload(At(s0, i))
  {
    var t0, t1 := s0[o := Live(x)], s1[o := Free(next)];
    forall i | IsLive(s0, i)
      ensures IsLive(s2, i) && Payload(At(s2, i)) == Payload(At(s0, i))
    {
      assert i != o && IsLive(t0, i) && IsLive(s1, i) && IsLive(t1, i);
      assert At(t0, i) == At(s0, i) && At(t1, i) == At(s1, i);
    }
  }

  /** What a valid book with these queues looks like is fixed by its orders and free list. */
  lemma BookRestored(s: Store, s': Store, h: int, h': int, free: seq<int>, idx: Index,
                     own: Ladder, opp: Ladder, own': Ladder, opp': Ladder)
    requires FreeListOk(s, h, free) && FreeListOk(s', h', free)
    requires BookOk(s, |free|, idx, own, opp, NIL) && BookOk(s', |free|, idx, own', opp', NIL)
    requires NoneEmpty(own) && NoneEmpty(opp) && |s'| == |s|
    requires own'.side == own.side && own'.chains == own.chains && opp'.side == opp.side && opp'.chains == opp.chains
    requires forall i :: IsLive(s, i) ==> IsLive(s', i) && Payload(At(s', i)) == Payload(At(s, i))
    ensures s' == s && own' == own && opp' == opp
  {
    FlatMembers(s, own);
    FlatMembers(s, opp);
    Canonical(s, s', own, own');
    Canonical(s, s', opp, opp');
    SlotsRestored(s, s', h, h', free, Flat(own.chains), Flat(opp.chains));
  }

  /** Submitting an order that meets nothing and cancelling it puts back every level, queue,
      total, link, index entry and the free list in order; only the clock may have moved. */
  method SubmitThenCancel(book: OrderBook, r: Request)
    requires book.Valid() && Legal(book.Abs(), SubmitOp(r)) && book.Quiet(r)
    modifies book, book.pool, book.pool.storage, book.bids, book.asks
    ensures book.Valid()
    ensures book.SameAs(old(book.pool.Store()), old(book.pool.free), old(book.idIndex),
                        old(book.bids.AsLadder()), old(book.asks.AsLadder()))
    ensures book.Abs() == old(book.Abs()).(clock := book.clock)
  {
    hide BookOk, View, FreeListOk, PutChain, CutChain, SamePayload, PriceTime.Submit, PriceTime.Cancel, HasId;
    var own, opp := book.SideOf(r.side), book.SideOf(Opposite(r.side));
    ghost var s0, h0, free0, idx0 := book.pool.Store(), book.pool.freeHead, book.pool.free, book.idIndex;
    ghost var l0, r0 := own.AsLadder(), opp.AsLadder();
    ghost var o := free0[0];
    book.IndexKnows(r.id);
    book.OkSymmetric(own, opp, NIL);
    HeadSlot(s0, h0, free0);
    LadderShape(s0, |free0|, idx0, l0, r0, NIL);
    ghost var x := BLANK.(id := r.id, side := r.side, price := r.price, qty := r.qty, ts := Stamp(book.Abs(), r));
    var ok, trades := book.Submit(r);
    ghost var s1, l1 := book.pool.Store(), own.AsLadder();
    book.OkSymmetric(own, opp, NIL);
    PlacedAt(s0, s1, o, x);
    UndoQueue(s0, |free0|, idx0, l0, s1, |book.pool.free|, book.idIndex, l1, r0, opp.AsLadder(), r.price, o);
    var done := book.Cancel(r.id);
    book.OkSymmetric(own, opp, NIL);
    assert free0 == [o] + free0[1..];
    assert book.idIndex == idx0;
    PayloadKept(s0, s1, book.pool.Store(), o, x, First(free0[1..]));
    BookRestored(s0, book.pool.Store(), h0, book.pool.freeHead, free0, idx0, l0, r0, own.AsLadder(), opp.AsLadder());
  }

  lemma PlacedAt(s0: Store, s1: Store, o: int, x: Order)
    requires 0 <= o < |s0| && SamePayload(s0[o := Live(x)], s1)
    ensures IsLive(s1, o) && At(s1, o).price == x.price && At(s1, o).side == x.side
  {
  }

  lemma UndoQueue(s: Store, spare: nat, idx: Index, l: Ladder, s': Store, spare': nat, idx': Index, l': Ladder,
                  r: Ladder, r': Ladder, p: Price, o: int)
    requires BookOk(s, spare, idx, l, r, NIL) && BookOk(s', spare', idx', l', r', NIL)
    requires NoneEmpty(l) && l'.side == l.side && |l.levels| == |l.chains| && l'.chains == PutChain(l, p, o)
    requires 0 <= o < |s| && s[o].Free? && At(s', o).price == p
    ensures |l'.levels| == |l'.chains| && CutChain(l', p, o) == l.chains
  {
    FlatMembers(s, l);
    CutUndoesPut(s, l, s', l', p, o);
  }
}
