/** Where every accepted unit of quantity ends up, over whole runs of the reference book. */
module Conservation {
  import opened Types
  import opened PriceTime
  import opened Priority

  function RestingQty(b: Book): nat {
    SumQty(b.bids) + SumQty(b.asks)
  }

  function QtyOf(s: seq<Entry>, id: OrderId): nat {
    if s == [] then 0 else (if s[0].id == id then s[0].qty else 0) + QtyOf(s[1..], id)
  }

  /** What an operation takes off the book by cancelling. */
  function Cancelled(b: Book, op: Op): nat {
    if op.CancelOp? then QtyOf(b.bids, op.id) + QtyOf(b.asks, op.id) else 0
  }

  /** What an order throws away: all of it if the fill-or-kill check, whose verdict is `pass`,
      rejects it, and otherwise what is left over unless that rests. */
  function Discarded(b: Book, r: Request, capacity: nat, pass: bool): nat {
    if r.qty == 0 || b.Resting() >= capacity || r.kind == Limit then 0
    else if r.kind == FOK && !pass then r.qty
    else Max(0, r.qty - CrossingQty(r, b.On(Opposite(r.side))))
  }

  function DiscardedBy(b: Book, op: Op, capacity: nat): nat {
    match op
    case SubmitOp(r) => Discarded(b, r, capacity, Passes(r, b.On(Opposite(r.side))))
    case CancelOp(_) => 0
  }

  function Accepted(op: Op, reply: Reply): nat {
    if op.SubmitOp? && reply.ok then op.r.qty else 0
  }

  function AcceptedIn(ops: seq<Op>, replies: seq<Reply>): nat
    requires |ops| == |replies|
  {
    if ops == [] then 0 else Accepted(ops[0], replies[0]) + AcceptedIn(ops[1..], replies[1..])
  }

  function TradedIn(replies: seq<Reply>): nat {
    if replies == [] then 0 else Traded(replies[0].trades) + TradedIn(replies[1..])
  }

  /** Quantity cancelled and discarded along a run. */
  function Removed(b: Book, ops: seq<Op>, capacity: nat): (nat, nat)
    decreases |ops|
  {
    if ops == [] then (0, 0)
    else
      var rest := Removed(Apply(b, ops[0], capacity).book, ops[1..], capacity);
      (Cancelled(b, ops[0]) + rest.0, DiscardedBy(b, ops[0], capacity) + rest.1)
  }

  lemma {:induction false} SumConcat(a: seq<Entry>, b: seq<Entry>)
    ensures SumQty(a + b) == SumQty(a) + SumQty(b)
  {
    if a == [] {
      assert a + b == b;
    } else {
      SumConcat(a[1..], b);
      assert (a + b)[1..] == a[1..] + b;
    }
  }

  lemma {:induction false} InsertAddsQty(side: Side, s: seq<Entry>, e: Entry)
    ensures SumQty(Insert(side, s, e)) == SumQty(s) + e.qty
  {
    if s == [] || Better(side, e.price, s[0].price) {
      assert ([e] + s)[1..] == s;
    } else {
      InsertAddsQty(side, s[1..], e);
    }
  }

  lemma {:induction false} CancelRemovesQty(s: seq<Entry>, id: OrderId)
    ensures SumQty(Without(s, id)) + QtyOf(s, id) == SumQty(s)
  {
    if s != [] {
      CancelRemovesQty(s[1..], id);
    }
  }

  /** Whatever a sweep trades leaves the queue, and leaves the taker. */
  lemma {:induction false} SweepConserves(r: Request, opp: seq<Entry>, q: Quantity)
    ensures var s := Match(r, opp, q);
            SumQty(s.rest) + Traded(s.trades) == SumQty(opp) && Traded(s.trades) + s.left == q
    decreases |opp|
  {
    if q > 0 && opp != [] && Crosses(r, opp[0].price) && q >= opp[0].qty {
      SweepConserves(r, opp[1..], q - opp[0].qty);
    }
  }

  lemma {:induction false} NoSuchId(s: seq<Entry>, id: OrderId)
    requires !HasId(s, id)
    ensures Without(s, id) == s && QtyOf(s, id) == 0
  {
    if s != [] {
      assert s[0].id != id;
      NoSuchId(s[1..], id);
    }
  }

  ghost predicate Balanced(b: Book, op: Op, o: Outcome, discarded: nat) {
    Accepted(op, Reply(o.ok, o.trades)) + RestingQty(b) ==
    2 * Traded(o.trades) + RestingQty(o.book) + Cancelled(b, op) + discarded
  }

  lemma CancelConserves(b: Book, id: OrderId)
    ensures Balanced(b, CancelOp(id), Cancel(b, id), 0)
  {
    CancelRemovesQty(b.bids, id);
    CancelRemovesQty(b.asks, id);
    if !HasId(b.bids, id) && !HasId(b.asks, id) {
      NoSuchId(b.bids, id);
      NoSuchId(b.asks, id);
    }
  }

  /** A sweep uses up the taker, apart from what is left over, which is what its kind discards
      or rests. */
  lemma SweepAccounts(r: Request, ts: Timestamp, opp: seq<Entry>)
    requires Sorted(Opposite(r.side), opp)
    ensures var s := Match(r.(ts := ts), opp, r.qty);
            && SumQty(s.rest) + Traded(s.trades) == SumQty(opp)
            && Traded(s.trades) + s.left == r.qty
            && s.left == Max(0, r.qty - CrossingQty(r, opp))
  {
    TimestampIsIrrelevant(r, ts, opp);
    SweepTotals(r.(ts := ts), opp, r.qty);
    SweepConserves(r.(ts := ts), opp, r.qty);
  }

  /** The two sides after an order has gone through. */
  lemma AcceptedSides(b: Book, r: Request, capacity: nat, pass: bool)
    requires r.qty > 0 && b.Resting() < capacity && (r.kind == FOK ==> pass)
    ensures var o := SubmitIf(b, r, capacity, pass);
            var s := Match(r.(ts := Stamp(b, r)), b.On(Opposite(r.side)), r.qty);
            && o.ok && o.trades == s.trades
            && o.book.On(Opposite(r.side)) == s.rest
            && o.book.On(r.side) ==
               (if s.left > 0 && r.kind == Limit
                then Insert(r.side, b.On(r.side), Entry(r.id, r.price, s.left, Stamp(b, r)))
                else b.On(r.side))
  {
  }

  /** The balance of one submit, whatever the fill-or-kill check answers. */
  lemma SubmitConserves(b: Book, r: Request, capacity: nat, pass: bool)
    requires Good(b)
    ensures Balanced(b, SubmitOp(r), SubmitIf(b, r, capacity, pass), Discarded(b, r, capacity, pass))
  {
    if r.qty > 0 && b.Resting() < capacity && (r.kind == FOK ==> pass) {
      var own, opp := b.On(r.side), b.On(Opposite(r.side));
      AcceptedSides(b, r, capacity, pass);
      RestingQtyOfSides(b, r.side);
      RestingQtyOfSides(SubmitIf(b, r, capacity, pass).book, r.side);
      SweepAccounts(r, Stamp(b, r), opp);
      var s := Match(r.(ts := Stamp(b, r)), opp, r.qty);
      InsertAddsQty(r.side, own, Entry(r.id, r.price, s.left, Stamp(b, r)));
    }
  }

  lemma RestingQtyOfSides(b: Book, side: Side)
    ensures RestingQty(b) == SumQty(b.On(side)) + SumQty(b.On(Opposite(side)))
  {
  }

  /** Accepted quantity is accounted for: each traded unit uses up a unit of the taker and one
      of the maker, and the rest is resting, was cancelled or was discarded. */
  lemma {:induction false} RunConserves(b: Book, ops: seq<Op>, capacity: nat)
    requires Good(b) && LegalRun(b, ops, capacity)
    ensures var (b', replies) := Run(b, ops, capacity);
            && |replies| == |ops|
            && AcceptedIn(ops, replies) + RestingQty(b) ==
               2 * TradedIn(replies) + RestingQty(b')
               + Removed(b, ops, capacity).0 + Removed(b, ops, capacity).1
    decreases |ops|
  {
    if ops != [] {
      var o := Apply(b, ops[0], capacity);
      match ops[0] {
        case SubmitOp(r) => SubmitConserves(b, r, capacity, Passes(r, b.On(Opposite(r.side))));
        case CancelOp(id) => CancelConserves(b, id);
      }
      ApplyKeepsGood(b, ops[0], capacity);
      RunConserves(o.book, ops[1..], capacity);
      var replies := Run(b, ops, capacity).1;
      assert replies[1..] == Run(o.book, ops[1..], capacity).1;
    }
  }
}
