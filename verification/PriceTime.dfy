/** The reference book: two sequences of resting orders, best price first and, within a
    price, oldest first. An incoming order is filled greedily from the front. The linked
    structures of src/order_book.cpp are proved to compute exactly these functions. */
module PriceTime {
  import opened Types

  datatype Entry = Entry(id: OrderId, price: Price, qty: Quantity, ts: Timestamp)

  datatype Request = Request(id: OrderId, side: Side, kind: OrderType, price: Price, qty: Quantity, ts: Timestamp)

  datatype Book = Book(bids: seq<Entry>, asks: seq<Entry>, clock: Timestamp) {
    function On(side: Side): seq<Entry> {
      if side == Buy then bids else asks
    }

    function With(side: Side, s: seq<Entry>): Book {
      if side == Buy then this.(bids := s) else this.(asks := s)
    }

    function Resting(): nat {
      |bids| + |asks|
    }
  }

  const EMPTY := Book([], [], 0)

  /** What one sweep of the opposite side produces. */
  datatype Sweep = Sweep(trades: seq<Trade>, rest: seq<Entry>, left: Quantity) {
    function Prepend(ts: seq<Trade>): Sweep {
      this.(trades := ts + trades)
    }
  }

  datatype Outcome = Outcome(book: Book, ok: bool, trades: seq<Trade>)

  // ---------------------------------------------------------------- matching

  /** Price `a` is strictly ahead of price `b` on this side of the book. */
  predicate Better(side: Side, a: Price, b: Price) {
    if side == Buy then a > b else a < b
  }

  predicate PriceCrosses(taker: Side, takerPx: Price, bookPx: Price) {
    if taker == Buy then bookPx <= takerPx else bookPx >= takerPx
  }

  predicate Crosses(r: Request, bookPx: Price) {
    r.kind == Market || PriceCrosses(r.side, r.price, bookPx)
  }

  function TradeWith(r: Request, maker: Entry, fill: Quantity): Trade {
    Trade(maker.id, r.id, maker.price, fill, r.ts)
  }

  /** The queue once its first order has been filled by `fill`. */
  function AfterFill(opp: seq<Entry>, fill: Quantity): seq<Entry>
    requires opp != [] && fill <= opp[0].qty
  {
    if fill == opp[0].qty then opp[1..] else [opp[0].(qty := opp[0].qty - fill)] + opp[1..]
  }

  function Match(r: Request, opp: seq<Entry>, q: Quantity): Sweep {
    if q == 0 || opp == [] || !Crosses(r, opp[0].price) then
      Sweep([], opp, q)
    else
      var fill := Min(q, opp[0].qty);
      if fill == opp[0].qty then
        Match(r, opp[1..], q - fill).Prepend([TradeWith(r, opp[0], fill)])
      else
        Sweep([TradeWith(r, opp[0], fill)], AfterFill(opp, fill), 0)
  }

  // ---------------------------------------------------------------- whole operations

  /** Rest behind every order that is not strictly worse. */
  function Insert(side: Side, s: seq<Entry>, e: Entry): seq<Entry> {
    if s == [] || Better(side, e.price, s[0].price) then [e] + s
    else [s[0]] + Insert(side, s[1..], e)
  }

  function Without(s: seq<Entry>, id: OrderId): seq<Entry> {
    if s == [] then []
    else if s[0].id == id then Without(s[1..], id)
    else [s[0]] + Without(s[1..], id)
  }

  predicate HasId(s: seq<Entry>, id: OrderId) {
    exists i :: 0 <= i < |s| && s[i].id == id
  }

  function SumQty(s: seq<Entry>): nat {
    if s == [] then 0 else s[0].qty + SumQty(s[1..])
  }

  /** Everything on the opposite side that this order's limit admits. */
  function CrossingQty(r: Request, opp: seq<Entry>): nat {
    if opp == [] then 0
    else (if Crosses(r, opp[0].price) then opp[0].qty else 0) + CrossingQty(r, opp[1..])
  }

  predicate Fillable(r: Request, opp: seq<Entry>) {
    CrossingQty(r, opp) >= r.qty
  }

  /** The quantity resting at one price. */
  function QtyAt(s: seq<Entry>, p: Price): nat {
    if s == [] then 0 else (if s[0].price == p then s[0].qty else 0) + QtyAt(s[1..], p)
  }

  function NotAt(s: seq<Entry>, p: Price): (t: seq<Entry>)
    ensures |t| <= |s| && (s != [] && s[0].price == p ==> |t| < |s|)
  {
    if s == [] then []
    else if s[0].price == p then NotAt(s[1..], p)
    else [s[0]] + NotAt(s[1..], p)
  }

  /** What the fill-or-kill check adds up: the cached total of each admitted price, which is a
      64-bit word. */
  function AdmittedTotals(r: Request, opp: seq<Entry>): nat
    decreases |opp|
  {
    if opp == [] then 0
    else
      var p := opp[0].price;
      (if Crosses(r, p) then QtyAt(opp, p) % TWO64 else 0) + AdmittedTotals(r, NotAt(opp, p))
  }

  /** The verdict of the fill-or-kill check. */
  predicate Passes(r: Request, opp: seq<Entry>) {
    AdmittedTotals(r, opp) >= r.qty
  }

  function Stamp(b: Book, r: Request): Timestamp {
    if r.ts == 0 then NextClock(b, r) else r.ts
  }

  function NextClock(b: Book, r: Request): Timestamp {
    if r.ts == 0 then (b.clock + 1) % TWO64 else b.clock
  }

  /** The order's own side, the opposite side and the trades once it has been processed. `pass`
      is the verdict of the fill-or-kill check; other order types ignore it. */
  function Process(r: Request, own: seq<Entry>, opp: seq<Entry>, pass: bool): (seq<Entry>, seq<Entry>, seq<Trade>) {
    if r.kind == FOK && !pass then (own, opp, [])
    else
      var s := Match(r, opp, r.qty);
      (if s.left > 0 && r.kind == Limit then Insert(r.side, own, Entry(r.id, r.price, s.left, r.ts)) else own,
       s.rest, s.trades)
  }

  function SubmitIf(b: Book, r: Request, capacity: nat, pass: bool): Outcome {
    if r.qty == 0 then Outcome(b, true, [])
    else if b.Resting() >= capacity then Outcome(b, false, [])
    else
      var (own, opp, trades) := Process(r.(ts := Stamp(b, r)), b.On(r.side), b.On(Opposite(r.side)), pass);
      Outcome(b.(clock := NextClock(b, r)).With(r.side, own).With(Opposite(r.side), opp), true, trades)
  }

  function Submit(b: Book, r: Request, capacity: nat): Outcome {
    SubmitIf(b, r, capacity, Passes(r, b.On(Opposite(r.side))))
  }

  function Cancel(b: Book, id: OrderId): Outcome {
    if HasId(b.bids, id) || HasId(b.asks, id)
    then Outcome(b.(bids := Without(b.bids, id), asks := Without(b.asks, id)), true, [])
    else Outcome(b, false, [])
  }

  // ---------------------------------------------------------------- runs

  datatype Op = SubmitOp(r: Request) | CancelOp(id: OrderId)

  datatype Reply = Reply(ok: bool, trades: seq<Trade>)

  function Apply(b: Book, op: Op, capacity: nat): Outcome {
    match op
    case SubmitOp(r) => Submit(b, r, capacity)
    case CancelOp(id) => Cancel(b, id)
  }

  function Run(b: Book, ops: seq<Op>, capacity: nat): (Book, seq<Reply>)
    decreases |ops|
  {
    if ops == [] then (b, [])
    else
      var o := Apply(b, ops[0], capacity);
      var (b', replies) := Run(o.book, ops[1..], capacity);
      (b', [Reply(o.ok, o.trades)] + replies)
  }

  /** An order that may rest must carry an id that is not resting already. */
  predicate Legal(b: Book, op: Op) {
    op.SubmitOp? && op.r.kind == Limit ==> !HasId(b.bids, op.r.id) && !HasId(b.asks, op.r.id)
  }

  predicate LegalRun(b: Book, ops: seq<Op>, capacity: nat)
    decreases |ops|
  {
    ops == [] || (Legal(b, ops[0]) && LegalRun(Apply(b, ops[0], capacity).book, ops[1..], capacity))
  }

  // ---------------------------------------------------------------- the invariant of every book

  ghost predicate Sorted(side: Side, s: seq<Entry>) {
    forall i, j :: 0 <= i < j < |s| ==> !Better(side, s[j].price, s[i].price)
  }

  ghost predicate Positive(s: seq<Entry>) {
    forall i :: 0 <= i < |s| ==> s[i].qty > 0
  }

  ghost predicate DistinctIds(s: seq<Entry>) {
    forall i, j :: 0 <= i < j < |s| ==> s[i].id != s[j].id
  }

  ghost predicate Uncrossed(bids: seq<Entry>, asks: seq<Entry>) {
    forall i, j :: 0 <= i < |bids| && 0 <= j < |asks| ==> bids[i].price < asks[j].price
  }

  ghost predicate DisjointIds(a: seq<Entry>, b: seq<Entry>) {
    forall i, j :: 0 <= i < |a| && 0 <= j < |b| ==> a[i].id != b[j].id
  }

  ghost predicate SideGood(side: Side, s: seq<Entry>) {
    Sorted(side, s) && Positive(s) && DistinctIds(s)
  }

  ghost predicate Good(b: Book) {
    && SideGood(Buy, b.bids)
    && SideGood(Sell, b.asks)
    && DisjointIds(b.bids, b.asks)
    && Uncrossed(b.bids, b.asks)
  }

  // ---------------------------------------------------------------- one step of a sweep

  lemma MatchStep(r: Request, opp: seq<Entry>, q: Quantity)
    requires q > 0 && opp != [] && Crosses(r, opp[0].price)
    ensures var fill := Min(q, opp[0].qty);
            Match(r, opp, q) == Match(r, AfterFill(opp, fill), q - fill).Prepend([TradeWith(r, opp[0], fill)])
  {
  }

  // ---------------------------------------------------------------- what a sweep leaves behind

  /** The orders left are a suffix of the queue, its first order possibly reduced. */
  ghost predicate Leftover(opp: seq<Entry>, rest: seq<Entry>) {
    && |rest| <= |opp|
    && var d := |opp| - |rest|;
       forall i :: 0 <= i < |rest| ==>
         && rest[i].qty <= opp[d + i].qty
         && (i > 0 ==> rest[i] == opp[d + i])
         && rest[i] == opp[d + i].(qty := rest[i].qty)
  }

  lemma LeftoverExtends(opp: seq<Entry>, rest: seq<Entry>)
    requires opp != [] && Leftover(opp[1..], rest)
    ensures Leftover(opp, rest)
  {
  }

  lemma {:induction false} MatchLeavesSuffix(r: Request, opp: seq<Entry>, q: Quantity)
    requires Positive(opp)
    ensures Leftover(opp, Match(r, opp, q).rest) && Positive(Match(r, opp, q).rest)
    ensures Match(r, opp, q).left <= q
  {
    if q > 0 && opp != [] && Crosses(r, opp[0].price) && q >= opp[0].qty {
      MatchLeavesSuffix(r, opp[1..], q - opp[0].qty);
      LeftoverExtends(opp, Match(r, opp[1..], q - opp[0].qty).rest);
    }
  }

  /** A sweep with quantity left over has taken every order its limit admits. */
  lemma {:induction false} MatchExhausts(r: Request, side: Side, opp: seq<Entry>, q: Quantity)
    requires side == Opposite(r.side) && Sorted(side, opp)
    requires Match(r, opp, q).left > 0
    ensures forall i :: 0 <= i < |Match(r, opp, q).rest| ==> !Crosses(r, Match(r, opp, q).rest[i].price)
  {
    if opp != [] && Crosses(r, opp[0].price) {
      MatchExhausts(r, side, opp[1..], q - opp[0].qty);
    }
  }

  /** `ins` is `s` with `e` put in at position `k`. */
  ghost predicate PutAt(s: seq<Entry>, e: Entry, k: nat, ins: seq<Entry>) {
    && k <= |s| && |ins| == |s| + 1
    && ins[k] == e
    && (forall i :: 0 <= i < k ==> ins[i] == s[i])
    && (forall i :: k < i < |ins| ==> ins[i] == s[i - 1])
  }

  lemma PutAtExtends(s: seq<Entry>, e: Entry, k: nat, ins: seq<Entry>)
    requires s != [] && PutAt(s[1..], e, k, ins)
    ensures PutAt(s, e, k + 1, [s[0]] + ins)
  {
  }

  /** Insertion puts the order behind everything that is not strictly worse. */
  lemma {:induction false} InsertShape(side: Side, s: seq<Entry>, e: Entry) returns (k: nat)
    requires Sorted(side, s)
    ensures PutAt(s, e, k, Insert(side, s, e))
    ensures forall i :: 0 <= i < k ==> !Better(side, e.price, s[i].price)
    ensures forall i :: k <= i < |s| ==> Better(side, e.price, s[i].price)
  {
    if s == [] || Better(side, e.price, s[0].price) {
      k := 0;
    } else {
      var tail := s[1..];
      assert Sorted(side, tail);
      k := InsertShape(side, tail, e);
      PutAtExtends(s, e, k, Insert(side, tail, e));
      assert forall i :: 1 <= i < |s| ==> s[i] == tail[i - 1];
      k := k + 1;
    }
  }

  lemma InsertGood(side: Side, s: seq<Entry>, e: Entry)
    requires SideGood(side, s) && e.qty > 0 && !HasId(s, e.id)
    ensures SideGood(side, Insert(side, s, e))
  {
    var k := InsertShape(side, s, e);
    PutAtDistinct(s, e, k, Insert(side, s, e));
  }

  lemma PutAtDistinct(s: seq<Entry>, e: Entry, k: nat, ins: seq<Entry>)
    requires PutAt(s, e, k, ins) && DistinctIds(s) && !HasId(s, e.id)
    ensures DistinctIds(ins)
  {
  }

  lemma {:induction false} WithoutIsSubsequence(s: seq<Entry>, id: OrderId)
    ensures forall x: Entry :: x in Without(s, id) <==> x in s && x.id != id
    ensures forall side :: SideGood(side, s) ==> SideGood(side, Without(s, id))
  {
    if s != [] {
      WithoutIsSubsequence(s[1..], id);
      assert s == [s[0]] + s[1..];
      var w := Without(s[1..], id);
      forall side | SideGood(side, s)
        ensures SideGood(side, Without(s, id))
      {
        assert SideGood(side, s[1..]);
        assert forall i :: 0 <= i < |w| ==> w[i] in s[1..];
      }
    }
  }

  lemma LeftoverGood(side: Side, opp: seq<Entry>, rest: seq<Entry>)
    requires SideGood(side, opp) && Leftover(opp, rest) && Positive(rest)
    ensures SideGood(side, rest)
    ensures forall i :: 0 <= i < |rest| ==> rest[i].price == opp[|opp| - |rest| + i].price
    ensures forall i :: 0 <= i < |rest| ==> rest[i].id == opp[|opp| - |rest| + i].id
  {
  }

  /** Two sides that keep apart: no shared id, no bid at or above an ask. */
  ghost predicate Apart(side: Side, own: seq<Entry>, opp: seq<Entry>) {
    if side == Buy then DisjointIds(own, opp) && Uncrossed(own, opp)
    else DisjointIds(opp, own) && Uncrossed(opp, own)
  }

  lemma {:induction false} WithoutOne(a: seq<Entry>, e: Entry, b: seq<Entry>)
    requires DistinctIds(a + [e] + b)
    ensures Without(a + [e] + b, e.id) == a + b
  {
    var s := a + [e] + b;
    if a == [] {
      assert s[1..] == b;
      forall i | 0 <= i < |b|
        ensures b[i].id != e.id
      {
        assert s[0].id != s[i + 1].id;
      }
      WithoutNone(b, e.id);
    } else {
      assert s[1..] == a[1..] + [e] + b;
      assert s[0].id != s[|a|].id;
      WithoutOne(a[1..], e, b);
    }
  }

  lemma {:induction false} WithoutNone(s: seq<Entry>, id: OrderId)
    requires forall i :: 0 <= i < |s| ==> s[i].id != id
    ensures Without(s, id) == s
  {
    if s != [] {
      WithoutNone(s[1..], id);
    }
  }

  /** Cancelling takes exactly one order out and leaves all others in their relative order. */
  lemma CancelTakesOneOut(s: seq<Entry>, id: OrderId) returns (k: nat)
    requires DistinctIds(s) && HasId(s, id)
    ensures k < |s| && s[k].id == id && Without(s, id) == s[..k] + s[k + 1..]
  {
    k :| 0 <= k < |s| && s[k].id == id;
    assert s == s[..k] + [s[k]] + s[k + 1..];
    WithoutOne(s[..k], s[k], s[k + 1..]);
  }

  // ---------------------------------------------------------------- the invariant is kept

  lemma LeftoverApart(side: Side, own: seq<Entry>, opp: seq<Entry>, rest: seq<Entry>)
    requires Apart(side, own, opp) && Leftover(opp, rest)
    ensures Apart(side, own, rest)
  {
  }

  lemma RestedApart(r: Request, own: seq<Entry>, rest: seq<Entry>, e: Entry)
    requires Apart(r.side, own, rest) && Sorted(r.side, own)
    requires r.kind == Limit && e.price == r.price && !HasId(rest, e.id)
    requires forall i :: 0 <= i < |rest| ==> !Crosses(r, rest[i].price)
    ensures Apart(r.side, Insert(r.side, own, e), rest)
  {
  }

  ghost predicate GoodSides(side: Side, own: seq<Entry>, opp: seq<Entry>) {
    SideGood(side, own) && SideGood(Opposite(side), opp) && Apart(side, own, opp)
  }

  lemma SweepKeepsGood(r: Request, own: seq<Entry>, opp: seq<Entry>)
    requires GoodSides(r.side, own, opp)
    ensures GoodSides(r.side, own, Match(r, opp, r.qty).rest)
  {
    var rest := Match(r, opp, r.qty).rest;
    MatchLeavesSuffix(r, opp, r.qty);
    LeftoverGood(Opposite(r.side), opp, rest);
    LeftoverApart(r.side, own, opp, rest);
  }

  lemma RestingKeepsGood(r: Request, own: seq<Entry>, rest: seq<Entry>, e: Entry)
    requires GoodSides(r.side, own, rest)
    requires r.kind == Limit && e.price == r.price && e.qty > 0 && !HasId(own, e.id) && !HasId(rest, e.id)
    requires forall i :: 0 <= i < |rest| ==> !Crosses(r, rest[i].price)
    ensures GoodSides(r.side, Insert(r.side, own, e), rest)
  {
    RestedApart(r, own, rest, e);
    InsertGood(r.side, own, e);
  }

  lemma SweepIntroducesNoId(r: Request, opp: seq<Entry>, id: OrderId)
    requires Positive(opp) && !HasId(opp, id)
    ensures !HasId(Match(r, opp, r.qty).rest, id)
  {
    MatchLeavesSuffix(r, opp, r.qty);
  }

  lemma SubmitKeepsGood(b: Book, r: Request, capacity: nat, pass: bool)
    requires Good(b) && Legal(b, SubmitOp(r))
    ensures Good(SubmitIf(b, r, capacity, pass).book)
  {
    if r.qty == 0 || b.Resting() >= capacity || (r.kind == FOK && !pass) {
      return;
    }
    var own, opp := b.On(r.side), b.On(Opposite(r.side));
    var r1 := r.(ts := Stamp(b, r));
    var s := Match(r1, opp, r.qty);
    SweepKeepsGood(r1, own, opp);
    if s.left > 0 && r.kind == Limit {
      MatchExhausts(r1, Opposite(r.side), opp, r.qty);
      SweepIntroducesNoId(r1, opp, r.id);
      RestingKeepsGood(r1, own, s.rest, Entry(r.id, r.price, s.left, r1.ts));
    }
  }

  lemma CancelKeepsGood(b: Book, id: OrderId)
    requires Good(b)
    ensures Good(Cancel(b, id).book)
  {
    WithoutIsSubsequence(b.bids, id);
    WithoutIsSubsequence(b.asks, id);
    var bids, asks := Without(b.bids, id), Without(b.asks, id);
    assert forall i :: 0 <= i < |bids| ==> bids[i] in bids;
    assert forall i :: 0 <= i < |asks| ==> asks[i] in asks;
  }

  lemma ApplyKeepsGood(b: Book, op: Op, capacity: nat)
    requires Good(b) && Legal(b, op)
    ensures Good(Apply(b, op, capacity).book)
  {
    match op {
      case SubmitOp(r) => SubmitKeepsGood(b, r, capacity, Passes(r, b.On(Opposite(r.side))));
      case CancelOp(id) => CancelKeepsGood(b, id);
    }
  }

  /** In every reachable state both sides are in price-time order, no id rests twice and
      every bid is strictly below every ask. */
  lemma {:induction false} EveryReachableBookIsGood(b: Book, ops: seq<Op>, capacity: nat)
    requires Good(b) && LegalRun(b, ops, capacity)
    ensures Good(Run(b, ops, capacity).0)
    decreases |ops|
  {
    if ops != [] {
      ApplyKeepsGood(b, ops[0], capacity);
      EveryReachableBookIsGood(Apply(b, ops[0], capacity).book, ops[1..], capacity);
    }
  }
}
