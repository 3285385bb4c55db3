/** Price levels and their intrusive queues as values: what it means for pool slots, levels and
    links to describe the queues of one side, and which edits keep that true. */
module Chains {
  import opened Types
  import opened Pool
  import opened PriceTime
  import Conservation

  datatype Order = Order(
    id: OrderId, price: Price, qty: Quantity, ts: Timestamp, side: Side, kind: OrderType,
    prev: int, next: int)

  type Store = seq<Slot<Order>>

  datatype PriceLevel = PriceLevel(price: Price, totalQty: Quantity, head: int, tail: int) {
    predicate Empty() {
      head == NIL
    }
  }

  function EntryOf(o: Order): Entry {
    Entry(o.id, o.price, o.qty, o.ts)
  }

  predicate IsLive(store: Store, i: int) {
    0 <= i < |store| && store[i].Live?
  }

  /** A freshly constructed order, before submit fills it in. */
  const BLANK := Order(0, 0, 0, 0, Buy, Limit, NIL, NIL)

  function At(store: Store, i: int): Order {
    if IsLive(store, i) then store[i].value else BLANK
  }

  ghost predicate Holds(store: Store, i: int, o: Order) {
    IsLive(store, i) && store[i].value == o
  }

  /** An order without its links. */
  function Payload(o: Order): Order {
    o.(prev := NIL, next := NIL)
  }

  /** The same slots are live and hold the same orders; only links may differ. */
  ghost predicate SamePayload(store: Store, store': Store) {
    && |store| == |store'|
    && (forall i :: IsLive(store', i) <==> IsLive(store, i))
    && (forall i :: IsLive(store, i) ==> Payload(At(store', i)) == Payload(At(store, i)))
  }

  /** What the order in slot `i` is to the reference book. */
  function EntryAt(store: Store, i: int): Entry {
    EntryOf(At(store, i))
  }

  function Entries(store: Store, c: seq<int>): (s: seq<Entry>)
    ensures |s| == |c|
  {
    seq(|c|, k requires 0 <= k < |c| => EntryAt(store, c[k]))
  }

  // ---------------------------------------------------------------- one level

  /** Slot `c[k]` is the `k`-th order of the queue at this price, linked to its neighbours. */
  ghost predicate Linked(store: Store, side: Side, price: Price, c: seq<int>, k: int)
    requires 0 <= k < |c|
  {
    && IsLive(store, c[k])
    && var o := At(store, c[k]);
       && o.side == side && o.price == price && o.qty > 0
       && o.prev == Prev(c, k) && o.next == Next(c, k)
  }

  ghost predicate ChainOk(store: Store, side: Side, price: Price, c: seq<int>) {
    Distinct(c) && forall k :: 0 <= k < |c| ==> Linked(store, side, price, c, k)
  }

  /** The cached total is the queue's quantity as a 64-bit word. */
  ghost predicate LevelOk(store: Store, side: Side, lvl: PriceLevel, c: seq<int>) {
    && ChainOk(store, side, lvl.price, c)
    && lvl.head == First(c)
    && lvl.tail == Last(c)
    && lvl.totalQty == SumQty(Entries(store, c)) % TWO64
  }

  /** The two stores agree on the slots of `c`. */
  ghost predicate AgreeOn(store: Store, store': Store, c: seq<int>) {
    |store| == |store'| && forall i :: i in c && 0 <= i < |store| ==> store'[i] == store[i]
  }

  lemma EntriesFrame(store: Store, store': Store, c: seq<int>)
    requires AgreeOn(store, store', c)
    ensures Entries(store', c) == Entries(store, c)
  {
  }

  lemma LevelFrame(store: Store, store': Store, side: Side, lvl: PriceLevel, c: seq<int>)
    requires LevelOk(store, side, lvl, c) && AgreeOn(store, store', c)
    ensures LevelOk(store', side, lvl, c)
  {
    EntriesFrame(store, store', c);
    forall k | 0 <= k < |c|
      ensures Linked(store', side, lvl.price, c, k)
    {
      assert Linked(store, side, lvl.price, c, k);
    }
  }

  lemma AddWord(s: nat, q: Quantity)
    ensures (s % TWO64 + q) % TWO64 == (s + q) % TWO64
  {
  }

  lemma SubtractWord(s: nat, q: Quantity)
    requires q <= s
    ensures (s % TWO64 - q) % TWO64 == (s - q) % TWO64
  {
  }

  /** `store'` has slot `o` linked in behind the queue `c`. */
  ghost predicate LinkedBehind(store: Store, store': Store, c: seq<int>, o: int) {
    && |store'| == |store|
    && Holds(store', o, At(store, o).(prev := Last(c), next := NIL))
    && (c != [] ==> Holds(store', Last(c), At(store, Last(c)).(next := o)))
    && forall i :: 0 <= i < |c| - 1 ==> Holds(store', c[i], At(store, c[i]))
  }

  lemma PushKeepsLink(store: Store, store': Store, side: Side, price: Price, c: seq<int>, o: int, k: nat)
    requires ChainOk(store, side, price, c) && IsLive(store, o) && o !in c
    requires At(store, o).side == side && At(store, o).price == price && At(store, o).qty > 0
    requires LinkedBehind(store, store', c, o) && k <= |c|
    ensures Linked(store', side, price, c + [o], k)
    ensures EntryAt(store', (c + [o])[k]) == EntryAt(store, (c + [o])[k])
  {
    var c' := c + [o];
    if k < |c| {
      assert c'[k] == c[k] && Linked(store, side, price, c, k);
    }
  }

  lemma PushKeepsChain(store: Store, store': Store, side: Side, price: Price, c: seq<int>, o: int)
    requires ChainOk(store, side, price, c) && IsLive(store, o) && o !in c
    requires At(store, o).side == side && At(store, o).price == price && At(store, o).qty > 0
    requires LinkedBehind(store, store', c, o)
    ensures ChainOk(store', side, price, c + [o])
    ensures Entries(store', c + [o]) == Entries(store, c) + [EntryAt(store, o)]
  {
    var c' := c + [o];
    forall k | 0 <= k < |c'|
      ensures Linked(store', side, price, c', k) && EntryAt(store', c'[k]) == EntryAt(store, c'[k])
    {
      PushKeepsLink(store, store', side, price, c, o, k);
    }
  }

  /** Queueing slot `o` behind the others. */
  lemma PushKeepsLevel(store: Store, store': Store, side: Side, lvl: PriceLevel, lvl': PriceLevel, c: seq<int>, o: int)
    requires LevelOk(store, side, lvl, c) && IsLive(store, o) && o !in c
    requires At(store, o).side == side && At(store, o).price == lvl.price && At(store, o).qty > 0
    requires LinkedBehind(store, store', c, o)
    requires lvl' == PriceLevel(lvl.price, (lvl.totalQty + At(store, o).qty) % TWO64,
                                if c == [] then o else lvl.head, o)
    ensures LevelOk(store', side, lvl', c + [o])
    ensures Entries(store', c + [o]) == Entries(store, c) + [EntryAt(store, o)]
  {
    PushKeepsChain(store, store', side, lvl.price, c, o);
    Conservation.SumConcat(Entries(store, c), [EntryAt(store, o)]);
    AddWord(SumQty(Entries(store, c)), At(store, o).qty);
  }

  /** `store'` has the links around slot `c[k]` joined and the rest of the queue as before. */
  ghost predicate Unlinked(store: Store, store': Store, c: seq<int>, k: nat)
    requires k < |c|
  {
    && |store'| == |store|
    && (k > 0 ==> Holds(store', c[k - 1], At(store, c[k - 1]).(next := Next(c, k))))
    && (k + 1 < |c| ==> Holds(store', c[k + 1], At(store, c[k + 1]).(prev := Prev(c, k))))
    && forall i :: 0 <= i < |c| && i != k - 1 && i != k && i != k + 1 ==> Holds(store', c[i], At(store, c[i]))
  }

  function Remove(c: seq<int>, k: nat): seq<int>
    requires k < |c|
  {
    c[..k] + c[k + 1..]
  }

  lemma UnlinkKeepsLink(store: Store, store': Store, side: Side, price: Price, c: seq<int>, k: nat, i: nat)
    requires ChainOk(store, side, price, c) && k < |c| && Unlinked(store, store', c, k)
    requires i < |c| - 1
    ensures Linked(store', side, price, Remove(c, k), i)
    ensures EntryAt(store', Remove(c, k)[i]) == EntryAt(store, Remove(c, k)[i])
  {
    var j := if i < k then i else i + 1;
    assert Remove(c, k)[i] == c[j] && Linked(store, side, price, c, j);
  }

  lemma SplitEntries(store: Store, c: seq<int>, k: nat)
    requires k < |c|
    ensures Entries(store, c) == Entries(store, c[..k]) + [EntryAt(store, c[k])] + Entries(store, c[k + 1..])
    ensures Entries(store, Remove(c, k)) == Entries(store, c[..k]) + Entries(store, c[k + 1..])
  {
  }

  /** Taking slot `c[k]` out of a queue. */
  lemma UnlinkKeepsChain(store: Store, store': Store, side: Side, price: Price, c: seq<int>, k: nat)
    requires ChainOk(store, side, price, c) && k < |c| && Unlinked(store, store', c, k)
    ensures ChainOk(store', side, price, Remove(c, k))
    ensures Entries(store', Remove(c, k)) == Entries(store, Remove(c, k))
  {
    var c' := Remove(c, k);
    forall i | 0 <= i < |c'|
      ensures Linked(store', side, price, c', i) && EntryAt(store', c'[i]) == EntryAt(store, c'[i])
    {
      UnlinkKeepsLink(store, store', side, price, c, k, i);
    }
    RemoveDistinct(c, k);
  }

  lemma RemoveDistinct(c: seq<int>, k: nat)
    requires Distinct(c) && k < |c|
    ensures Distinct(Remove(c, k))
  {
  }

  lemma UnlinkKeepsLevel(store: Store, store': Store, side: Side, lvl: PriceLevel, lvl': PriceLevel,
                         c: seq<int>, k: nat)
    requires LevelOk(store, side, lvl, c) && k < |c| && Unlinked(store, store', c, k)
    requires lvl' == PriceLevel(lvl.price, (lvl.totalQty - At(store, c[k]).qty) % TWO64,
                                if k == 0 then Next(c, k) else lvl.head,
                                if k + 1 == |c| then Prev(c, k) else lvl.tail)
    ensures LevelOk(store', side, lvl', Remove(c, k))
    ensures Entries(store', Remove(c, k)) == Entries(store, c[..k]) + Entries(store, c[k + 1..])
    ensures Entries(store, c) == Entries(store, c[..k]) + [EntryAt(store, c[k])] + Entries(store, c[k + 1..])
  {
    UnlinkKeepsChain(store, store', side, lvl.price, c, k);
    SplitEntries(store, c, k);
    var a, e, b := Entries(store, c[..k]), EntryAt(store, c[k]), Entries(store, c[k + 1..]);
    assert Linked(store, side, lvl.price, c, k);
    Conservation.SumConcat(a + [e], b);
    Conservation.SumConcat(a, [e]);
    Conservation.SumConcat(a, b);
    SubtractWord(SumQty(Entries(store, c)), e.qty);
  }

  /** Filling part of the first order. */
  lemma ReduceKeepsLevel(store: Store, store': Store, side: Side, lvl: PriceLevel, lvl': PriceLevel,
                         c: seq<int>, fill: Quantity)
    requires LevelOk(store, side, lvl, c) && |store'| == |store| && c != []
    requires 0 < fill < At(store, c[0]).qty
    requires Holds(store', c[0], At(store, c[0]).(qty := At(store, c[0]).qty - fill))
    requires forall i :: 0 < i < |c| ==> Holds(store', c[i], At(store, c[i]))
    requires lvl' == lvl.(totalQty := (lvl.totalQty - fill) % TWO64)
    ensures LevelOk(store', side, lvl', c)
    ensures Entries(store', c) == AfterFill(Entries(store, c), fill)
  {
    forall k | 0 <= k < |c|
      ensures Linked(store', side, lvl.price, c, k)
    {
      assert Linked(store, side, lvl.price, c, k);
    }
    var es := Entries(store, c);
    assert Linked(store, side, lvl.price, c, 0) && es[0].qty == At(store, c[0]).qty;
    assert Entries(store', c) == [es[0].(qty := es[0].qty - fill)] + es[1..];
    SubtractWord(SumQty(es), fill);
  }

  // ---------------------------------------------------------------- one side

  /** A side of the book: levels in ascending order of priority, the best one last, with the
      queue of each. */
  datatype Ladder = Ladder(side: Side, levels: seq<PriceLevel>, chains: seq<seq<int>>)

  ghost predicate LadderOk(store: Store, l: Ladder) {
    && |l.levels| == |l.chains|
    && (forall j :: 0 <= j < |l.levels| ==> LevelOk(store, l.side, l.levels[j], l.chains[j]))
    && (forall i, j :: 0 <= i < j < |l.levels| ==> Better(l.side, l.levels[j].price, l.levels[i].price))
  }

  ghost predicate NoneEmpty(l: Ladder) {
    forall j :: 0 <= j < |l.chains| ==> l.chains[j] != []
  }

  /** All slots of a side in priority order. */
  function Flat(chains: seq<seq<int>>): seq<int> {
    if chains == [] then [] else chains[|chains| - 1] + Flat(chains[..|chains| - 1])
  }

  /** The side as the reference book sees it. */
  function View(store: Store, l: Ladder): seq<Entry> {
    Entries(store, Flat(l.chains))
  }

  lemma {:induction false} FlatConcat(a: seq<seq<int>>, b: seq<seq<int>>)
    ensures Flat(a + b) == Flat(b) + Flat(a)
  {
    if b == [] {
      assert a + b == a;
    } else {
      FlatConcat(a, b[..|b| - 1]);
      assert (a + b)[..|a + b| - 1] == a + b[..|b| - 1];
    }
  }

  lemma FlatSplit(chains: seq<seq<int>>, j: nat)
    requires j < |chains|
    ensures Flat(chains) == Flat(chains[j + 1..]) + chains[j] + Flat(chains[..j])
  {
    var lo, hi := chains[..j + 1], chains[j + 1..];
    assert chains == lo + hi;
    FlatConcat(lo, hi);
    assert Flat(lo) == chains[j] + Flat(chains[..j]) by {
      assert lo[|lo| - 1] == chains[j] && lo[..|lo| - 1] == chains[..j];
    }
    assert Flat(hi) + (chains[j] + Flat(chains[..j])) == Flat(hi) + chains[j] + Flat(chains[..j]);
  }

  lemma {:induction false} InFlat(chains: seq<seq<int>>, i: int)
    ensures i in Flat(chains) <==> exists j :: 0 <= j < |chains| && i in chains[j]
  {
    if i in Flat(chains) {
      var j := LevelOf(chains, i);
    }
    if exists j :: 0 <= j < |chains| && i in chains[j] {
      var j :| 0 <= j < |chains| && i in chains[j];
      FlatSplit(chains, j);
    }
  }

  lemma {:induction false} LevelOf(chains: seq<seq<int>>, i: int) returns (j: nat)
    requires i in Flat(chains)
    ensures j < |chains| && i in chains[j]
  {
    j := |chains| - 1;
    if i !in chains[j] {
      j := LevelOf(chains[..j], i);
    }
  }

  /** Every slot of a side holds a live order of that side at the price of its level. */
  lemma FlatMember(store: Store, l: Ladder, i: int) returns (j: nat, k: nat)
    requires LadderOk(store, l) && i in Flat(l.chains)
    ensures j < |l.chains| && k < |l.chains[j]| && l.chains[j][k] == i
    ensures Linked(store, l.side, l.levels[j].price, l.chains[j], k)
  {
    j := LevelOf(l.chains, i);
    k :| 0 <= k < |l.chains[j]| && l.chains[j][k] == i;
    assert LevelOk(store, l.side, l.levels[j], l.chains[j]);
  }

  lemma FlatMembers(store: Store, l: Ladder)
    requires LadderOk(store, l)
    ensures forall i :: i in Flat(l.chains) ==> IsLive(store, i) && At(store, i).side == l.side && At(store, i).qty > 0
  {
    forall i | i in Flat(l.chains)
      ensures IsLive(store, i) && At(store, i).side == l.side && At(store, i).qty > 0
    {
      var j, k := FlatMember(store, l, i);
    }
  }

  function Below(l: Ladder, j: nat): Ladder
    requires j <= |l.levels| == |l.chains|
  {
    Ladder(l.side, l.levels[..j], l.chains[..j])
  }

  function Above(l: Ladder, j: nat): Ladder
    requires j <= |l.levels| == |l.chains|
  {
    Ladder(l.side, l.levels[j..], l.chains[j..])
  }

  lemma PartsOk(store: Store, l: Ladder, j: nat)
    requires LadderOk(store, l) && j <= |l.levels|
    ensures LadderOk(store, Below(l, j)) && LadderOk(store, Above(l, j))
  {
  }

  /** No slot is queued twice. */
  lemma {:induction false} FlatDistinct(store: Store, l: Ladder)
    requires LadderOk(store, l)
    ensures Distinct(Flat(l.chains))
    decreases |l.chains|
  {
    if l.chains != [] {
      var n := |l.chains| - 1;
      PartsOk(store, l, n);
      FlatDistinct(store, Below(l, n));
      var c, rest := l.chains[n], Flat(l.chains[..n]);
      forall i | 0 <= i < |c|
        ensures c[i] !in rest
      {
        assert LevelOk(store, l.side, l.levels[n], c) && Linked(store, l.side, l.levels[n].price, c, i);
        if c[i] in rest {
          var j, k := FlatMember(store, Below(l, n), c[i]);
          assert false;
        }
      }
    }
  }

  lemma LadderFrame(store: Store, store': Store, l: Ladder)
    requires LadderOk(store, l) && AgreeOn(store, store', Flat(l.chains))
    ensures LadderOk(store', l) && View(store', l) == View(store, l)
  {
    forall j | 0 <= j < |l.levels|
      ensures LevelOk(store', l.side, l.levels[j], l.chains[j])
    {
      forall i | i in l.chains[j]
        ensures i in Flat(l.chains)
      {
        InFlat(l.chains, i);
      }
      LevelFrame(store, store', l.side, l.levels[j], l.chains[j]);
    }
    EntriesFrame(store, store', Flat(l.chains));
  }

  // ---------------------------------------------------------------- edits of the level vector

  function SetLevel(l: Ladder, j: nat, lvl: PriceLevel, c: seq<int>): Ladder
    requires j < |l.levels| == |l.chains|
  {
    Ladder(l.side, l.levels[j := lvl], l.chains[j := c])
  }

  function AddLevel(l: Ladder, j: nat, lvl: PriceLevel, c: seq<int>): Ladder
    requires j <= |l.levels| == |l.chains|
  {
    Ladder(l.side, l.levels[..j] + [lvl] + l.levels[j..], l.chains[..j] + [c] + l.chains[j..])
  }

  function DropLevel(l: Ladder, j: nat): Ladder
    requires j < |l.levels| == |l.chains|
  {
    Ladder(l.side, l.levels[..j] + l.levels[j + 1..], l.chains[..j] + l.chains[j + 1..])
  }

  lemma SetLevelOk(store: Store, store': Store, l: Ladder, j: nat, lvl: PriceLevel, c: seq<int>)
    requires LadderOk(store, l) && j < |l.levels|
    requires LevelOk(store', l.side, lvl, c) && lvl.price == l.levels[j].price
    requires forall i :: 0 <= i < |l.chains| && i != j ==> AgreeOn(store, store', l.chains[i])
    ensures LadderOk(store', SetLevel(l, j, lvl, c))
  {
    forall i | 0 <= i < |l.levels| && i != j
      ensures LevelOk(store', l.side, l.levels[i], l.chains[i])
    {
      LevelFrame(store, store', l.side, l.levels[i], l.chains[i]);
    }
  }

  /** An edit of the level at `price` leaves the orders of all other levels alone. */
  ghost predicate TouchesOnly(store: Store, store': Store, side: Side, price: Price) {
    && |store| == |store'|
    && forall i :: IsLive(store, i) && !(At(store, i).side == side && At(store, i).price == price) ==>
         store'[i] == store[i]
  }

  lemma OtherLevelsAgree(store: Store, store': Store, l: Ladder, j: nat)
    requires LadderOk(store, l) && j < |l.levels|
    requires TouchesOnly(store, store', l.side, l.levels[j].price)
    ensures forall i :: 0 <= i < |l.chains| && i != j ==> AgreeOn(store, store', l.chains[i])
  {
    forall i, s | 0 <= i < |l.chains| && i != j && s in l.chains[i]
      ensures 0 <= s < |store| && store'[s] == store[s]
    {
      assert LevelOk(store, l.side, l.levels[i], l.chains[i]);
      var k :| 0 <= k < |l.chains[i]| && l.chains[i][k] == s;
      assert Linked(store, l.side, l.levels[i].price, l.chains[i], k);
      assert l.levels[i].price != l.levels[j].price;
    }
  }

  lemma OtherSideAgrees(store: Store, store': Store, l: Ladder, side: Side, price: Price)
    requires LadderOk(store, l) && l.side != side && TouchesOnly(store, store', side, price)
    ensures LadderOk(store', l) && View(store', l) == View(store, l)
  {
    FlatMembers(store, l);
    LadderFrame(store, store', l);
  }

  lemma AddEmptyLevelOk(store: Store, l: Ladder, j: nat, price: Price)
    requires LadderOk(store, l) && j <= |l.levels|
    requires forall i :: 0 <= i < j ==> Better(l.side, price, l.levels[i].price)
    requires forall i :: j <= i < |l.levels| ==> Better(l.side, l.levels[i].price, price)
    ensures LadderOk(store, AddLevel(l, j, PriceLevel(price, 0, NIL, NIL), []))
  {
    var levels := AddLevel(l, j, PriceLevel(price, 0, NIL, NIL), []).levels;
    forall i, k | 0 <= i < k < |levels|
      ensures Better(l.side, levels[k].price, levels[i].price)
    {
      assert i < j ==> levels[i] == l.levels[i];
      assert i > j ==> levels[i] == l.levels[i - 1];
      assert k < j ==> levels[k] == l.levels[k];
      assert k > j ==> levels[k] == l.levels[k - 1];
    }
  }

  lemma AddEmptyLevelFlat(l: Ladder, j: nat, lvl: PriceLevel)
    requires j <= |l.levels| == |l.chains|
    ensures Flat(AddLevel(l, j, lvl, []).chains) == Flat(l.chains)
  {
    var chains := AddLevel(l, j, lvl, []).chains;
    FlatConcat(l.chains[..j], l.chains[j..]);
    assert l.chains == l.chains[..j] + l.chains[j..];
    FlatSplit(chains, j);
    assert chains[j + 1..] == l.chains[j..] && chains[..j] == l.chains[..j];
  }

  lemma DropEmptyLevelOk(store: Store, l: Ladder, j: nat)
    requires LadderOk(store, l) && j < |l.levels|
    ensures LadderOk(store, DropLevel(l, j))
  {
  }

  lemma DropEmptyLevelFlat(l: Ladder, j: nat)
    requires j < |l.levels| == |l.chains| && l.chains[j] == []
    ensures Flat(DropLevel(l, j).chains) == Flat(l.chains)
  {
    FlatSplit(l.chains, j);
    FlatConcat(l.chains[..j], l.chains[j + 1..]);
  }

  /** The view of a side, split at one level. */
  lemma ViewSplit(store: Store, l: Ladder, j: nat)
    requires j < |l.levels| == |l.chains|
    ensures View(store, l) == View(store, Above(l, j + 1)) + Entries(store, l.chains[j]) + View(store, Below(l, j))
  {
    FlatSplit(l.chains, j);
  }

  lemma SetLevelView(store: Store, store': Store, l: Ladder, j: nat, lvl: PriceLevel, c: seq<int>)
    requires LadderOk(store, l) && j < |l.levels| && |store'| == |store|
    requires forall i :: 0 <= i < |l.chains| && i != j ==> AgreeOn(store, store', l.chains[i])
    ensures View(store', SetLevel(l, j, lvl, c)) ==
            View(store, Above(l, j + 1)) + Entries(store', c) + View(store, Below(l, j))
    ensures Flat(SetLevel(l, j, lvl, c).chains) == Flat(l.chains[j + 1..]) + c + Flat(l.chains[..j])
  {
    var l' := SetLevel(l, j, lvl, c);
    ViewSplit(store', l', j);
    FlatSplit(l'.chains, j);
    assert l'.chains[j + 1..] == l.chains[j + 1..] && l'.chains[..j] == l.chains[..j];
    PartsOk(store, l, j);
    PartsOk(store, l, j + 1);
    forall i | i in Flat(l.chains[j + 1..])
      ensures 0 <= i < |store| && store'[i] == store[i]
    {
      var a, k := FlatMember(store, Above(l, j + 1), i);
      assert i in l.chains[j + 1 + a];
    }
    forall i | i in Flat(l.chains[..j])
      ensures 0 <= i < |store| && store'[i] == store[i]
    {
      var a, k := FlatMember(store, Below(l, j), i);
      assert i in l.chains[a];
    }
    EntriesFrame(store, store', Flat(l.chains[j + 1..]));
    EntriesFrame(store, store', Flat(l.chains[..j]));
  }

  /** The view of a side is in price-time order with positive quantities. */
  lemma {:induction false} ViewSorted(store: Store, l: Ladder)
    requires LadderOk(store, l)
    ensures Sorted(l.side, View(store, l)) && Positive(View(store, l))
    ensures forall i :: 0 <= i < |View(store, l)| ==>
              exists j :: 0 <= j < |l.levels| && View(store, l)[i].price == l.levels[j].price
    decreases |l.levels|
  {
    if l.levels != [] {
      var n := |l.levels| - 1;
      PartsOk(store, l, n);
      ViewSorted(store, Below(l, n));
      ViewSplit(store, l, n);
      var c := l.chains[n];
      assert View(store, Above(l, n + 1)) == [];
      forall k | 0 <= k < |c|
        ensures Entries(store, c)[k].price == l.levels[n].price && Entries(store, c)[k].qty > 0
      {
        assert LevelOk(store, l.side, l.levels[n], c) && Linked(store, l.side, l.levels[n].price, c, k);
      }
    }
  }
}
