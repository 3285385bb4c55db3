/** One side of the book, include/order_book/order_book.hpp: a vector of levels sorted so that
    the best one is at the back. */
module SideBooks {
  import opened Types
  import opened Pool
  import opened PriceTime
  import opened Chains

  /** How many levels come before price `p` on this side. */
  function LowerBound(side: Side, levels: seq<PriceLevel>, p: Price): (j: nat)
    ensures j <= |levels|
    ensures forall i :: 0 <= i < j ==> Better(side, p, levels[i].price)
    ensures j < |levels| ==> !Better(side, p, levels[j].price)
  {
    if levels == [] || !Better(side, p, levels[0].price) then 0
    else 1 + LowerBound(side, levels[1..], p)
  }

  lemma {:induction false} LowerBoundUnique(side: Side, levels: seq<PriceLevel>, p: Price, j: nat)
    requires j <= |levels|
    requires forall i :: 0 <= i < j ==> Better(side, p, levels[i].price)
    requires j < |levels| ==> !Better(side, p, levels[j].price)
    ensures LowerBound(side, levels, p) == j
  {
  }

  ghost predicate Ascending(side: Side, levels: seq<PriceLevel>) {
    forall i, j :: 0 <= i < j < |levels| ==> Better(side, levels[j].price, levels[i].price)
  }

  /** The queues after slot `o` has been queued at price `p`. */
  function PutChain(l: Ladder, p: Price, o: int): seq<seq<int>>
    requires |l.levels| == |l.chains|
  {
    var j := LowerBound(l.side, l.levels, p);
    if j < |l.levels| && l.levels[j].price == p then l.chains[j := l.chains[j] + [o]]
    else l.chains[..j] + [[o]] + l.chains[j..]
  }

  function Drop(c: seq<int>, o: int): seq<int> {
    if c == [] then [] else if c[0] == o then Drop(c[1..], o) else [c[0]] + Drop(c[1..], o)
  }

  /** The queues after slot `o` has been taken from the level at price `p`, which goes too if
      it was the last. */
  function CutChain(l: Ladder, p: Price, o: int): seq<seq<int>>
    requires |l.levels| == |l.chains|
  {
    var j := LowerBound(l.side, l.levels, p);
    if j < |l.levels| && l.levels[j].price == p then
      var c := Drop(l.chains[j], o);
      if c == [] then l.chains[..j] + l.chains[j + 1..] else l.chains[j := c]
    else l.chains
  }

  lemma {:induction false} DropAbsent(c: seq<int>, o: int)
    requires o !in c
    ensures Drop(c, o) == c
  {
    if c != [] {
      DropAbsent(c[1..], o);
    }
  }

  lemma {:induction false} DropConcat(a: seq<int>, b: seq<int>, o: int)
    ensures Drop(a + b, o) == Drop(a, o) + Drop(b, o)
  {
    if a == [] {
      assert a + b == b;
    } else {
      DropConcat(a[1..], b, o);
      assert (a + b)[1..] == a[1..] + b;
    }
  }

  lemma DropIsRemove(c: seq<int>, k: nat)
    requires Distinct(c) && k < |c|
    ensures Drop(c, c[k]) == Remove(c, k)
  {
    var a, b := c[..k], c[k + 1..];
    assert c == a + ([c[k]] + b);
    DropConcat(a, [c[k]] + b, c[k]);
    DropAbsent(a, c[k]);
    assert ([c[k]] + b)[1..] == b;
    DropAbsent(b, c[k]);
  }

  class SideBook {
    const side: Side
    var levels: seq<PriceLevel>
    ghost var chains: seq<seq<int>>

    constructor (side: Side)
      ensures this.side == side && levels == [] && chains == []
    {
      this.side := side;
      levels := [];
      chains := [];
    }

    ghost function AsLadder(): Ladder
      reads this
    {
      Ladder(side, levels, chains)
    }

    ghost predicate Sorted()
      reads this
    {
      |levels| == |chains| && Ascending(side, levels)
    }

    predicate LessForSide(a: Price, b: Price) {
      if side == Buy then a < b else a > b
    }

    /** Binary search for the first level not before `p`, as std::lower_bound does it. */
    method FindLevel(p: Price) returns (j: nat)
      requires Sorted()
      ensures j == LowerBound(side, levels, p)
      ensures j <= |levels| && forall i :: j <= i < |levels| ==> !LessForSide(levels[i].price, p)
    {
      j := 0;
      var hi := |levels|;
      while j < hi
        invariant 0 <= j <= hi <= |levels|
        invariant forall i :: 0 <= i < j ==> LessForSide(levels[i].price, p)
        invariant forall i :: hi <= i < |levels| ==> !LessForSide(levels[i].price, p)
      {
        var mid := (j + hi) / 2;
        if LessForSide(levels[mid].price, p) {
          j := mid + 1;
        } else {
          hi := mid;
        }
      }
      LowerBoundUnique(side, levels, p, j);
    }

    method GetOrInsert(p: Price) returns (j: nat)
      requires Sorted()
      modifies this
      ensures Sorted()
      ensures j == LowerBound(side, old(levels), p)
      ensures j < |levels| && levels[j].price == p
      ensures AsLadder() == if j < |old(levels)| && old(levels)[j].price == p then old(AsLadder())
                            else AddLevel(old(AsLadder()), j, PriceLevel(p, 0, NIL, NIL), [])
    {
      j := FindLevel(p);
      if j < |levels| && levels[j].price == p {
        return;
      }
      assert forall i :: j < i < |levels| ==> Better(side, levels[i].price, levels[j].price);
      levels := levels[..j] + [PriceLevel(p, 0, NIL, NIL)] + levels[j..];
      chains := chains[..j] + [[]] + chains[j..];
    }

    /** The index of the level at this price, NIL when there is none. */
    method Find(p: Price) returns (j: int)
      requires Sorted()
      ensures j != NIL ==> 0 <= j < |levels| && levels[j].price == p && j == LowerBound(side, levels, p)
      ensures j == NIL ==> forall i :: 0 <= i < |levels| ==> levels[i].price != p
    {
      j := FindLevel(p);
      if j < |levels| && levels[j].price == p {
        return;
      }
      assert forall i :: j < i < |levels| ==> Better(side, levels[i].price, levels[j].price);
      j := NIL;
    }

    method EraseIfEmpty(i: nat)
      requires Sorted() && i < |levels|
      modifies this
      ensures Sorted()
      ensures AsLadder() == if old(levels)[i].Empty() then DropLevel(old(AsLadder()), i) else old(AsLadder())
    {
      if !levels[i].Empty() {
        return;
      }
      var j := FindLevel(levels[i].price);
      if j < |levels| && levels[j].price == levels[i].price {
        levels := levels[..j] + levels[j + 1..];
        chains := chains[..j] + chains[j + 1..];
      }
    }

    /** The index of the best level, NIL on an empty side. */
    function Best(): (j: int)
      reads this
      ensures levels == [] ==> j == NIL
      ensures levels != [] ==> 0 <= j < |levels|
    {
      if levels == [] then NIL else |levels| - 1
    }

    /** A write through a pointer to level `j`. */
    method Set(j: nat, lvl: PriceLevel, ghost c: seq<int>)
      requires Sorted() && j < |levels| && lvl.price == levels[j].price
      modifies this
      ensures Sorted() && AsLadder() == SetLevel(old(AsLadder()), j, lvl, c)
    {
      levels := levels[j := lvl];
      chains := chains[j := c];
    }
  }
}
