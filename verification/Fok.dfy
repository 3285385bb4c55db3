/** The fill-or-kill check of submit walks the cached level totals, which are 64-bit words. */
module Fok {
  import opened Types
  import opened PriceTime
  import opened Chains

  /** What the walk adds up: the totals of the levels from the best one on, while they cross. */
  function WalkQty(r: Request, levels: seq<PriceLevel>): nat {
    if levels == [] || !PriceCrosses(r.side, r.price, levels[|levels| - 1].price) then 0
    else levels[|levels| - 1].totalQty + WalkQty(r, levels[..|levels| - 1])
  }

  /** The orders at one price, followed by others. */
  lemma {:induction false} AtFront(best: seq<Entry>, below: seq<Entry>, p: Price)
    requires forall i :: 0 <= i < |best| ==> best[i].price == p
    requires forall i :: 0 <= i < |below| ==> below[i].price != p
    ensures QtyAt(best + below, p) == SumQty(best) && NotAt(best + below, p) == below
    decreases |best| + |below|
  {
    var s := best + below;
    if best != [] {
      assert s[1..] == best[1..] + below;
      AtFront(best[1..], below, p);
    } else if below != [] {
      assert s == below && [] + below[1..] == below[1..];
      AtFront([], below[1..], p);
    }
  }

  lemma {:induction false} NothingAdmitted(r: Request, s: seq<Entry>)
    requires forall i :: 0 <= i < |s| ==> !Crosses(r, s[i].price)
    ensures AdmittedTotals(r, s) == 0
    decreases |s|
  {
    if s != [] {
      NotAtWithin(s, s[0].price);
      assert forall x :: x in s ==> !Crosses(r, x.price);
      NothingAdmitted(r, NotAt(s, s[0].price));
    }
  }

  lemma {:induction false} NotAtWithin(s: seq<Entry>, p: Price)
    ensures forall x :: x in NotAt(s, p) ==> x in s
  {
    if s != [] {
      NotAtWithin(s[1..], p);
    }
  }

  /** The view is the best level followed by the rest, all of it at strictly worse prices. */
  lemma PeelBest(store: Store, l: Ladder)
    requires LadderOk(store, l) && l.levels != []
    ensures LadderOk(store, Below(l, |l.levels| - 1))
    ensures var n := |l.levels| - 1;
            var best, below := Entries(store, l.chains[n]), View(store, Below(l, n));
            && View(store, l) == best + below
            && (forall i :: 0 <= i < |best| ==> best[i].price == l.levels[n].price)
            && (forall i :: 0 <= i < |below| ==> Better(l.side, l.levels[n].price, below[i].price))
            && l.levels[n].totalQty == SumQty(best) % TWO64
  {
    var n := |l.levels| - 1;
    PartsOk(store, l, n);
    ViewSorted(store, Below(l, n));
    assert LevelOk(store, l.side, l.levels[n], l.chains[n]);
    forall i | 0 <= i < |l.chains[n]|
      ensures Entries(store, l.chains[n])[i].price == l.levels[n].price
    {
      assert Linked(store, l.side, l.levels[n].price, l.chains[n], i);
    }
    assert Flat(l.chains) == l.chains[n] + Flat(l.chains[..n]);
  }

  /** The price in front contributes its word, and nothing else does if it is not admitted. */
  lemma {:induction false} PeelTotals(r: Request, best: seq<Entry>, below: seq<Entry>, p: Price)
    requires forall i :: 0 <= i < |best| ==> best[i].price == p
    requires forall i :: 0 <= i < |below| ==> below[i].price != p
    requires !Crosses(r, p) ==> forall i :: 0 <= i < |below| ==> !Crosses(r, below[i].price)
    ensures AdmittedTotals(r, best + below) ==
            if Crosses(r, p) then SumQty(best) % TWO64 + AdmittedTotals(r, below) else 0
  {
    if !Crosses(r, p) {
      NothingAdmitted(r, below);
    }
    if best == [] {
      assert best + below == below;
    } else {
      AtFront(best, below, p);
      assert (best + below)[0] == best[0];
    }
  }

  /** Level by level from the best one while prices cross, the walk adds up the word at every
      admitted price of the book. */
  lemma {:induction false} WalkIsAdmittedTotals(store: Store, l: Ladder, r: Request)
    requires LadderOk(store, l) && l.side == Opposite(r.side) && r.kind == FOK
    ensures WalkQty(r, l.levels) == AdmittedTotals(r, View(store, l))
    decreases |l.levels|
  {
    if l.levels == [] {
      assert Flat(l.chains) == [];
    } else {
      var n := |l.levels| - 1;
      var best, below := Entries(store, l.chains[n]), View(store, Below(l, n));
      hide LadderOk, View, AdmittedTotals, Entries;
      PeelBest(store, l);
      PeelTotals(r, best, below, l.levels[n].price);
      WalkIsAdmittedTotals(store, Below(l, n), r);
    }
  }
}
