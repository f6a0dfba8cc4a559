/** Price-time matching of one market (settlement/matching.rs): which orders
    fill, how much and at what price. Who pays is in module Trades. */
module Matching {
  import opened Results
  import opened Types
  import opened Books

  /** One fill: positions in the two books, quantity and price. */
  datatype Fill = Fill(buy: nat, sell: nat, quantity: nat, price: nat)

  /** Where the sweep stands: both heads and what is left of them, zero meaning
      that the head has not been opened yet. */
  datatype Cursor = Cursor(buy: nat, sell: nat, buyLeft: nat, sellLeft: nat)

  /** What is still open of the head at position `i`. */
  function Open(orders: seq<Order>, i: nat, left: nat): nat
    requires i < |orders|
  {
    if left == 0 then orders[i].quantity else left
  }

  function FillAt(buys: seq<Order>, sells: seq<Order>, c: Cursor): Fill
    requires c.buy < |buys| && c.sell < |sells|
  {
    var buy, sell := buys[c.buy], sells[c.sell];
    Fill(c.buy, c.sell, Min(Open(buys, c.buy, c.buyLeft), Open(sells, c.sell, c.sellLeft)),
         if buy.sequence < sell.sequence then buy.price else sell.price)
  }

  function Advance(buys: seq<Order>, sells: seq<Order>, c: Cursor): Cursor
    requires c.buy < |buys| && c.sell < |sells|
  {
    var quantity := FillAt(buys, sells, c).quantity;
    var buyLeft := Open(buys, c.buy, c.buyLeft) - quantity;
    var sellLeft := Open(sells, c.sell, c.sellLeft) - quantity;
    Cursor(if buyLeft == 0 then c.buy + 1 else c.buy, if sellLeft == 0 then c.sell + 1 else c.sell, buyLeft, sellLeft)
  }

  predicate Crossing(buys: seq<Order>, sells: seq<Order>, c: Cursor) {
    c.buy < |buys| && c.sell < |sells| && buys[c.buy].price >= sells[c.sell].price
  }

  /** The two-pointer sweep from a cursor on. */
  function Sweep(buys: seq<Order>, sells: seq<Order>, c: Cursor): seq<Fill>
    decreases |buys| - c.buy + |sells| - c.sell
  {
    if Crossing(buys, sells, c) then
      [FillAt(buys, sells, c)] + Sweep(buys, sells, Advance(buys, sells, c))
    else
      []
  }

  const START: Cursor := Cursor(0, 0, 0, 0)

  /** The fills of a whole market. */
  function Fills(buys: seq<Order>, sells: seq<Order>): seq<Fill> {
    Sweep(buys, sells, START)
  }

  // ----- measures

  function Volume(fills: seq<Fill>): nat {
    if fills == [] then 0 else fills[0].quantity + Volume(fills[1..])
  }

  /** Quantity filled of one buy, and of one sell. */
  function BuyFilled(fills: seq<Fill>, i: nat): nat {
    if fills == [] then 0 else (if fills[0].buy == i then fills[0].quantity else 0) + BuyFilled(fills[1..], i)
  }

  function SellFilled(fills: seq<Fill>, j: nat): nat {
    if fills == [] then 0 else (if fills[0].sell == j then fills[0].quantity else 0) + SellFilled(fills[1..], j)
  }

  /** Quantity of buys priced at or above p, and of sells priced at or below p. */
  function Demand(buys: seq<Order>, p: nat): nat {
    if buys == [] then 0 else (if buys[0].price >= p then buys[0].quantity else 0) + Demand(buys[1..], p)
  }

  function Supply(sells: seq<Order>, p: nat): nat {
    if sells == [] then 0 else (if sells[0].price <= p then sells[0].quantity else 0) + Supply(sells[1..], p)
  }

  ghost predicate Sorted(orders: seq<Order>, side: Side) {
    && (forall i :: 0 <= i < |orders| ==> orders[i].quantity > 0)
    && (forall i, j :: 0 <= i < j < |orders| ==> Before(side, orders[i], orders[j]))
  }

  // ----- what a cursor still holds

  ghost predicate CursorValid(buys: seq<Order>, sells: seq<Order>, c: Cursor) {
    && c.buy <= |buys| && c.sell <= |sells|
    && (c.buyLeft > 0 ==> c.buy < |buys| && c.buyLeft <= buys[c.buy].quantity)
    && (c.sellLeft > 0 ==> c.sell < |sells| && c.sellLeft <= sells[c.sell].quantity)
  }

  /** Open demand from the cursor on. */
  function DemandFrom(buys: seq<Order>, i: nat, left: nat, p: nat): nat
    requires i <= |buys|
  {
    if i == |buys| then 0
    else (if buys[i].price >= p then Open(buys, i, left) else 0) + Demand(buys[i + 1..], p)
  }

  function SupplyFrom(sells: seq<Order>, j: nat, left: nat, p: nat): nat
    requires j <= |sells|
  {
    if j == |sells| then 0
    else (if sells[j].price <= p then Open(sells, j, left) else 0) + Supply(sells[j + 1..], p)
  }

  lemma AdvanceValid(buys: seq<Order>, sells: seq<Order>, c: Cursor)
    requires Sorted(buys, Buy) && Sorted(sells, Sell)
    requires CursorValid(buys, sells, c) && Crossing(buys, sells, c)
    ensures CursorValid(buys, sells, Advance(buys, sells, c))
    ensures FillAt(buys, sells, c).quantity > 0
  {
  }

  /** A fill takes its quantity off the open demand at prices the buy meets. */
  lemma DemandStep(buys: seq<Order>, sells: seq<Order>, c: Cursor, p: nat)
    requires Sorted(buys, Buy) && CursorValid(buys, sells, c) && Crossing(buys, sells, c)
    ensures var next := Advance(buys, sells, c);
            DemandFrom(buys, c.buy, c.buyLeft, p) == DemandFrom(buys, next.buy, next.buyLeft, p)
              + (if buys[c.buy].price >= p then FillAt(buys, sells, c).quantity else 0)
  {
    var next := Advance(buys, sells, c);
    if next.buy == c.buy + 1 && next.buy < |buys| {
      assert buys[next.buy..][0] == buys[next.buy] && buys[next.buy..][1..] == buys[next.buy + 1..];
    }
  }

  lemma SupplyStep(buys: seq<Order>, sells: seq<Order>, c: Cursor, p: nat)
    requires Sorted(sells, Sell) && CursorValid(buys, sells, c) && Crossing(buys, sells, c)
    ensures var next := Advance(buys, sells, c);
            SupplyFrom(sells, c.sell, c.sellLeft, p) == SupplyFrom(sells, next.sell, next.sellLeft, p)
              + (if sells[c.sell].price <= p then FillAt(buys, sells, c).quantity else 0)
  {
    var next := Advance(buys, sells, c);
    if next.sell == c.sell + 1 && next.sell < |sells| {
      assert sells[next.sell..][0] == sells[next.sell] && sells[next.sell..][1..] == sells[next.sell + 1..];
    }
  }

  lemma {:induction false} NoDemandAbove(buys: seq<Order>, p: nat)
    requires forall i :: 0 <= i < |buys| ==> buys[i].price < p
    ensures Demand(buys, p) == 0
  {
    if buys != [] {
      NoDemandAbove(buys[1..], p);
    }
  }

  lemma {:induction false} NoSupplyBelow(sells: seq<Order>, p: nat)
    requires forall j :: 0 <= j < |sells| ==> sells[j].price > p
    ensures Supply(sells, p) == 0
  {
    if sells != [] {
      NoSupplyBelow(sells[1..], p);
    }
  }

  /** No open demand above the head's price, no open supply below it. */
  lemma HeadIsBest(buys: seq<Order>, sells: seq<Order>, c: Cursor, p: nat)
    requires Sorted(buys, Buy) && Sorted(sells, Sell) && CursorValid(buys, sells, c)
    ensures c.buy < |buys| && p > buys[c.buy].price ==> DemandFrom(buys, c.buy, c.buyLeft, p) == 0
    ensures c.sell < |sells| && p < sells[c.sell].price ==> SupplyFrom(sells, c.sell, c.sellLeft, p) == 0
  {
    if c.buy < |buys| && p > buys[c.buy].price {
      var rest := buys[c.buy + 1..];
      forall i | 0 <= i < |rest| ensures rest[i].price < p {
        assert Before(Buy, buys[c.buy], buys[c.buy + 1 + i]);
      }
      NoDemandAbove(rest, p);
    }
    if c.sell < |sells| && p < sells[c.sell].price {
      var rest := sells[c.sell + 1..];
      forall j | 0 <= j < |rest| ensures rest[j].price > p {
        assert Before(Sell, sells[c.sell], sells[c.sell + 1 + j]);
      }
      NoSupplyBelow(rest, p);
    }
  }

  /** No price clears more than the sweep trades. */
  lemma {:induction false} SweepAtLeast(buys: seq<Order>, sells: seq<Order>, c: Cursor, p: nat)
    requires Sorted(buys, Buy) && Sorted(sells, Sell) && CursorValid(buys, sells, c)
    ensures Min(DemandFrom(buys, c.buy, c.buyLeft, p), SupplyFrom(sells, c.sell, c.sellLeft, p))
            <= Volume(Sweep(buys, sells, c))
    decreases |buys| - c.buy + |sells| - c.sell
  {
    HeadIsBest(buys, sells, c, p);
    if Crossing(buys, sells, c) {
      AdvanceValid(buys, sells, c);
      SweepAtLeast(buys, sells, Advance(buys, sells, c), p);
      DemandStep(buys, sells, c, p);
      SupplyStep(buys, sells, c, p);
      assert Sweep(buys, sells, c)[1..] == Sweep(buys, sells, Advance(buys, sells, c));
    }
  }

  /** Some price clears as much as the sweep trades. */
  lemma {:induction false} SweepAtMost(buys: seq<Order>, sells: seq<Order>, c: Cursor) returns (p: nat)
    requires Sorted(buys, Buy) && Sorted(sells, Sell) && CursorValid(buys, sells, c)
    ensures Volume(Sweep(buys, sells, c))
            <= Min(DemandFrom(buys, c.buy, c.buyLeft, p), SupplyFrom(sells, c.sell, c.sellLeft, p))
    decreases |buys| - c.buy + |sells| - c.sell
  {
    p := 0;
    if Crossing(buys, sells, c) {
      var next := Advance(buys, sells, c);
      AdvanceValid(buys, sells, c);
      p := SweepAtMost(buys, sells, next);
      assert Sweep(buys, sells, c)[1..] == Sweep(buys, sells, next);
      if Volume(Sweep(buys, sells, next)) == 0 {
        p := sells[c.sell].price;
      } else {
        HeadIsBest(buys, sells, c, p);
        DemandStep(buys, sells, c, p);
        SupplyStep(buys, sells, c, p);
      }
      DemandStep(buys, sells, c, p);
      SupplyStep(buys, sells, c, p);
    }
  }

  lemma FromStart(orders: seq<Order>, p: nat)
    ensures DemandFrom(orders, 0, 0, p) == Demand(orders, p)
    ensures SupplyFrom(orders, 0, 0, p) == Supply(orders, p)
  {
  }

  /** THEOREM. On priority-sorted books the sweep trades exactly the maximum
      over all prices of the smaller of demand and supply. */
  lemma VolumeIsMaximal(buys: seq<Order>, sells: seq<Order>)
    requires Sorted(buys, Buy) && Sorted(sells, Sell)
    ensures forall p: nat :: Min(Demand(buys, p), Supply(sells, p)) <= Volume(Fills(buys, sells))
    ensures exists p: nat :: Min(Demand(buys, p), Supply(sells, p)) == Volume(Fills(buys, sells))
  {
    forall p: nat ensures Min(Demand(buys, p), Supply(sells, p)) <= Volume(Fills(buys, sells)) {
      SweepAtLeast(buys, sells, START, p);
      FromStart(buys, p);
      FromStart(sells, p);
    }
    var p := SweepAtMost(buys, sells, START);
    FromStart(buys, p);
    FromStart(sells, p);
    assert Min(Demand(buys, p), Supply(sells, p)) == Volume(Fills(buys, sells));
  }

  // ----- order by order

  /** What is open of any order, given where the sweep stands on its side. */
  function OpenAt(orders: seq<Order>, head: nat, left: nat, i: nat): nat
    requires i < |orders|
  {
    if i < head then 0 else if i == head then Open(orders, i, left) else orders[i].quantity
  }

  /** One step of the sweep, seen from one order of each side. */
  lemma FilledStep(buys: seq<Order>, sells: seq<Order>, c: Cursor, i: nat, j: nat)
    requires Sorted(buys, Buy) && Sorted(sells, Sell) && CursorValid(buys, sells, c) && Crossing(buys, sells, c)
    requires i < |buys| && j < |sells|
    ensures var next := Advance(buys, sells, c);
            var quantity := FillAt(buys, sells, c).quantity;
            && BuyFilled(Sweep(buys, sells, c), i) ==
                 (if i == c.buy then quantity else 0) + BuyFilled(Sweep(buys, sells, next), i)
            && OpenAt(buys, c.buy, c.buyLeft, i) ==
                 (if i == c.buy then quantity else 0) + OpenAt(buys, next.buy, next.buyLeft, i)
            && SellFilled(Sweep(buys, sells, c), j) ==
                 (if j == c.sell then quantity else 0) + SellFilled(Sweep(buys, sells, next), j)
            && OpenAt(sells, c.sell, c.sellLeft, j) ==
                 (if j == c.sell then quantity else 0) + OpenAt(sells, next.sell, next.sellLeft, j)
  {
    assert Sweep(buys, sells, c)[1..] == Sweep(buys, sells, Advance(buys, sells, c));
  }

  /** Without a crossing head nothing is filled any more. */
  lemma NothingFilled(buys: seq<Order>, sells: seq<Order>, c: Cursor, i: nat)
    requires !Crossing(buys, sells, c)
    ensures BuyFilled(Sweep(buys, sells, c), i) == 0 && SellFilled(Sweep(buys, sells, c), i) == 0
  {
  }

  /** No overfilling, from any cursor on. */
  lemma {:induction false} NeverOverfilled(buys: seq<Order>, sells: seq<Order>, c: Cursor, i: nat, j: nat)
    requires Sorted(buys, Buy) && Sorted(sells, Sell) && CursorValid(buys, sells, c)
    requires i < |buys| && j < |sells|
    ensures BuyFilled(Sweep(buys, sells, c), i) <= OpenAt(buys, c.buy, c.buyLeft, i)
    ensures SellFilled(Sweep(buys, sells, c), j) <= OpenAt(sells, c.sell, c.sellLeft, j)
    decreases |buys| - c.buy + |sells| - c.sell
  {
    if Crossing(buys, sells, c) {
      AdvanceValid(buys, sells, c);
      FilledStep(buys, sells, c, i, j);
      NeverOverfilled(buys, sells, Advance(buys, sells, c), i, j);
    } else {
      NothingFilled(buys, sells, c, i);
      NothingFilled(buys, sells, c, j);
    }
  }

  /** A buy fills only when the better buys are exhausted. */
  lemma {:induction false} BuysFillInOrder(buys: seq<Order>, sells: seq<Order>, c: Cursor, k: nat, i: nat)
    requires Sorted(buys, Buy) && Sorted(sells, Sell) && CursorValid(buys, sells, c)
    requires k < i < |buys| && BuyFilled(Sweep(buys, sells, c), i) > 0
    ensures BuyFilled(Sweep(buys, sells, c), k) == OpenAt(buys, c.buy, c.buyLeft, k)
    decreases |buys| - c.buy + |sells| - c.sell
  {
    OnlyWhileCrossing(buys, sells, c, i);
    var next := Advance(buys, sells, c);
    AdvanceValid(buys, sells, c);
    FilledStep(buys, sells, c, i, c.sell);
    FilledStep(buys, sells, c, k, c.sell);
    if i == c.buy {
      NeverOverfilled(buys, sells, next, k, c.sell);
    } else {
      BuysFillInOrder(buys, sells, next, k, i);
    }
  }

  lemma OnlyWhileCrossing(buys: seq<Order>, sells: seq<Order>, c: Cursor, i: nat)
    requires BuyFilled(Sweep(buys, sells, c), i) > 0 || SellFilled(Sweep(buys, sells, c), i) > 0
    ensures Crossing(buys, sells, c)
  {
  }

  lemma {:induction false} SellsFillInOrder(buys: seq<Order>, sells: seq<Order>, c: Cursor, k: nat, j: nat)
    requires Sorted(buys, Buy) && Sorted(sells, Sell) && CursorValid(buys, sells, c)
    requires k < j < |sells| && SellFilled(Sweep(buys, sells, c), j) > 0
    ensures SellFilled(Sweep(buys, sells, c), k) == OpenAt(sells, c.sell, c.sellLeft, k)
    decreases |buys| - c.buy + |sells| - c.sell
  {
    OnlyWhileCrossing(buys, sells, c, j);
    var next := Advance(buys, sells, c);
    AdvanceValid(buys, sells, c);
    FilledStep(buys, sells, c, c.buy, j);
    FilledStep(buys, sells, c, c.buy, k);
    if j == c.sell {
      NeverOverfilled(buys, sells, next, c.buy, k);
    } else {
      SellsFillInOrder(buys, sells, next, k, j);
    }
  }

  /** THEOREM. No order is filled beyond its quantity, and an order is filled
      only when every higher-priority order of its side is filled completely. */
  lemma FillsRespectPriority(buys: seq<Order>, sells: seq<Order>)
    requires Sorted(buys, Buy) && Sorted(sells, Sell)
    ensures var fills := Fills(buys, sells);
            && (forall i :: 0 <= i < |buys| ==> BuyFilled(fills, i) <= buys[i].quantity)
            && (forall j :: 0 <= j < |sells| ==> SellFilled(fills, j) <= sells[j].quantity)
            && (forall i, k :: 0 <= k < i < |buys| && BuyFilled(fills, i) > 0 ==> BuyFilled(fills, k) == buys[k].quantity)
            && (forall j, k :: 0 <= k < j < |sells| && SellFilled(fills, j) > 0 ==> SellFilled(fills, k) == sells[k].quantity)
  {
    var fills := Fills(buys, sells);
    forall i | 0 <= i < |buys| ensures BuyFilled(fills, i) <= buys[i].quantity {
      if sells == [] { NothingFilled(buys, sells, START, i); } else { NeverOverfilled(buys, sells, START, i, 0); }
    }
    forall j | 0 <= j < |sells| ensures SellFilled(fills, j) <= sells[j].quantity {
      if buys == [] { NothingFilled(buys, sells, START, j); } else { NeverOverfilled(buys, sells, START, 0, j); }
    }
    forall i, k | 0 <= k < i < |buys| && BuyFilled(fills, i) > 0 ensures BuyFilled(fills, k) == buys[k].quantity {
      BuysFillInOrder(buys, sells, START, k, i);
    }
    forall j, k | 0 <= k < j < |sells| && SellFilled(fills, j) > 0 ensures SellFilled(fills, k) == sells[k].quantity {
      SellsFillInOrder(buys, sells, START, k, j);
    }
  }

  /** Whatever the sweep leaves open no longer crosses. */
  lemma {:induction false} SweepLeavesNoCross(buys: seq<Order>, sells: seq<Order>, c: Cursor, i: nat, j: nat)
    requires Sorted(buys, Buy) && Sorted(sells, Sell) && CursorValid(buys, sells, c)
    requires i < |buys| && j < |sells|
    requires BuyFilled(Sweep(buys, sells, c), i) < OpenAt(buys, c.buy, c.buyLeft, i)
    requires SellFilled(Sweep(buys, sells, c), j) < OpenAt(sells, c.sell, c.sellLeft, j)
    ensures buys[i].price < sells[j].price
    decreases |buys| - c.buy + |sells| - c.sell
  {
    if Crossing(buys, sells, c) {
      AdvanceValid(buys, sells, c);
      FilledStep(buys, sells, c, i, j);
      SweepLeavesNoCross(buys, sells, Advance(buys, sells, c), i, j);
    } else {
      assert i == c.buy || Before(Buy, buys[c.buy], buys[i]);
      assert j == c.sell || Before(Sell, sells[c.sell], sells[j]);
    }
  }

  /** THEOREM. After a match no buy and sell that are both partly open cross. */
  lemma NoCrossRemains(buys: seq<Order>, sells: seq<Order>, i: nat, j: nat)
    requires Sorted(buys, Buy) && Sorted(sells, Sell)
    requires i < |buys| && j < |sells|
    requires BuyFilled(Fills(buys, sells), i) < buys[i].quantity
    requires SellFilled(Fills(buys, sells), j) < sells[j].quantity
    ensures buys[i].price < sells[j].price
  {
    SweepLeavesNoCross(buys, sells, START, i, j);
  }

  /** A fill is between crossing orders at the older one's price. */
  ghost predicate FairFill(buys: seq<Order>, sells: seq<Order>, fill: Fill) {
    && fill.buy < |buys| && fill.sell < |sells|
    && fill.quantity > 0
    && sells[fill.sell].price <= fill.price <= buys[fill.buy].price
    && fill.price == (if buys[fill.buy].sequence < sells[fill.sell].sequence then buys[fill.buy].price else sells[fill.sell].price)
  }

  lemma {:induction false} SweepIsFair(buys: seq<Order>, sells: seq<Order>, c: Cursor)
    requires Sorted(buys, Buy) && Sorted(sells, Sell) && CursorValid(buys, sells, c)
    ensures forall k :: 0 <= k < |Sweep(buys, sells, c)| ==> FairFill(buys, sells, Sweep(buys, sells, c)[k])
    ensures |Sweep(buys, sells, c)| + c.buy + c.sell <= |buys| + |sells|
    ensures c.buy < |buys| && c.sell < |sells| ==> |Sweep(buys, sells, c)| + c.buy + c.sell < |buys| + |sells|
    decreases |buys| - c.buy + |sells| - c.sell
  {
    if Crossing(buys, sells, c) {
      var next := Advance(buys, sells, c);
      AdvanceValid(buys, sells, c);
      SweepIsFair(buys, sells, next);
      assert Sweep(buys, sells, c)[1..] == Sweep(buys, sells, next);
    }
  }

  /** THEOREM. Every fill is at the older order's price, between the two limits,
      and two non-empty books give at most |buys| + |sells| - 1 of them. */
  lemma FillsAreFair(buys: seq<Order>, sells: seq<Order>)
    requires Sorted(buys, Buy) && Sorted(sells, Sell)
    ensures forall k :: 0 <= k < |Fills(buys, sells)| ==> FairFill(buys, sells, Fills(buys, sells)[k])
    ensures buys != [] && sells != [] ==> |Fills(buys, sells)| <= |buys| + |sells| - 1
    ensures buys == [] || sells == [] ==> Fills(buys, sells) == []
  {
    SweepIsFair(buys, sells, START);
  }
}
