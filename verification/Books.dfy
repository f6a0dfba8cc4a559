/** Order-book validation (validation.rs, order.rs): the host proposes which
    orders go where, the guest accepts only the one right arrangement. */
module Books {
  import opened Keys
  import opened Results
  import opened Sorting
  import opened Types
  import opened Validation

  /** Price-time priority: best price first, then the earlier sequence. */
  predicate Before(side: Side, a: Order, b: Order) {
    || (if side.Buy? then a.price > b.price else a.price < b.price)
    || (a.price == b.price && a.sequence < b.sequence)
  }

  function ValidateBookOrders(market: MarketId, indices: seq<nat>, side: Side, orders: seq<Order>,
                              seen: set<nat>, previous: Option<Order>): Result<(seq<Order>, set<nat>)>
    decreases |indices|
  {
    if indices == [] then
      Ok(([], seen))
    else if indices[0] >= |orders| then
      Err(InvalidOrderIndex)
    else
      var order := orders[indices[0]];
      if indices[0] in seen then Err(DuplicateOrderIndex)
      else if order.market != market then Err(OrderBookMarketMismatch)
      else if order.side != side then Err(OrderBookSideMismatch)
      else if previous.Some? && !Before(side, previous.value, order) then Err(UnsortedOrderBook)
      else
        var rest :- ValidateBookOrders(market, indices[1..], side, orders, seen + {indices[0]}, Some(order));
        Ok(([order] + rest.0, rest.1))
  }

  function BuildFrom(orders: seq<Order>, books: seq<OrderBook>, config: ExchangeConfig,
                     previous: Option<MarketId>, seen: set<nat>): Result<(seq<ValidatedBook>, set<nat>)>
    decreases |books|
  {
    if books == [] then
      Ok(([], seen))
    else
      var book := books[0];
      if book.buys == [] && book.sells == [] then Err(EmptyOrderBook)
      else if previous == Some(book.market) then Err(DuplicateMarketOrderBook)
      else if previous.Some? && previous.value > book.market then Err(UnsortedMarketOrderBooks)
      else
        var market := FindMarket(config.markets, book.market);
        if market.None? then Err(UnknownMarket)
        else
          var baseAsset := FindAsset(config.assets, market.value.base);
          if baseAsset.None? then Err(UnknownAsset)
          else
            var buys :- ValidateBookOrders(book.market, book.buys, Buy, orders, seen, None);
            var sells :- ValidateBookOrders(book.market, book.sells, Sell, orders, buys.1, None);
            var rest :- BuildFrom(orders, books[1..], config, Some(book.market), sells.1);
            Ok(([ValidatedBook(market.value, baseAsset.value, buys.0, sells.0)] + rest.0, rest.1))
  }

  function BuildValidatedBooks(orders: seq<Order>, books: seq<OrderBook>, config: ExchangeConfig): Result<seq<ValidatedBook>> {
    var built :- BuildFrom(orders, books, config, None, {});
    if exists i :: 0 <= i < |orders| && i !in built.1 then Err(MissingOrderIndex) else Ok(built.0)
  }

  // ----- what acceptance means

  /** The first order goes first: a better price for its side, or the same price
      and an earlier sequence. */
  predicate Better(a: Order, b: Order) {
    match a.side
    case Buy => a.price > b.price || (a.price == b.price && a.sequence < b.sequence)
    case Sell => a.price < b.price || (a.price == b.price && a.sequence < b.sequence)
  }

  /** The indices name orders of one market and side, each before the next by
      price and then sequence. */
  ghost predicate Listed(orders: seq<Order>, market: MarketId, side: Side, indices: seq<nat>) {
    && (forall p :: 0 <= p < |indices| ==>
          indices[p] < |orders| && orders[indices[p]].market == market && orders[indices[p]].side == side)
    && (forall p, q :: 0 <= p < q < |indices| ==> Better(orders[indices[p]], orders[indices[q]]))
  }

  ghost predicate BookProper(orders: seq<Order>, book: OrderBook) {
    && (book.buys != [] || book.sells != [])
    && Listed(orders, book.market, Buy, book.buys)
    && Listed(orders, book.market, Sell, book.sells)
  }

  ghost predicate MarketKnown(config: ExchangeConfig, market: MarketId) {
    && FindMarket(config.markets, market).Some?
    && FindAsset(config.assets, FindMarket(config.markets, market).value.base).Some?
  }

  function SideIndices(book: OrderBook, side: Side): seq<nat> {
    if side.Buy? then book.buys else book.sells
  }

  /** Every book proper, markets strictly ascending, every order in its book. */
  ghost predicate Arranged(orders: seq<Order>, books: seq<OrderBook>) {
    && (forall k :: 0 <= k < |books| ==> BookProper(orders, books[k]))
    && (forall k, l :: 0 <= k < l < |books| ==> books[k].market < books[l].market)
    && (forall i :: 0 <= i < |orders| ==> InSomeBook(books, i))
  }

  ghost predicate InSomeBook(books: seq<OrderBook>, i: nat) {
    exists k :: 0 <= k < |books| && (i in books[k].buys || i in books[k].sells)
  }

  function Resolve(orders: seq<Order>, indices: seq<nat>): (r: seq<Order>)
    requires forall p :: 0 <= p < |indices| ==> indices[p] < |orders|
    ensures |r| == |indices| && forall p :: 0 <= p < |r| ==> r[p] == orders[indices[p]]
  {
    seq(|indices|, p requires 0 <= p < |indices| => orders[indices[p]])
  }

  lemma BeforeTransitive(side: Side, a: Order, b: Order, c: Order)
    requires Before(side, a, b) && Before(side, b, c)
    ensures Before(side, a, c)
  {
  }

  /** Orders already placed, none of which may come after the next one. */
  ghost predicate Behind(market: MarketId, side: Side, orders: seq<Order>, seen: set<nat>, previous: Option<Order>) {
    forall i :: i in seen && i < |orders| && orders[i].market == market && orders[i].side == side ==>
      previous.Some? && !Before(side, previous.value, orders[i])
  }

  /** One side of a book is accepted exactly when it is listed in priority. */
  lemma {:induction false} BookOrdersAccepted(market: MarketId, indices: seq<nat>, side: Side, orders: seq<Order>,
                                              seen: set<nat>, previous: Option<Order>)
    requires Behind(market, side, orders, seen, previous)
    ensures var r := ValidateBookOrders(market, indices, side, orders, seen, previous);
            && (r.Ok? <==> && Listed(orders, market, side, indices)
                           && (previous.Some? && indices != [] ==> Before(side, previous.value, orders[indices[0]])))
            && (r.Ok? ==> r.value.0 == Resolve(orders, indices) && r.value.1 == seen + (set i | i in indices))
    decreases |indices|
  {
    hide Before, Better, Listed, Behind;
    if indices == [] {
      NoneListed(orders, market, side);
    } else {
      var rest := indices[1..];
      if indices[0] < |orders| && orders[indices[0]].market == market && orders[indices[0]].side == side
         && (previous.Some? ==> Before(side, previous.value, orders[indices[0]])) {
        var order := orders[indices[0]];
        SeenStaysBehind(market, side, orders, seen, previous, indices[0]);
        BookOrdersAccepted(market, rest, side, orders, seen + {indices[0]}, Some(order));
        BookOrdersStep(market, indices, side, orders, seen, previous);
        ListedStep(orders, market, side, indices);
      } else {
        BookOrdersRefused(market, indices, side, orders, seen, previous);
      }
    }
  }

  lemma NoneListed(orders: seq<Order>, market: MarketId, side: Side)
    ensures Listed(orders, market, side, [])
  {
  }

  lemma BookOrdersRefused(market: MarketId, indices: seq<nat>, side: Side, orders: seq<Order>, seen: set<nat>, previous: Option<Order>)
    requires indices != []
    requires indices[0] >= |orders| || orders[indices[0]].market != market || orders[indices[0]].side != side
             || (previous.Some? && !Before(side, previous.value, orders[indices[0]]))
    ensures ValidateBookOrders(market, indices, side, orders, seen, previous).Err?
    ensures Listed(orders, market, side, indices) ==> previous.Some? && !Before(side, previous.value, orders[indices[0]])
  {
  }

  lemma BookOrdersStep(market: MarketId, indices: seq<nat>, side: Side, orders: seq<Order>, seen: set<nat>, previous: Option<Order>)
    requires indices != [] && indices[0] < |orders| && Behind(market, side, orders, seen, previous)
    requires orders[indices[0]].market == market && orders[indices[0]].side == side
    requires previous.Some? ==> Before(side, previous.value, orders[indices[0]])
    ensures var rest := ValidateBookOrders(market, indices[1..], side, orders, seen + {indices[0]}, Some(orders[indices[0]]));
            ValidateBookOrders(market, indices, side, orders, seen, previous) ==
            if rest.Err? then rest else Ok(([orders[indices[0]]] + rest.value.0, rest.value.1))
    ensures (set i | i in indices) == {indices[0]} + (set i | i in indices[1..])
  {
    assert indices == [indices[0]] + indices[1..];
  }

  /** Orders already seen never come after the one just placed. */
  lemma SeenStaysBehind(market: MarketId, side: Side, orders: seq<Order>, seen: set<nat>, previous: Option<Order>, index: nat)
    requires index < |orders| && (previous.Some? ==> Before(side, previous.value, orders[index]))
    requires Behind(market, side, orders, seen, previous)
    ensures Behind(market, side, orders, seen + {index}, Some(orders[index]))
  {
    forall i | i in seen && i < |orders| && orders[i].market == market && orders[i].side == side
      ensures !Before(side, orders[index], orders[i])
    {
      if Before(side, orders[index], orders[i]) {
        BeforeTransitive(side, previous.value, orders[index], orders[i]);
        assert false;
      }
    }
  }

  lemma ListedStep(orders: seq<Order>, market: MarketId, side: Side, indices: seq<nat>)
    requires indices != [] && indices[0] < |orders|
    requires orders[indices[0]].market == market && orders[indices[0]].side == side
    ensures Listed(orders, market, side, indices) <==>
              && Listed(orders, market, side, indices[1..])
              && (|indices| > 1 ==> Before(side, orders[indices[0]], orders[indices[1]]))
  {
    var rest := indices[1..];
    if Listed(orders, market, side, rest) && (|indices| > 1 ==> Before(side, orders[indices[0]], orders[indices[1]])) {
      forall q | 0 < q < |indices| ensures Before(side, orders[indices[0]], orders[indices[q]]) {
        assert indices[q] == rest[q - 1] && indices[1] == rest[0];
        if q > 1 {
          BeforeTransitive(side, orders[indices[0]], orders[rest[0]], orders[rest[q - 1]]);
        }
      }
      forall p, q | 0 < p < q < |indices| ensures Before(side, orders[indices[p]], orders[indices[q]]) {
        assert indices[p] == rest[p - 1] && indices[q] == rest[q - 1];
      }
      assert forall p :: 0 < p < |indices| ==> indices[p] == rest[p - 1];
    }
    if Listed(orders, market, side, indices) {
      assert forall p :: 0 <= p < |rest| ==> rest[p] == indices[p + 1];
    }
  }

  /** The indices a list of books covers. */
  function Covered(books: seq<OrderBook>): set<nat> {
    if books == [] then {}
    else (set i | i in books[0].buys) + (set i | i in books[0].sells) + Covered(books[1..])
  }

  /** Every book proper and known, in ascending market order after `previous`. */
  ghost predicate BooksProper(orders: seq<Order>, books: seq<OrderBook>, config: ExchangeConfig, previous: Option<MarketId>) {
    books != [] ==>
      && BookProper(orders, books[0]) && MarketKnown(config, books[0].market)
      && (previous.Some? ==> previous.value < books[0].market)
      && BooksProper(orders, books[1..], config, Some(books[0].market))
  }

  /** Both sides of one book, after orders of smaller markets only. */
  lemma SidesAccepted(orders: seq<Order>, book: OrderBook, previous: Option<MarketId>, seen: set<nat>)
    requires forall i :: i in seen && i < |orders| ==> previous.Some? && orders[i].market <= previous.value
    requires previous.Some? ==> previous.value < book.market
    ensures var buys := ValidateBookOrders(book.market, book.buys, Buy, orders, seen, None);
            && (buys.Ok? <==> Listed(orders, book.market, Buy, book.buys))
            && (buys.Ok? ==>
                  var sells := ValidateBookOrders(book.market, book.sells, Sell, orders, buys.value.1, None);
                  && (sells.Ok? <==> Listed(orders, book.market, Sell, book.sells))
                  && (sells.Ok? ==>
                        && buys.value.0 == Resolve(orders, book.buys) && sells.value.0 == Resolve(orders, book.sells)
                        && sells.value.1 == seen + (set i | i in book.buys) + (set i | i in book.sells)
                        && forall i :: i in sells.value.1 && i < |orders| ==> orders[i].market <= book.market))
  {
    hide ValidateBookOrders;
    BookOrdersAccepted(book.market, book.buys, Buy, orders, seen, None);
    var buys := ValidateBookOrders(book.market, book.buys, Buy, orders, seen, None);
    if buys.Ok? {
      BookOrdersAccepted(book.market, book.sells, Sell, orders, buys.value.1, None);
    }
  }

  lemma {:induction false} BuildAccepted(orders: seq<Order>, books: seq<OrderBook>, config: ExchangeConfig,
                                         previous: Option<MarketId>, seen: set<nat>)
    requires forall i :: i in seen && i < |orders| ==> previous.Some? && orders[i].market <= previous.value
    ensures var r := BuildFrom(orders, books, config, previous, seen);
            && (r.Ok? <==> BooksProper(orders, books, config, previous))
            && (r.Ok? ==> r.value.1 == seen + Covered(books))
            && (r.Ok? ==> Resolved(orders, books, config, r.value.0))
    decreases |books|
  {
    hide ValidateBookOrders, Listed, FindMarket, FindAsset;
    if books != [] {
      var book := books[0];
      if MarketKnown(config, book.market) && (previous.Some? ==> previous.value < book.market) {
        SidesAccepted(orders, book, previous, seen);
        var buys := ValidateBookOrders(book.market, book.buys, Buy, orders, seen, None);
        if buys.Ok? {
          var sells := ValidateBookOrders(book.market, book.sells, Sell, orders, buys.value.1, None);
          if sells.Ok? {
            BuildAccepted(orders, books[1..], config, Some(book.market), sells.value.1);
          }
        }
      }
    }
  }

  /** The accepted books hold the proposed orders, market by market. */
  ghost predicate Resolved(orders: seq<Order>, books: seq<OrderBook>, config: ExchangeConfig, built: seq<ValidatedBook>) {
    if books == [] then
      built == []
    else
      && built != [] && BookProper(orders, books[0]) && MarketKnown(config, books[0].market)
      && built[0].market == FindMarket(config.markets, books[0].market).value
      && built[0].baseAsset == FindAsset(config.assets, built[0].market.base).value
      && built[0].buys == Resolve(orders, books[0].buys)
      && built[0].sells == Resolve(orders, books[0].sells)
      && Resolved(orders, books[1..], config, built[1..])
  }

  lemma {:induction false} ProperAt(orders: seq<Order>, books: seq<OrderBook>, config: ExchangeConfig,
                                    previous: Option<MarketId>, k: nat)
    requires BooksProper(orders, books, config, previous) && k < |books|
    ensures BookProper(orders, books[k]) && MarketKnown(config, books[k].market)
    ensures previous.Some? ==> previous.value < books[k].market
    ensures forall l :: k < l < |books| ==> books[k].market < books[l].market
  {
    if k > 0 {
      ProperAt(orders, books[1..], config, Some(books[0].market), k - 1);
      assert forall l :: k < l < |books| ==> books[l] == books[1..][l - 1];
    } else {
      forall l | 0 < l < |books| ensures books[0].market < books[l].market {
        ProperAt(orders, books[1..], config, Some(books[0].market), l - 1);
        assert books[l] == books[1..][l - 1];
      }
    }
  }

  lemma {:induction false} ProperIntro(orders: seq<Order>, books: seq<OrderBook>, config: ExchangeConfig, previous: Option<MarketId>)
    requires forall k :: 0 <= k < |books| ==> BookProper(orders, books[k])
    requires forall k :: 0 <= k < |books| ==> MarketKnown(config, books[k].market)
    requires forall k, l :: 0 <= k < l < |books| ==> books[k].market < books[l].market
    requires previous.Some? && books != [] ==> previous.value < books[0].market
    ensures BooksProper(orders, books, config, previous)
    decreases |books|
  {
    if books != [] {
      forall k | 0 <= k < |books[1..]| ensures BookProper(orders, books[1..][k]) && MarketKnown(config, books[1..][k].market) {
        assert books[1..][k] == books[k + 1];
      }
      ProperIntro(orders, books[1..], config, Some(books[0].market));
    }
  }

  lemma {:induction false} CoveredMeans(books: seq<OrderBook>, i: nat)
    ensures i in Covered(books) <==> InSomeBook(books, i)
  {
    if books != [] {
      CoveredMeans(books[1..], i);
      if InSomeBook(books[1..], i) {
        var k :| 0 <= k < |books[1..]| && (i in books[1..][k].buys || i in books[1..][k].sells);
        assert i in books[k + 1].buys || i in books[k + 1].sells;
      }
      if InSomeBook(books, i) && i !in books[0].buys && i !in books[0].sells {
        var k :| 0 <= k < |books| && (i in books[k].buys || i in books[k].sells);
        assert books[1..][k - 1] == books[k];
      }
    }
  }

  /** Proper books, read position by position. */
  lemma ProperExactly(orders: seq<Order>, books: seq<OrderBook>, config: ExchangeConfig)
    ensures BooksProper(orders, books, config, None) <==>
              && (forall k :: 0 <= k < |books| ==> BookProper(orders, books[k]))
              && (forall k :: 0 <= k < |books| ==> MarketKnown(config, books[k].market))
              && (forall k, l :: 0 <= k < l < |books| ==> books[k].market < books[l].market)
  {
    hide BookProper, MarketKnown, BooksProper;
    if BooksProper(orders, books, config, None) {
      forall k | 0 <= k < |books|
        ensures BookProper(orders, books[k]) && MarketKnown(config, books[k].market)
        ensures forall l :: k < l < |books| ==> books[k].market < books[l].market
      {
        ProperAt(orders, books, config, None, k);
      }
    }
    if && (forall k :: 0 <= k < |books| ==> BookProper(orders, books[k]))
       && (forall k :: 0 <= k < |books| ==> MarketKnown(config, books[k].market))
       && (forall k, l :: 0 <= k < l < |books| ==> books[k].market < books[l].market)
    {
      ProperIntro(orders, books, config, None);
    }
  }

  /** THEOREM. The guest accepts a proposal exactly when it arranges every order
      in its own market and side in strict priority, over known markets. */
  lemma BooksAcceptedExactly(orders: seq<Order>, books: seq<OrderBook>, config: ExchangeConfig)
    ensures BuildValidatedBooks(orders, books, config).Ok? <==>
              Arranged(orders, books) && forall k :: 0 <= k < |books| ==> MarketKnown(config, books[k].market)
    ensures BuildValidatedBooks(orders, books, config).Ok? ==>
              Resolved(orders, books, config, BuildValidatedBooks(orders, books, config).value)
  {
    hide BookProper, MarketKnown, BooksProper, BuildFrom, Covered, Resolved, InSomeBook;
    BuildAccepted(orders, books, config, None, {});
    ProperExactly(orders, books, config);
    forall i ensures i in Covered(books) <==> InSomeBook(books, i) {
      CoveredMeans(books, i);
    }
  }

  // ----- uniqueness

  /** A book's list is exactly the orders of its market and side. */
  lemma ListHoldsAll(orders: seq<Order>, books: seq<OrderBook>, k: nat, side: Side)
    requires Arranged(orders, books) && k < |books|
    ensures forall i :: i in SideIndices(books[k], side) <==>
              0 <= i < |orders| && orders[i].market == books[k].market && orders[i].side == side
  {
    var list := SideIndices(books[k], side);
    assert BookProper(orders, books[k]);
    forall i | 0 <= i < |orders| && orders[i].market == books[k].market && orders[i].side == side ensures i in list {
      assert InSomeBook(books, i);
      var l :| 0 <= l < |books| && (i in books[l].buys || i in books[l].sells);
      assert BookProper(orders, books[l]);
      assert l == k;
    }
  }

  lemma MarketsOfBooks(orders: seq<Order>, books: seq<OrderBook>, k: nat) returns (i: nat)
    requires Arranged(orders, books) && k < |books|
    ensures i < |orders| && orders[i].market == books[k].market
  {
    assert BookProper(orders, books[k]);
    i := if books[k].buys != [] then books[k].buys[0] else books[k].sells[0];
  }

  function MarketsOf(books: seq<OrderBook>): (r: seq<MarketId>)
    ensures |r| == |books| && forall k :: 0 <= k < |r| ==> r[k] == books[k].market
  {
    seq(|books|, k requires 0 <= k < |books| => books[k].market)
  }

  predicate MarketBefore(a: MarketId, b: MarketId) {
    a < b
  }

  lemma MarketsMatch(orders: seq<Order>, a: seq<OrderBook>, b: seq<OrderBook>, m: MarketId)
    requires Arranged(orders, a) && Arranged(orders, b) && m in MarketsOf(a)
    ensures m in MarketsOf(b)
  {
    var k :| 0 <= k < |a| && MarketsOf(a)[k] == m;
    var i := MarketsOfBooks(orders, a, k);
    assert InSomeBook(b, i);
    var l :| 0 <= l < |b| && (i in b[l].buys || i in b[l].sells);
    assert BookProper(orders, b[l]);
    assert MarketsOf(b)[l] == m;
  }

  function Priority(orders: seq<Order>, side: Side): (nat, nat) -> bool {
    (i: nat, j: nat) => i < |orders| && j < |orders| && Before(side, orders[i], orders[j])
  }

  /** THEOREM. For fixed orders at most one proposal is accepted: the host
      cannot influence trades through the order books. */
  lemma AcceptedBooksUnique(orders: seq<Order>, a: seq<OrderBook>, b: seq<OrderBook>, config: ExchangeConfig)
    requires BuildValidatedBooks(orders, a, config).Ok? && BuildValidatedBooks(orders, b, config).Ok?
    ensures a == b
  {
    BooksAcceptedExactly(orders, a, config);
    BooksAcceptedExactly(orders, b, config);
    forall m ensures m in MarketsOf(a) <==> m in MarketsOf(b) {
      if m in MarketsOf(a) { MarketsMatch(orders, a, b, m); }
      if m in MarketsOf(b) { MarketsMatch(orders, b, a, m); }
    }
    StrictlyAscendingUnique(MarketsOf(a), MarketsOf(b), MarketBefore);
    assert |a| == |MarketsOf(a)| && |b| == |MarketsOf(b)|;
    forall k | 0 <= k < |a| ensures a[k] == b[k] {
      assert MarketsOf(a)[k] == MarketsOf(b)[k];
      SameList(orders, a, b, k, Buy);
      SameList(orders, a, b, k, Sell);
    }
  }

  lemma SameList(orders: seq<Order>, a: seq<OrderBook>, b: seq<OrderBook>, k: nat, side: Side)
    requires Arranged(orders, a) && Arranged(orders, b)
    requires k < |a| && k < |b| && a[k].market == b[k].market
    ensures SideIndices(a[k], side) == SideIndices(b[k], side)
  {
    ListHoldsAll(orders, a, k, side);
    ListHoldsAll(orders, b, k, side);
    assert BookProper(orders, a[k]) && BookProper(orders, b[k]);
    StrictlyAscendingUnique(SideIndices(a[k], side), SideIndices(b[k], side), Priority(orders, side));
  }
}
