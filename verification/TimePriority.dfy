/** Price-time priority of a settled batch, told by prices and sequences of the
    batch's own orders alone. */
module TimePriority {
  import opened Results
  import opened Types
  import opened Validation
  import opened Books
  import opened Matching
  import opened Trades
  import opened Settlement
  import opened SettledMatching

  /** The two orders a trade fills, as positions in the batch. */
  datatype Match = Match(buy: nat, sell: nat)

  /** The trade is between these two orders: a buy and a sell of its market, of
      its two parties, at the older one's price and within both limits. */
  predicate Between(orders: seq<Order>, t: Trade, m: Match) {
    && m.buy < |orders| && m.sell < |orders|
    && var buy, sell := orders[m.buy], orders[m.sell];
    && buy.side == Buy && sell.side == Sell && buy.market == sell.market == t.market
    && t.buyer == buy.trader && t.seller == sell.trader && t.quantity > 0
    && sell.price <= t.price <= buy.price
    && t.price == if buy.sequence < sell.sequence then buy.price else sell.price
  }

  /** The quantity order `i` receives. */
  function Received(trades: seq<Trade>, matches: seq<Match>, i: nat): nat
    requires |trades| == |matches|
  {
    if trades == [] then 0
    else (if matches[0].buy == i || matches[0].sell == i then trades[0].quantity else 0) + Received(trades[1..], matches[1..], i)
  }

  lemma {:induction false} ReceivedAppend(a: seq<Trade>, b: seq<Trade>, x: seq<Match>, y: seq<Match>, i: nat)
    requires |a| == |x| && |b| == |y|
    ensures Received(a + b, x + y, i) == Received(a, x, i) + Received(b, y, i)
  {
    if a == [] {
      assert a + b == b && x + y == y;
    } else {
      ReceivedAppend(a[1..], b, x[1..], y, i);
      assert (a + b)[1..] == a[1..] + b && (x + y)[1..] == x[1..] + y;
    }
  }

  // ----- one book

  /** The orders behind each fill of a book. */
  function BookMatches(book: OrderBook, fills: seq<Fill>): (r: seq<Match>)
    requires forall k :: 0 <= k < |fills| ==> fills[k].buy < |book.buys| && fills[k].sell < |book.sells|
    ensures |r| == |fills|
    ensures forall k :: 0 <= k < |r| ==> r[k] == Match(book.buys[fills[k].buy], book.sells[fills[k].sell])
  {
    seq(|fills|, k requires 0 <= k < |fills| => Match(book.buys[fills[k].buy], book.sells[fills[k].sell]))
  }

  /** Priority lists an order only once. */
  lemma ListedOnce(orders: seq<Order>, market: MarketId, side: Side, indices: seq<nat>, p: nat, q: nat)
    requires Listed(orders, market, side, indices) && p < |indices| && q < |indices|
    ensures indices[p] == indices[q] ==> p == q
    ensures Better(orders[indices[p]], orders[indices[q]]) ==> p < q
  {
    if p < q {
      assert Better(orders[indices[p]], orders[indices[q]]);
    }
    if q < p {
      assert Better(orders[indices[q]], orders[indices[p]]);
    }
  }

  /** What position `p` of a side is filled is what its order receives. */
  lemma {:induction false} FilledIsReceived(orders: seq<Order>, book: OrderBook, fills: seq<Fill>, trades: seq<Trade>, side: Side, p: nat)
    requires BookProper(orders, book) && p < |SideIndices(book, side)| && |trades| == |fills|
    requires forall k :: 0 <= k < |fills| ==> fills[k].buy < |book.buys| && fills[k].sell < |book.sells|
    requires forall k :: 0 <= k < |fills| ==> trades[k].quantity == fills[k].quantity
    ensures Received(trades, BookMatches(book, fills), SideIndices(book, side)[p]) ==
            if side == Buy then BuyFilled(fills, p) else SellFilled(fills, p)
    decreases |fills|
  {
    if fills != [] {
      var rest := BookMatches(book, fills)[1..];
      assert rest == BookMatches(book, fills[1..]);
      FilledIsReceived(orders, book, fills[1..], trades[1..], side, p);
      HeadFills(orders, book, fills[0], side, p);
    }
  }

  lemma HeadFills(orders: seq<Order>, book: OrderBook, fill: Fill, side: Side, p: nat)
    requires BookProper(orders, book) && p < |SideIndices(book, side)|
    requires fill.buy < |book.buys| && fill.sell < |book.sells|
    ensures var i := SideIndices(book, side)[p];
            (book.buys[fill.buy] == i || book.sells[fill.sell] == i) <==> (if side == Buy then fill.buy == p else fill.sell == p)
  {
    if side == Buy {
      ListedOnce(orders, book.market, Buy, book.buys, fill.buy, p);
    } else {
      ListedOnce(orders, book.market, Sell, book.sells, fill.sell, p);
    }
  }

  /** A book fills no order of another market. */
  lemma {:induction false} ForeignReceives(orders: seq<Order>, book: OrderBook, fills: seq<Fill>, trades: seq<Trade>, i: nat)
    requires BookProper(orders, book) && i < |orders| && orders[i].market != book.market && |trades| == |fills|
    requires forall k :: 0 <= k < |fills| ==> fills[k].buy < |book.buys| && fills[k].sell < |book.sells|
    ensures Received(trades, BookMatches(book, fills), i) == 0
    decreases |fills|
  {
    if fills != [] {
      assert BookMatches(book, fills)[1..] == BookMatches(book, fills[1..]);
      ForeignReceives(orders, book, fills[1..], trades[1..], i);
    }
  }

  // ----- all books

  /** Books of proper positions with their orders resolved, markets ascending. */
  ghost predicate Placed(orders: seq<Order>, books: seq<OrderBook>, built: seq<ValidatedBook>) {
    && |built| == |books|
    && (forall k :: 0 <= k < |books| ==> PlacedBook(orders, books[k], built[k]))
    && (forall k, l :: 0 <= k < l < |books| ==> books[k].market < books[l].market)
  }

  ghost predicate PlacedBook(orders: seq<Order>, book: OrderBook, built: ValidatedBook) {
    && BookProper(orders, book) && built.market.id == book.market && built.baseAsset.scale > 0
    && built.buys == Resolve(orders, book.buys) && built.sells == Resolve(orders, book.sells)
    && Sorted(built.buys, Buy) && Sorted(built.sells, Sell)
  }

  predicate SameSizes(books: seq<OrderBook>, built: seq<ValidatedBook>) {
    && |built| == |books|
    && forall k :: 0 <= k < |books| ==> |built[k].buys| == |books[k].buys| && |built[k].sells| == |books[k].sells|
  }

  /** The orders behind each trade of a batch. */
  function AllMatches(books: seq<OrderBook>, built: seq<ValidatedBook>): seq<Match>
    requires SameSizes(books, built)
  {
    if books == [] then []
    else
      SweepInBounds(built[0].buys, built[0].sells, START);
      BookMatches(books[0], Fills(built[0].buys, built[0].sells)) + AllMatches(books[1..], built[1..])
  }

  lemma PlacedTail(orders: seq<Order>, books: seq<OrderBook>, built: seq<ValidatedBook>)
    requires Placed(orders, books, built) && books != []
    ensures Placed(orders, books[1..], built[1..]) && PlacedBook(orders, books[0], built[0])
  {
    hide PlacedBook;
    forall k | 0 <= k < |books[1..]| ensures PlacedBook(orders, books[1..][k], built[1..][k]) {
      assert PlacedBook(orders, books[k + 1], built[k + 1]);
    }
  }

  lemma PlacedMeans(orders: seq<Order>, books: seq<OrderBook>, built: seq<ValidatedBook>)
    requires Placed(orders, books, built)
    ensures SameSizes(books, built) && Scaled(built)
  {
    forall k | 0 <= k < |books|
      ensures |built[k].buys| == |books[k].buys| && |built[k].sells| == |books[k].sells| && built[k].baseAsset.scale > 0
    {
      assert PlacedBook(orders, books[k], built[k]);
    }
  }

  /** Every trade of a book is between the orders it is matched to. */
  lemma BookBetween(orders: seq<Order>, book: OrderBook, built: ValidatedBook, bps: nat)
    requires PlacedBook(orders, book, built)
    ensures var fills := Fills(built.buys, built.sells);
            && (forall k :: 0 <= k < |fills| ==> fills[k].buy < |book.buys| && fills[k].sell < |book.sells|)
            && |BookTrades(built, bps)| == |fills|
            && (forall k :: 0 <= k < |fills| ==> BookTrades(built, bps)[k].quantity == fills[k].quantity)
            && forall k :: 0 <= k < |fills| ==> Between(orders, BookTrades(built, bps)[k], BookMatches(book, fills)[k])
  {
    hide Sorted, Fills, BuyFilled, SellFilled;
    var fills := Fills(built.buys, built.sells);
    BookPriority(built, bps);
    forall k | 0 <= k < |fills|
      ensures fills[k].buy < |book.buys| && fills[k].sell < |book.sells|
      ensures BookTrades(built, bps)[k].quantity == fills[k].quantity
    {
      assert SettledMatching.Records(built, fills[k], BookTrades(built, bps)[k]);
    }
    forall k | 0 <= k < |fills| ensures Between(orders, BookTrades(built, bps)[k], BookMatches(book, fills)[k]) {
      assert SettledMatching.Records(built, fills[k], BookTrades(built, bps)[k]);
    }
  }

  lemma {:induction false} AllBetween(orders: seq<Order>, books: seq<OrderBook>, built: seq<ValidatedBook>, bps: nat)
    requires Placed(orders, books, built)
    ensures SameSizes(books, built) && Scaled(built) && |AllMatches(books, built)| == |AllTrades(built, bps)|
    ensures forall k :: 0 <= k < |AllTrades(built, bps)| ==> Between(orders, AllTrades(built, bps)[k], AllMatches(books, built)[k])
    decreases |books|
  {
    hide BookTrades, Between, PlacedBook, Fills, Placed;
    PlacedMeans(orders, books, built);
    if books != [] {
      PlacedTail(orders, books, built);
      BookBetween(orders, books[0], built[0], bps);
      AllBetween(orders, books[1..], built[1..], bps);
    }
  }

  /** No book of its market, nothing received. */
  lemma {:induction false} ReceivesNothing(orders: seq<Order>, books: seq<OrderBook>, built: seq<ValidatedBook>, bps: nat, i: nat)
    requires Placed(orders, books, built) && i < |orders| && forall k :: 0 <= k < |books| ==> books[k].market != orders[i].market
    ensures SameSizes(books, built) && Scaled(built) && |AllMatches(books, built)| == |AllTrades(built, bps)|
    ensures Received(AllTrades(built, bps), AllMatches(books, built), i) == 0
    decreases |books|
  {
    hide BookTrades, Between, PlacedBook, Fills, Placed;
    AllBetween(orders, books, built, bps);
    if books != [] {
      PlacedTail(orders, books, built);
      BookBetween(orders, books[0], built[0], bps);
      ReceivesNothing(orders, books[1..], built[1..], bps, i);
      var fills := Fills(built[0].buys, built[0].sells);
      ProperOf(orders, books[0], built[0]);
      ForeignReceives(orders, books[0], fills, BookTrades(built[0], bps), i);
      ReceivedAppend(BookTrades(built[0], bps), AllTrades(built[1..], bps), BookMatches(books[0], fills), AllMatches(books[1..], built[1..]), i);
    }
  }

  lemma ProperOf(orders: seq<Order>, book: OrderBook, built: ValidatedBook)
    requires PlacedBook(orders, book, built)
    ensures BookProper(orders, book) && built.market.id == book.market
    ensures |built.buys| == |book.buys| && |built.sells| == |book.sells|
  {
  }

  /** What an order receives is what its position in its book is filled. */
  lemma {:induction false} ReceivesItsFills(orders: seq<Order>, books: seq<OrderBook>, built: seq<ValidatedBook>, bps: nat,
                                            k: nat, side: Side, p: nat)
    requires Placed(orders, books, built) && k < |books| && p < |SideIndices(books[k], side)|
    ensures SameSizes(books, built) && Scaled(built) && |AllMatches(books, built)| == |AllTrades(built, bps)|
    ensures var fills := Fills(built[k].buys, built[k].sells);
            Received(AllTrades(built, bps), AllMatches(books, built), SideIndices(books[k], side)[p]) ==
            if side == Buy then BuyFilled(fills, p) else SellFilled(fills, p)
    decreases |books|
  {
    hide BookTrades, Between, PlacedBook, Fills, Placed, BuyFilled, SellFilled;
    AllBetween(orders, books, built, bps);
    PlacedTail(orders, books, built);
    BookBetween(orders, books[0], built[0], bps);
    ProperOf(orders, books[0], built[0]);
    var fills, i := Fills(built[0].buys, built[0].sells), SideIndices(books[k], side)[p];
    AllBetween(orders, books[1..], built[1..], bps);
    ReceivedAppend(BookTrades(built[0], bps), AllTrades(built[1..], bps), BookMatches(books[0], fills), AllMatches(books[1..], built[1..]), i);
    MarketOfPosition(orders, books, built, k, side, p);
    if k == 0 {
      FilledIsReceived(orders, books[0], fills, BookTrades(built[0], bps), side, p);
      ReceivesNothing(orders, books[1..], built[1..], bps, i);
    } else {
      ForeignReceives(orders, books[0], fills, BookTrades(built[0], bps), i);
      ReceivesItsFills(orders, books[1..], built[1..], bps, k - 1, side, p);
    }
  }

  lemma MarketOfPosition(orders: seq<Order>, books: seq<OrderBook>, built: seq<ValidatedBook>, k: nat, side: Side, p: nat)
    requires Placed(orders, books, built) && k < |books| && p < |SideIndices(books[k], side)|
    ensures var i := SideIndices(books[k], side)[p];
            && i < |orders| && orders[i].market == books[k].market && orders[i].side == side
            && orders[i] == (if side == Buy then built[k].buys[p] else built[k].sells[p])
    ensures forall l :: 0 <= l < |books| && l != k ==> books[l].market != books[k].market
  {
    assert PlacedBook(orders, books[k], built[k]);
  }

  /** The book and position of an order. */
  lemma PositionOf(orders: seq<Order>, books: seq<OrderBook>, built: seq<ValidatedBook>, i: nat) returns (k: nat, p: nat)
    requires Placed(orders, books, built) && i < |orders| && InSomeBook(books, i)
    ensures k < |books| && p < |SideIndices(books[k], orders[i].side)| && SideIndices(books[k], orders[i].side)[p] == i
    ensures orders[i].market == books[k].market
    ensures forall l :: 0 <= l < |books| && l != k ==> books[l].market != books[k].market
  {
    k :| 0 <= k < |books| && (i in books[k].buys || i in books[k].sells);
    assert PlacedBook(orders, books[k], built[k]);
    p :| 0 <= p < |SideIndices(books[k], orders[i].side)| && SideIndices(books[k], orders[i].side)[p] == i;
  }

  /** What the sweep of one book keeps, position by position. */
  lemma BookKeeps(orders: seq<Order>, book: OrderBook, built: ValidatedBook, bps: nat)
    requires PlacedBook(orders, book, built)
    ensures Prioritises(built, BookTrades(built, bps))
  {
    BookPriority(built, bps);
  }

  /** THEOREM (price-time priority). Each trade of a settled batch is between a
      buy and a sell of the batch, at the older one's price and within both
      limits. No order receives more than its quantity. In one market and side
      an order that receives anything leaves no better order short, better being
      a better price, or the same price and an earlier sequence. A buy and a sell
      of one market that both stay open do not cross. */
  lemma SettledTimePriority(input: BatchInput, out: BatchOutput) returns (matches: seq<Match>)
    requires Outcome(input) == Ok(out)
    ensures |matches| == |out.trades| && forall k :: 0 <= k < |matches| ==> Between(input.orders, out.trades[k], matches[k])
    ensures forall i :: 0 <= i < |input.orders| ==> Received(out.trades, matches, i) <= input.orders[i].quantity
    ensures forall i, j :: 0 <= i < |input.orders| && 0 <= j < |input.orders| ==> FirstServed(input.orders, out.trades, matches, i, j)
    ensures forall i, j :: 0 <= i < |input.orders| && 0 <= j < |input.orders| ==> OpenApart(input.orders, out.trades, matches, i, j)
  {
    hide Outcome, BooksOf, Between, Placed, Received, FirstServed, OpenApart, Arranged, InSomeBook, Prioritised, Resolved, AllTrades,
      BuildValidatedBooks;
    var orders, built, bps := input.orders, BooksOf(input), input.config.fees.buyerFeeBps;
    SettledTrades(input, out);
    SettledPlaced(input, out);
    AllBetween(orders, input.books, built, bps);
    matches := AllMatches(input.books, built);
    forall i | 0 <= i < |orders| ensures Received(out.trades, matches, i) <= orders[i].quantity {
      NeverOverserved(orders, input.books, built, bps, i);
    }
    forall i, j | 0 <= i < |orders| && 0 <= j < |orders|
      ensures FirstServed(orders, out.trades, matches, i, j)
      ensures OpenApart(orders, out.trades, matches, i, j)
    {
      ServedInOrder(orders, input.books, built, bps, i, j);
      OpenDoNotCross(orders, input.books, built, bps, i, j);
    }
  }

  /** If the worse of two orders of one market and side receives anything, the
      better one is filled. */
  ghost predicate FirstServed(orders: seq<Order>, trades: seq<Trade>, matches: seq<Match>, i: nat, j: nat)
    requires i < |orders| && j < |orders| && |trades| == |matches|
  {
    orders[i].market == orders[j].market && orders[i].side == orders[j].side && Better(orders[i], orders[j])
      && Received(trades, matches, j) > 0 ==>
      Received(trades, matches, i) == orders[i].quantity
  }

  ghost predicate OpenApart(orders: seq<Order>, trades: seq<Trade>, matches: seq<Match>, i: nat, j: nat)
    requires i < |orders| && j < |orders| && |trades| == |matches|
  {
    orders[i].market == orders[j].market && orders[i].side == Buy && orders[j].side == Sell
      && Received(trades, matches, i) < orders[i].quantity && Received(trades, matches, j) < orders[j].quantity ==>
      orders[i].price < orders[j].price
  }

  lemma SettledPlaced(input: BatchInput, out: BatchOutput)
    requires Outcome(input) == Ok(out)
    ensures Placed(input.orders, input.books, BooksOf(input))
    ensures forall i :: 0 <= i < |input.orders| ==> InSomeBook(input.books, i)
  {
    hide Outcome, BooksOf, Resolved, AllTrades, BuildValidatedBooks, BookProper, InSomeBook, Sorted;
    SettledTrades(input, out);
    var books, built := input.books, BooksOf(input);
    if books != [] { ResolvedAt(input.orders, books, input.config, built, 0); }
    ResolvedLength(input.orders, books, input.config, built);
    forall k | 0 <= k < |books| ensures PlacedBook(input.orders, books[k], built[k]) {
      ResolvedAt(input.orders, books, input.config, built, k);
    }
  }

  lemma ResolvedLength(orders: seq<Order>, books: seq<OrderBook>, config: ExchangeConfig, built: seq<ValidatedBook>)
    requires Resolved(orders, books, config, built)
    ensures |built| == |books|
  {
    if books != [] {
      ResolvedAt(orders, books, config, built, 0);
    }
  }

  lemma NeverOverserved(orders: seq<Order>, books: seq<OrderBook>, built: seq<ValidatedBook>, bps: nat, i: nat)
    requires Placed(orders, books, built) && i < |orders| && InSomeBook(books, i)
    ensures SameSizes(books, built) && Scaled(built) && |AllMatches(books, built)| == |AllTrades(built, bps)|
    ensures Received(AllTrades(built, bps), AllMatches(books, built), i) <= orders[i].quantity
  {
    hide Fills, BuyFilled, SellFilled, Between, AllMatches, AllTrades, Received, InSomeBook;
    var k, p := PositionOf(orders, books, built, i);
    MarketOfPosition(orders, books, built, k, orders[i].side, p);
    ReceivesItsFills(orders, books, built, bps, k, orders[i].side, p);
    BookKeeps(orders, books[k], built[k], bps);
  }

  lemma ServedInOrder(orders: seq<Order>, books: seq<OrderBook>, built: seq<ValidatedBook>, bps: nat, i: nat, j: nat)
    requires Placed(orders, books, built) && i < |orders| && j < |orders| && InSomeBook(books, i) && InSomeBook(books, j)
    ensures SameSizes(books, built) && Scaled(built) && |AllMatches(books, built)| == |AllTrades(built, bps)|
    ensures FirstServed(orders, AllTrades(built, bps), AllMatches(books, built), i, j)
  {
    hide Fills, BuyFilled, SellFilled, Between, AllMatches, AllTrades, Received, InSomeBook, Listed;
    AllBetween(orders, books, built, bps);
    if orders[i].market == orders[j].market && orders[i].side == orders[j].side && Better(orders[i], orders[j]) {
      var side := orders[i].side;
      var k, p := PositionOf(orders, books, built, i);
      var l, q := PositionOf(orders, books, built, j);
      assert k == l;
      MarketOfPosition(orders, books, built, k, side, p);
      MarketOfPosition(orders, books, built, k, side, q);
      ReceivesItsFills(orders, books, built, bps, k, side, p);
      ReceivesItsFills(orders, books, built, bps, k, side, q);
      assert PlacedBook(orders, books[k], built[k]);
      ListedOnce(orders, books[k].market, side, SideIndices(books[k], side), p, q);
      BookKeeps(orders, books[k], built[k], bps);
    }
  }

  lemma OpenDoNotCross(orders: seq<Order>, books: seq<OrderBook>, built: seq<ValidatedBook>, bps: nat, i: nat, j: nat)
    requires Placed(orders, books, built) && i < |orders| && j < |orders| && InSomeBook(books, i) && InSomeBook(books, j)
    ensures SameSizes(books, built) && Scaled(built) && |AllMatches(books, built)| == |AllTrades(built, bps)|
    ensures OpenApart(orders, AllTrades(built, bps), AllMatches(books, built), i, j)
  {
    hide Fills, BuyFilled, SellFilled, Between, AllMatches, AllTrades, Received, InSomeBook, Listed;
    AllBetween(orders, books, built, bps);
    if orders[i].market == orders[j].market && orders[i].side == Buy && orders[j].side == Sell {
      var k, p := PositionOf(orders, books, built, i);
      var l, q := PositionOf(orders, books, built, j);
      assert k == l;
      MarketOfPosition(orders, books, built, k, Buy, p);
      MarketOfPosition(orders, books, built, k, Sell, q);
      ReceivesItsFills(orders, books, built, bps, k, Buy, p);
      ReceivesItsFills(orders, books, built, bps, k, Sell, q);
      BookKeeps(orders, books[k], built[k], bps);
      assert OpenPairApart(built[k], Fills(built[k].buys, built[k].sells), p, q);
    }
  }
}
