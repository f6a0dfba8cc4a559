/** What the trades of a settled batch are: the matching guarantees stated over
    the batch's own orders and the trades in its output. */
module SettledMatching {
  import opened Results
  import opened Sorting
  import opened Types
  import opened Operations
  import opened Validation
  import opened Books
  import opened Matching
  import opened Trades
  import opened Settlement
  import opened SettlementTheorems

  // ----- the trades of a batch, book by book

  /** One trade per fill of the sweep over a book. */
  function BookTrades(book: ValidatedBook, bps: nat): (r: seq<Trade>)
    requires book.baseAsset.scale > 0
    ensures |r| == |Fills(book.buys, book.sells)|
  {
    SweepInBounds(book.buys, book.sells, START);
    var fills := Fills(book.buys, book.sells);
    seq(|fills|, k requires 0 <= k < |fills| =>
      TradeOf(book.market, book.baseAsset.scale, bps, book.buys[fills[k].buy], book.sells[fills[k].sell],
              fills[k].quantity, fills[k].price))
  }

  predicate Scaled(books: seq<ValidatedBook>) {
    forall k :: 0 <= k < |books| ==> books[k].baseAsset.scale > 0
  }

  function AllTrades(books: seq<ValidatedBook>, bps: nat): seq<Trade>
    requires Scaled(books)
  {
    if books == [] then [] else BookTrades(books[0], bps) + AllTrades(books[1..], bps)
  }

  lemma MarketRecords(accounts: seq<Account>, book: ValidatedBook, fees: FeeConfig, feeIndex: nat)
    requires book.baseAsset.scale > 0 && feeIndex < |accounts|
    requires forall i :: 0 <= i < |book.buys| ==> book.buys[i].index < |accounts|
    requires forall i :: 0 <= i < |book.sells| ==> book.sells[i].index < |accounts|
    requires MatchMarket(accounts, book, fees, feeIndex).Ok?
    ensures MatchMarket(accounts, book, fees, feeIndex).value.1 == BookTrades(book, fees.buyerFeeBps)
  {
    hide SettleFills, TradeOf;
    SweepInBounds(book.buys, book.sells, START);
    FillsRecorded(accounts, book.market, book.baseAsset.scale, fees, feeIndex, book.buys, book.sells,
                  Fills(book.buys, book.sells));
  }

  lemma {:induction false} BooksRecord(accounts: seq<Account>, books: seq<ValidatedBook>, fees: FeeConfig, feeIndex: nat)
    requires BooksBound(books, |accounts|) && Scaled(books) && feeIndex < |accounts|
    requires MatchBooks(accounts, books, fees, feeIndex).Ok?
    ensures MatchBooks(accounts, books, fees, feeIndex).value.1 == AllTrades(books, fees.buyerFeeBps)
    decreases |books|
  {
    hide MatchMarket, BookTrades;
    if books != [] {
      MarketRecords(accounts, books[0], fees, feeIndex);
      BooksRecord(MatchMarket(accounts, books[0], fees, feeIndex).value.0, books[1..], fees, feeIndex);
    }
  }

  // ----- accepted books are in priority

  ghost predicate Prioritised(books: seq<ValidatedBook>) {
    forall k :: 0 <= k < |books| ==> Sorted(books[k].buys, Buy) && Sorted(books[k].sells, Sell)
  }

  lemma ListedSorted(orders: seq<Order>, market: MarketId, side: Side, indices: seq<nat>)
    requires Listed(orders, market, side, indices) && forall i :: 0 <= i < |orders| ==> orders[i].quantity > 0
    ensures Sorted(Resolve(orders, indices), side)
  {
  }

  /** Accepted books of positive orders are sorted by priority on both sides. */
  lemma {:induction false} ResolvedSorted(orders: seq<Order>, books: seq<OrderBook>, config: ExchangeConfig, built: seq<ValidatedBook>)
    requires Resolved(orders, books, config, built) && forall i :: 0 <= i < |orders| ==> orders[i].quantity > 0
    ensures Prioritised(built)
  {
    if books != [] {
      ResolvedSorted(orders, books[1..], config, built[1..]);
      ListedSorted(orders, books[0].market, Buy, books[0].buys);
      ListedSorted(orders, books[0].market, Sell, books[0].sells);
      assert forall k :: 0 < k < |built| ==> built[k] == built[1..][k - 1];
    }
  }

  lemma {:induction false} ResolvedAt(orders: seq<Order>, books: seq<OrderBook>, config: ExchangeConfig, built: seq<ValidatedBook>, k: nat)
    requires Resolved(orders, books, config, built) && k < |books|
    ensures |built| == |books| && BookProper(orders, books[k])
    ensures built[k].market.id == books[k].market
    ensures built[k].buys == Resolve(orders, books[k].buys) && built[k].sells == Resolve(orders, books[k].sells)
  {
    if k > 0 {
      ResolvedAt(orders, books[1..], config, built[1..], k - 1);
    } else if |books| > 1 {
      ResolvedAt(orders, books[1..], config, built[1..], 0);
    }
  }

  /** The books of a settled batch. */
  function BooksOf(input: BatchInput): seq<ValidatedBook> {
    var built := BuildValidatedBooks(input.orders, input.books, input.config);
    if built.Ok? then built.value else []
  }

  /** The trades the sweep makes of the accepted books. */
  function TradesFor(input: BatchInput): seq<Trade> {
    if Scaled(BooksOf(input)) then AllTrades(BooksOf(input), input.config.fees.buyerFeeBps) else []
  }

  /** THEOREM. The trades of a settled batch are exactly the fills of the sweep
      over its accepted books, book by book, and every book is sorted by
      price-time priority on both sides. */
  lemma SettledTrades(input: BatchInput, out: BatchOutput)
    requires Outcome(input) == Ok(out)
    ensures BuildValidatedBooks(input.orders, input.books, input.config) == Ok(BooksOf(input))
    ensures Arranged(input.orders, input.books)
    ensures Resolved(input.orders, input.books, input.config, BooksOf(input))
    ensures Prioritised(BooksOf(input)) && Scaled(BooksOf(input))
    ensures out.trades == TradesFor(input) == AllTrades(BooksOf(input), input.config.fees.buyerFeeBps)
  {
    hide Outcome, Stages, Validate, Baseline, Admit, ValidateOperations, Consume, BuildValidatedBooks, AllTrades, MatchBooks;
    OutcomeUnfold(input);
    var baseline, admitted, consumed := StagesUnfold(input);
    OrdersPositive(input, admitted);
    ClearTrades(input, consumed);
  }

  lemma OrdersPositive(input: BatchInput, accounts: seq<Account>)
    requires ValidateOperations(input, accounts).Pass?
    ensures forall i :: 0 <= i < |input.orders| ==> input.orders[i].quantity > 0
  {
    OperationsUnfold(input, accounts);
    OrdersAccepted(input.orders, accounts, input.config);
    forall i | 0 <= i < |input.orders| ensures input.orders[i].quantity > 0 {
      assert OrderAccepted(input.orders[i], accounts, input.config);
    }
  }

  lemma ClearTrades(input: BatchInput, accounts: seq<Account>)
    requires ScalesPositive(input.config) && OrdersAt(accounts, input.orders)
    requires forall i :: 0 <= i < |input.orders| ==> input.orders[i].quantity > 0
    requires Clear(input, accounts).Ok?
    ensures BuildValidatedBooks(input.orders, input.books, input.config) == Ok(BooksOf(input))
    ensures Arranged(input.orders, input.books)
    ensures Resolved(input.orders, input.books, input.config, BooksOf(input))
    ensures Prioritised(BooksOf(input)) && Scaled(BooksOf(input))
    ensures Clear(input, accounts).value.1 == AllTrades(BooksOf(input), input.config.fees.buyerFeeBps)
  {
    hide MatchBooks, AllTrades, BuildValidatedBooks;
    var books := BooksOf(input);
    BooksAcceptedExactly(input.orders, input.books, input.config);
    ResolvedReady(input.orders, input.books, input.config, books, accounts);
    ResolvedSorted(input.orders, input.books, input.config, books);
    BooksRecord(accounts, books, input.config.fees, SearchId(accounts, input.config.fees.recipient).index);
  }

  // ----- the orders of one market

  /** The batch's orders of one market and side. */
  function OrdersOf(orders: seq<Order>, market: MarketId, side: Side): seq<Order> {
    if orders == [] then []
    else (if orders[0].market == market && orders[0].side == side then [orders[0]] else []) + OrdersOf(orders[1..], market, side)
  }

  lemma {:induction false} OrdersOfMembers(orders: seq<Order>, market: MarketId, side: Side)
    ensures forall o :: o in OrdersOf(orders, market, side) <==> o in orders && o.market == market && o.side == side
  {
    if orders != [] {
      OrdersOfMembers(orders[1..], market, side);
    }
  }

  function SequenceOf(order: Order): nat {
    order.sequence
  }

  lemma {:induction false} OrdersOfDistinct(orders: seq<Order>, market: MarketId, side: Side)
    requires Distinct(orders, SequenceOf)
    ensures Distinct(OrdersOf(orders, market, side), SequenceOf)
  {
    if orders != [] {
      OrdersOfDistinct(orders[1..], market, side);
      OrdersOfMembers(orders[1..], market, side);
      var rest := OrdersOf(orders[1..], market, side);
      forall j | 0 <= j < |rest| ensures SequenceOf(orders[0]) != SequenceOf(rest[j]) {
        assert rest[j] in orders[1..];
        var k :| 0 <= k < |orders[1..]| && orders[1..][k] == rest[j];
        assert SequenceOf(orders[0]) != SequenceOf(orders[k + 1]);
      }
    }
  }

  /** Lists without repeated sequences that hold the same orders. */
  lemma SameOrders(a: seq<Order>, b: seq<Order>)
    requires Distinct(a, SequenceOf) && Distinct(b, SequenceOf) && forall o :: o in a <==> o in b
    ensures multiset(a) == multiset(b)
  {
    forall o ensures multiset(a)[o] == multiset(b)[o] {
      DistinctCountsOnce(a, SequenceOf, o);
      DistinctCountsOnce(b, SequenceOf, o);
      assert o in a <==> o in multiset(a);
      assert o in b <==> o in multiset(b);
    }
  }

  /** A side of a book holds exactly the batch's orders of its market and side. */
  lemma SideHoldsOrders(orders: seq<Order>, books: seq<OrderBook>, k: nat, side: Side)
    requires Arranged(orders, books) && k < |books| && DistinctSequences(orders)
    ensures BookProper(orders, books[k])
    ensures multiset(Resolve(orders, SideIndices(books[k], side))) == multiset(OrdersOf(orders, books[k].market, side))
  {
    var indices := SideIndices(books[k], side);
    assert BookProper(orders, books[k]);
    var listed := Resolve(orders, indices);
    ListHoldsAll(orders, books, k, side);
    OrdersOfMembers(orders, books[k].market, side);
    DistinctOrders(orders);
    OrdersOfDistinct(orders, books[k].market, side);
    ListedDistinct(orders, books[k].market, side, indices);
    forall o ensures o in listed <==> o in OrdersOf(orders, books[k].market, side) {
      if o in OrdersOf(orders, books[k].market, side) {
        var i :| 0 <= i < |orders| && orders[i] == o;
        assert i in indices;
        var p :| 0 <= p < |indices| && indices[p] == i;
        assert listed[p] == o;
      }
      if o in listed {
        var p :| 0 <= p < |listed| && listed[p] == o;
        assert orders[indices[p]] == o;
      }
    }
    SameOrders(listed, OrdersOf(orders, books[k].market, side));
  }

  lemma DistinctOrders(orders: seq<Order>)
    requires DistinctSequences(orders)
    ensures Distinct(orders, SequenceOf)
  {
    forall i, j | 0 <= i < j < |orders| ensures SequenceOf(orders[i]) != SequenceOf(orders[j]) {
      assert orders[i].sequence != orders[j].sequence;
    }
  }

  /** Strict priority never lists an order twice. */
  lemma ListedDistinct(orders: seq<Order>, market: MarketId, side: Side, indices: seq<nat>)
    requires Listed(orders, market, side, indices) && DistinctSequences(orders)
    ensures Distinct(Resolve(orders, indices), SequenceOf)
  {
    var listed := Resolve(orders, indices);
    forall p, q | 0 <= p < q < |listed| ensures SequenceOf(listed[p]) != SequenceOf(listed[q]) {
      assert Before(side, orders[indices[p]], orders[indices[q]]);
      if indices[p] < indices[q] {
        assert orders[indices[p]].sequence != orders[indices[q]].sequence;
      } else if indices[q] < indices[p] {
        assert orders[indices[q]].sequence != orders[indices[p]].sequence;
      }
    }
  }

  // ----- the trades of one market

  function TradesIn(trades: seq<Trade>, market: MarketId): seq<Trade> {
    if trades == [] then []
    else (if trades[0].market == market then [trades[0]] else []) + TradesIn(trades[1..], market)
  }

  function Quantity(trades: seq<Trade>): nat {
    if trades == [] then 0 else trades[0].quantity + Quantity(trades[1..])
  }

  lemma {:induction false} TradesInAppend(a: seq<Trade>, b: seq<Trade>, market: MarketId)
    ensures TradesIn(a + b, market) == TradesIn(a, market) + TradesIn(b, market)
  {
    if a == [] {
      assert a + b == b;
    } else {
      TradesInAppend(a[1..], b, market);
      assert (a + b)[0] == a[0] && (a + b)[1..] == a[1..] + b;
      var head := if a[0].market == market then [a[0]] else [];
      assert head + (TradesIn(a[1..], market) + TradesIn(b, market)) == (head + TradesIn(a[1..], market)) + TradesIn(b, market);
    }
  }

  lemma {:induction false} TradesInOne(trades: seq<Trade>, home: MarketId, market: MarketId)
    requires forall k :: 0 <= k < |trades| ==> trades[k].market == home
    ensures TradesIn(trades, market) == if market == home then trades else []
  {
    if trades != [] {
      TradesInOne(trades[1..], home, market);
      assert trades == [trades[0]] + trades[1..];
    }
  }

  lemma BookTradesIn(book: ValidatedBook, bps: nat, market: MarketId)
    requires book.baseAsset.scale > 0
    ensures TradesIn(BookTrades(book, bps), market) == if market == book.market.id then BookTrades(book, bps) else []
  {
    TradesInOne(BookTrades(book, bps), book.market.id, market);
  }

  ghost predicate DistinctMarkets(books: seq<ValidatedBook>) {
    forall k, l :: 0 <= k < l < |books| ==> books[k].market.id != books[l].market.id
  }

  lemma {:induction false} MarketOfNone(books: seq<ValidatedBook>, bps: nat, market: MarketId)
    requires Scaled(books) && forall k :: 0 <= k < |books| ==> books[k].market.id != market
    ensures TradesIn(AllTrades(books, bps), market) == []
  {
    if books != [] {
      MarketOfNone(books[1..], bps, market);
      BookTradesIn(books[0], bps, market);
      TradesInAppend(BookTrades(books[0], bps), AllTrades(books[1..], bps), market);
    }
  }

  lemma {:induction false} MarketOfBook(books: seq<ValidatedBook>, bps: nat, k: nat)
    requires Scaled(books) && DistinctMarkets(books) && k < |books|
    ensures TradesIn(AllTrades(books, bps), books[k].market.id) == BookTrades(books[k], bps)
  {
    hide BookTrades;
    var market := books[k].market.id;
    BookTradesIn(books[0], bps, market);
    TradesInAppend(BookTrades(books[0], bps), AllTrades(books[1..], bps), market);
    if k == 0 {
      MarketOfNone(books[1..], bps, market);
    } else {
      MarketOfBook(books[1..], bps, k - 1);
    }
  }

  lemma MarketsDistinct(orders: seq<Order>, books: seq<OrderBook>, config: ExchangeConfig, built: seq<ValidatedBook>)
    requires Arranged(orders, books) && Resolved(orders, books, config, built)
    ensures |built| == |books| && DistinctMarkets(built)
  {
    if books != [] { ResolvedAt(orders, books, config, built, 0); }
    forall k, l | 0 <= k < l < |built| ensures built[k].market.id != built[l].market.id {
      ResolvedAt(orders, books, config, built, k);
      ResolvedAt(orders, books, config, built, l);
    }
  }

  /** A book of a settled batch: exactly the batch's orders of its market, in
      priority, and exactly the batch's trades of its market. */
  lemma SettledBook(input: BatchInput, out: BatchOutput, k: nat)
    requires Outcome(input) == Ok(out) && k < |BooksOf(input)|
    ensures var book := BooksOf(input)[k];
            && Sorted(book.buys, Buy) && Sorted(book.sells, Sell) && book.baseAsset.scale > 0
            && multiset(book.buys) == multiset(OrdersOf(input.orders, book.market.id, Buy))
            && multiset(book.sells) == multiset(OrdersOf(input.orders, book.market.id, Sell))
            && TradesIn(out.trades, book.market.id) == BookTrades(book, input.config.fees.buyerFeeBps)
  {
    hide Outcome, BooksOf, AllTrades, BookTrades, Resolved, BuildValidatedBooks, Sorted;
    SettledTrades(input, out);
    SettledSequences(input);
    var books := BooksOf(input);
    MarketsDistinct(input.orders, input.books, input.config, books);
    MarketOfBook(books, input.config.fees.buyerFeeBps, k);
    ResolvedAt(input.orders, input.books, input.config, books, k);
    SideHoldsOrders(input.orders, input.books, k, Buy);
    SideHoldsOrders(input.orders, input.books, k, Sell);
  }

  lemma SettledSequences(input: BatchInput)
    requires Outcome(input).Ok?
    ensures DistinctSequences(input.orders)
  {
    hide Outcome, Stages, Validate, Baseline, Admit, ValidateOperations, Consume, Clear, DistinctSequences;
    OutcomeUnfold(input);
    var baseline, admitted, consumed := StagesUnfold(input);
    OperationsUnfold(input, admitted);
  }

  // ----- volume

  lemma DropOne(a: seq<Order>, b: seq<Order>, i: nat)
    requires multiset(a) == multiset(b) && a != [] && i < |b| && b[i] == a[0]
    ensures multiset(a[1..]) == multiset(b[..i] + b[i + 1..])
  {
    assert a == [a[0]] + a[1..] && b == b[..i] + [b[i]] + b[i + 1..];
    var rest := b[..i] + b[i + 1..];
    assert multiset(a) == multiset([a[0]]) + multiset(a[1..]);
    assert multiset(b) == multiset([a[0]]) + multiset(rest);
    forall o ensures multiset(a[1..])[o] == multiset(rest)[o] {
      assert multiset(a)[o] == multiset(b)[o];
    }
  }

  lemma {:induction false} DemandPermutes(a: seq<Order>, b: seq<Order>, p: nat)
    requires multiset(a) == multiset(b)
    ensures Demand(a, p) == Demand(b, p) && Supply(a, p) == Supply(b, p)
  {
    if a == [] {
      SameElements(a, b);
    } else {
      SameElements(a, b);
      assert a[0] in b;
      var i :| 0 <= i < |b| && b[i] == a[0];
      var rest := b[..i] + b[i + 1..];
      DropOne(a, b, i);
      DemandPermutes(a[1..], rest, p);
      DemandAt(b, i, p);
      DemandAppend(b[..i], b[i + 1..], p);
    }
  }

  lemma {:induction false} DemandAppend(a: seq<Order>, b: seq<Order>, p: nat)
    ensures Demand(a + b, p) == Demand(a, p) + Demand(b, p) && Supply(a + b, p) == Supply(a, p) + Supply(b, p)
  {
    if a == [] {
      assert a + b == b;
    } else {
      DemandAppend(a[1..], b, p);
      assert (a + b)[1..] == a[1..] + b;
    }
  }

  lemma DemandAt(orders: seq<Order>, i: nat, p: nat)
    requires i < |orders|
    ensures Demand(orders, p) == Demand(orders[..i], p) + (if orders[i].price >= p then orders[i].quantity else 0) + Demand(orders[i + 1..], p)
    ensures Supply(orders, p) == Supply(orders[..i], p) + (if orders[i].price <= p then orders[i].quantity else 0) + Supply(orders[i + 1..], p)
  {
    DemandAppend(orders[..i], orders[i..], p);
    assert orders == orders[..i] + orders[i..] && orders[i..][1..] == orders[i + 1..];
  }

  lemma {:induction false} QuantityIsVolume(trades: seq<Trade>, fills: seq<Fill>)
    requires |trades| == |fills| && forall k :: 0 <= k < |fills| ==> trades[k].quantity == fills[k].quantity
    ensures Quantity(trades) == Volume(fills)
  {
    if fills != [] {
      QuantityIsVolume(trades[1..], fills[1..]);
    }
  }

  /** The quantity a price would clear in one market of the batch. */
  function Clearable(orders: seq<Order>, market: MarketId, p: nat): nat {
    Min(Demand(OrdersOf(orders, market, Buy), p), Supply(OrdersOf(orders, market, Sell), p))
  }

  /** THEOREM (volume). In every market a settled batch trades exactly the most
      that any single price could clear among the orders it was given. */
  lemma SettledVolume(input: BatchInput, out: BatchOutput, market: MarketId)
    requires Outcome(input) == Ok(out)
    ensures forall p: nat :: Clearable(input.orders, market, p) <= Quantity(TradesIn(out.trades, market))
    ensures exists p: nat :: Clearable(input.orders, market, p) == Quantity(TradesIn(out.trades, market))
  {
    hide Outcome, BooksOf, BuildValidatedBooks, Resolved, AllTrades, BookTrades, Sorted;
    SettledTrades(input, out);
    var books := BooksOf(input);
    if k :| 0 <= k < |books| && books[k].market.id == market {
      SettledBook(input, out, k);
      BookVolume(input.orders, books[k], input.config.fees.buyerFeeBps);
    } else {
      MarketOfNone(books, input.config.fees.buyerFeeBps, market);
      NoOrdersWithoutBook(input.orders, input.books, input.config, books, market);
      assert Clearable(input.orders, market, 0) == Quantity(TradesIn(out.trades, market));
    }
  }

  lemma BookQuantity(book: ValidatedBook, bps: nat)
    requires book.baseAsset.scale > 0
    ensures Quantity(BookTrades(book, bps)) == Volume(Fills(book.buys, book.sells))
  {
    QuantityIsVolume(BookTrades(book, bps), Fills(book.buys, book.sells));
  }

  lemma BookVolume(orders: seq<Order>, book: ValidatedBook, bps: nat)
    requires Sorted(book.buys, Buy) && Sorted(book.sells, Sell) && book.baseAsset.scale > 0
    requires multiset(book.buys) == multiset(OrdersOf(orders, book.market.id, Buy))
    requires multiset(book.sells) == multiset(OrdersOf(orders, book.market.id, Sell))
    ensures forall p: nat :: Clearable(orders, book.market.id, p) <= Quantity(BookTrades(book, bps))
    ensures exists p: nat :: Clearable(orders, book.market.id, p) == Quantity(BookTrades(book, bps))
  {
    var fills := Fills(book.buys, book.sells);
    hide BookTrades, Sorted, Fills, OrdersOf;
    BookQuantity(book, bps);
    VolumeIsMaximal(book.buys, book.sells);
    forall p: nat ensures Clearable(orders, book.market.id, p) == Min(Demand(book.buys, p), Supply(book.sells, p)) {
      DemandPermutes(book.buys, OrdersOf(orders, book.market.id, Buy), p);
      DemandPermutes(book.sells, OrdersOf(orders, book.market.id, Sell), p);
    }
    var p: nat :| Min(Demand(book.buys, p), Supply(book.sells, p)) == Volume(fills);
    assert Clearable(orders, book.market.id, p) == Quantity(BookTrades(book, bps));
  }

  lemma NoOrdersWithoutBook(orders: seq<Order>, books: seq<OrderBook>, config: ExchangeConfig, built: seq<ValidatedBook>, market: MarketId)
    requires Arranged(orders, books) && Resolved(orders, books, config, built)
    requires forall k :: 0 <= k < |built| ==> built[k].market.id != market
    ensures OrdersOf(orders, market, Buy) == [] && OrdersOf(orders, market, Sell) == []
  {
    forall i | 0 <= i < |orders| ensures orders[i].market != market {
      assert InSomeBook(books, i);
      var k :| 0 <= k < |books| && (i in books[k].buys || i in books[k].sells);
      assert BookProper(orders, books[k]);
      ResolvedAt(orders, books, config, built, k);
    }
    NoOrdersOf(orders, market, Buy);
    NoOrdersOf(orders, market, Sell);
  }

  lemma {:induction false} NoOrdersOf(orders: seq<Order>, market: MarketId, side: Side)
    requires forall i :: 0 <= i < |orders| ==> orders[i].market != market
    ensures OrdersOf(orders, market, side) == []
  {
    if orders != [] {
      NoOrdersOf(orders[1..], market, side);
    }
  }

  // ----- priority and price

  /** A trade records the fill it settles, at the older order's price and
      between the two limits. */
  ghost predicate Records(book: ValidatedBook, fill: Fill, trade: Trade) {
    && FairFill(book.buys, book.sells, fill)
    && trade.market == book.market.id && trade.quantity == fill.quantity && trade.price == fill.price
    && trade.buyer == book.buys[fill.buy].trader && trade.seller == book.sells[fill.sell].trader
  }

  /** What a book's trades keep of price-time priority: they record the fair
      fills, overfill no order, fill an order only when every better one of its
      side is complete, and leave no two open orders that cross. */
  ghost predicate Prioritises(book: ValidatedBook, trades: seq<Trade>) {
    SweepInBounds(book.buys, book.sells, START);
    var fills := Fills(book.buys, book.sells);
    && |trades| == |fills|
    && (book.buys != [] && book.sells != [] ==> |trades| <= |book.buys| + |book.sells| - 1)
    && (forall t :: 0 <= t < |trades| ==> Records(book, fills[t], trades[t]))
    && (forall i :: 0 <= i < |book.buys| ==> BuyFilled(fills, i) <= book.buys[i].quantity)
    && (forall j :: 0 <= j < |book.sells| ==> SellFilled(fills, j) <= book.sells[j].quantity)
    && (forall i, b :: 0 <= b < i < |book.buys| && BuyFilled(fills, i) > 0 ==> BuyFilled(fills, b) == book.buys[b].quantity)
    && (forall j, b :: 0 <= b < j < |book.sells| && SellFilled(fills, j) > 0 ==> SellFilled(fills, b) == book.sells[b].quantity)
    && (forall i, j :: 0 <= i < |book.buys| && 0 <= j < |book.sells| ==> OpenPairApart(book, fills, i, j))
  }

  /** If both orders stay partly open, the buy is below the sell. */
  ghost predicate OpenPairApart(book: ValidatedBook, fills: seq<Fill>, i: nat, j: nat)
    requires i < |book.buys| && j < |book.sells|
  {
    BuyFilled(fills, i) < book.buys[i].quantity && SellFilled(fills, j) < book.sells[j].quantity ==>
      book.buys[i].price < book.sells[j].price
  }

  /** THEOREM (priority). The trades of a settled batch in one market record
      fills that overfill no order, fill an order only when every better one of
      its side is complete, trade at the older order's price between the two
      limits, and leave no two open orders that cross. */
  lemma SettledPriority(input: BatchInput, out: BatchOutput, k: nat)
    requires Outcome(input) == Ok(out) && k < |BooksOf(input)|
    ensures Prioritises(BooksOf(input)[k], TradesIn(out.trades, BooksOf(input)[k].market.id))
  {
    hide Outcome, BooksOf, Prioritises, TradesIn, BookTrades, Sorted;
    SettledBook(input, out, k);
    BookPriority(BooksOf(input)[k], input.config.fees.buyerFeeBps);
  }

  lemma BookPriority(book: ValidatedBook, bps: nat)
    requires Sorted(book.buys, Buy) && Sorted(book.sells, Sell) && book.baseAsset.scale > 0
    ensures Prioritises(book, BookTrades(book, bps))
  {
    hide Sorted, Fills;
    SweepInBounds(book.buys, book.sells, START);
    FillsAreFair(book.buys, book.sells);
    FillsRespectPriority(book.buys, book.sells);
    var fills := Fills(book.buys, book.sells);
    forall i, j | 0 <= i < |book.buys| && 0 <= j < |book.sells| ensures OpenPairApart(book, fills, i, j) {
      if BuyFilled(fills, i) < book.buys[i].quantity && SellFilled(fills, j) < book.sells[j].quantity {
        NoCrossRemains(book.buys, book.sells, i, j);
      }
    }
  }

  // ----- rounding

  /** The trades whose fills take from buy `i`, or from sell `i`. */
  function TradesOfBuy(trades: seq<Trade>, fills: seq<Fill>, i: nat): seq<Trade>
    requires |trades| == |fills|
  {
    if fills == [] then []
    else (if fills[0].buy == i then [trades[0]] else []) + TradesOfBuy(trades[1..], fills[1..], i)
  }

  function TradesOfSell(trades: seq<Trade>, fills: seq<Fill>, i: nat): seq<Trade>
    requires |trades| == |fills|
  {
    if fills == [] then []
    else (if fills[0].sell == i then [trades[0]] else []) + TradesOfSell(trades[1..], fills[1..], i)
  }

  function QuoteTotal(trades: seq<Trade>): nat {
    if trades == [] then 0 else trades[0].quoteAmount + QuoteTotal(trades[1..])
  }

  function FeeTotal(trades: seq<Trade>): nat {
    if trades == [] then 0 else trades[0].quoteFee + FeeTotal(trades[1..])
  }

  /** Each trade charges the rounded quote and fee of its fill. */
  ghost predicate Charges(fills: seq<Fill>, trades: seq<Trade>, scale: nat, bps: nat)
    requires scale > 0
  {
    && |trades| == |fills|
    && forall t :: 0 <= t < |fills| ==>
         && trades[t].quantity == fills[t].quantity
         && trades[t].quoteAmount == QuoteAmount(fills[t].quantity, fills[t].price, scale)
         && trades[t].quoteFee == QuoteFee(trades[t].quoteAmount, bps)
  }

  lemma {:induction false} OrderTotals(fills: seq<Fill>, trades: seq<Trade>, scale: nat, bps: nat, i: nat)
    requires scale > 0 && Charges(fills, trades, scale, bps)
    ensures QuoteTotal(TradesOfBuy(trades, fills, i)) == Paid(OfBuy(fills, i), scale)
    ensures FeeTotal(TradesOfBuy(trades, fills, i)) == FeesPaid(OfBuy(fills, i), scale, bps)
    ensures Quantity(TradesOfBuy(trades, fills, i)) == BuyFilled(fills, i)
    ensures QuoteTotal(TradesOfSell(trades, fills, i)) == Paid(OfSell(fills, i), scale)
    ensures Quantity(TradesOfSell(trades, fills, i)) == SellFilled(fills, i)
    ensures |TradesOfSell(trades, fills, i)| == |OfSell(fills, i)|
  {
    hide QuoteAmount, QuoteFee;
    if fills != [] {
      OrderTotals(fills[1..], trades[1..], scale, bps, i);
      Heads(trades[0], TradesOfBuy(trades[1..], fills[1..], i));
      Heads(trades[0], TradesOfSell(trades[1..], fills[1..], i));
      FillHeads(fills[0], OfBuy(fills[1..], i));
      FillHeads(fills[0], OfSell(fills[1..], i));
    }
  }

  lemma Heads(trade: Trade, rest: seq<Trade>)
    ensures ([trade] + rest)[0] == trade && ([trade] + rest)[1..] == rest && [] + rest == rest
  {
  }

  lemma FillHeads(fill: Fill, rest: seq<Fill>)
    ensures ([fill] + rest)[0] == fill && ([fill] + rest)[1..] == rest && [] + rest == rest
  {
  }

  lemma BookCharges(book: ValidatedBook, bps: nat)
    requires book.baseAsset.scale > 0
    ensures Charges(Fills(book.buys, book.sells), BookTrades(book, bps), book.baseAsset.scale, bps)
  {
    hide QuoteAmount, QuoteFee;
  }

  /** Quantity times price, before rounding. */
  function ValueTotal(trades: seq<Trade>): nat {
    if trades == [] then 0 else trades[0].quantity * trades[0].price + ValueTotal(trades[1..])
  }

  /** What a book's trades keep of each limit after rounding. */
  ghost predicate Rounds(book: ValidatedBook, trades: seq<Trade>, bps: nat) {
    && book.baseAsset.scale > 0 && |trades| == |Fills(book.buys, book.sells)|
    && (forall i :: 0 <= i < |book.buys| ==>
          BuyRounds(book.buys[i], TradesOfBuy(trades, Fills(book.buys, book.sells), i), book.baseAsset.scale, bps))
    && (forall j :: 0 <= j < |book.sells| ==>
          SellRounds(book.sells[j], TradesOfSell(trades, Fills(book.buys, book.sells), j), book.baseAsset.scale))
  }

  /** A buyer pays at most its limit on what it got, and on what it paid the fee,
      rounded down in all; the fee falls short by less than one unit a trade. */
  predicate BuyRounds(buy: Order, mine: seq<Trade>, scale: nat, bps: nat)
    requires scale > 0
  {
    && QuoteTotal(mine) <= buy.price * Quantity(mine) / scale
    && FeeTotal(mine) <= QuoteTotal(mine) * bps / 10_000
    && (mine != [] ==> ValueTotal(mine) < (QuoteTotal(mine) + |mine|) * scale)
    && (mine != [] ==> QuoteTotal(mine) * bps < (FeeTotal(mine) + |mine|) * 10_000)
  }

  predicate SellRounds(sell: Order, mine: seq<Trade>, scale: nat) {
    Quantity(mine) > 0 ==> sell.price * Quantity(mine) < (QuoteTotal(mine) + |mine|) * scale
  }

  lemma ShortByOne(total: nat, part: nat, n: nat, value: nat, rounded: nat, d: nat)
    requires part <= (total + n) * d && value < (rounded + 1) * d
    ensures value + part < (rounded + total + n + 1) * d
  {
    assert (rounded + total + n + 1) * d == (rounded + 1) * d + (total + n) * d;
  }

  /** Rounding each trade loses less than one unit a trade in all. */
  lemma {:induction false} RoundingAddsUp(mine: seq<Trade>, scale: nat, bps: nat)
    requires forall k :: 0 <= k < |mine| ==> TradeRounds(mine[k], scale, bps)
    ensures ValueTotal(mine) <= (QuoteTotal(mine) + |mine|) * scale
    ensures QuoteTotal(mine) * bps <= (FeeTotal(mine) + |mine|) * 10_000
    ensures mine != [] ==> ValueTotal(mine) < (QuoteTotal(mine) + |mine|) * scale
    ensures mine != [] ==> QuoteTotal(mine) * bps < (FeeTotal(mine) + |mine|) * 10_000
  {
    if mine != [] {
      RoundingAddsUp(mine[1..], scale, bps);
      assert TradeRounds(mine[0], scale, bps);
      ShortByOne(QuoteTotal(mine[1..]), ValueTotal(mine[1..]), |mine| - 1, mine[0].quantity * mine[0].price, mine[0].quoteAmount, scale);
      ShortByOne(FeeTotal(mine[1..]), QuoteTotal(mine[1..]) * bps, |mine| - 1, mine[0].quoteAmount * bps, mine[0].quoteFee, 10_000);
      Distribute(mine[0].quoteAmount, QuoteTotal(mine[1..]), bps);
    }
  }

  lemma {:induction false} OrderTradesRound(trades: seq<Trade>, fills: seq<Fill>, i: nat, scale: nat, bps: nat)
    requires |trades| == |fills| && forall k :: 0 <= k < |trades| ==> TradeRounds(trades[k], scale, bps)
    ensures forall k :: 0 <= k < |TradesOfBuy(trades, fills, i)| ==> TradeRounds(TradesOfBuy(trades, fills, i)[k], scale, bps)
  {
    hide TradeRounds;
    if fills != [] {
      OrderTradesRound(trades[1..], fills[1..], i, scale, bps);
    }
  }

  lemma BookTradesRound(book: ValidatedBook, bps: nat)
    requires book.baseAsset.scale > 0
    ensures forall k :: 0 <= k < |BookTrades(book, bps)| ==>
              BookTrades(book, bps)[k].market == book.market.id && TradeRounds(BookTrades(book, bps)[k], book.baseAsset.scale, bps)
  {
    hide TradeOf, TradeRounds;
    SweepInBounds(book.buys, book.sells, START);
    var fills := Fills(book.buys, book.sells);
    forall k | 0 <= k < |fills|
      ensures BookTrades(book, bps)[k].market == book.market.id && TradeRounds(BookTrades(book, bps)[k], book.baseAsset.scale, bps)
    {
      TradeRounded(book.market, book.baseAsset.scale, bps, book.buys[fills[k].buy], book.sells[fills[k].sell], fills[k].quantity, fills[k].price);
    }
  }

  /** The trade is of a listed market and rounds by its base asset's scale. */
  ghost predicate RoundsAsListed(config: ExchangeConfig, t: Trade) {
    exists m, a :: m in config.markets && a in config.assets && m.id == t.market && a.id == m.base
                   && TradeRounds(t, a.scale, config.fees.buyerFeeBps)
  }

  lemma {:induction false} AllTradesRound(orders: seq<Order>, books: seq<OrderBook>, config: ExchangeConfig, built: seq<ValidatedBook>)
    requires Resolved(orders, books, config, built) && Scaled(built)
    ensures forall k :: 0 <= k < |AllTrades(built, config.fees.buyerFeeBps)| ==>
              RoundsAsListed(config, AllTrades(built, config.fees.buyerFeeBps)[k])
  {
    hide BookTrades, TradeRounds;
    if books != [] {
      var bps := config.fees.buyerFeeBps;
      AllTradesRound(orders, books[1..], config, built[1..]);
      BookTradesRound(built[0], bps);
      forall k | 0 <= k < |BookTrades(built[0], bps)| ensures RoundsAsListed(config, BookTrades(built[0], bps)[k]) {
        assert built[0].market in config.markets && built[0].baseAsset in config.assets;
      }
    }
  }

  /** THEOREM (value and fee). Every trade of a settled batch is of a listed
      market; it charges quantity times price over the base asset's scale and the
      fee in hundredths of a percent of that, each rounded down and no further. */
  lemma SettledTradesRound(input: BatchInput, out: BatchOutput)
    requires Outcome(input) == Ok(out)
    ensures forall k :: 0 <= k < |out.trades| ==> RoundsAsListed(input.config, out.trades[k])
  {
    hide Outcome, Resolved, AllTrades, RoundsAsListed, BooksOf, BuildValidatedBooks, Arranged;
    SettledTrades(input, out);
    AllTradesRound(input.orders, input.books, input.config, BooksOf(input));
  }

  /** THEOREM (rounding). Over all the trades of a settled batch that fill one
      buy, the buyer pays at most its limit times what it got over scale and at
      most the fee on that total, each rounded down, and less than one unit a
      trade below value and fee; over all that fill one sell, the seller receives
      more than its limit times what it delivered over scale, less one unit per
      trade. */
  lemma SettledRounding(input: BatchInput, out: BatchOutput, k: nat)
    requires Outcome(input) == Ok(out) && k < |BooksOf(input)|
    ensures Rounds(BooksOf(input)[k], TradesIn(out.trades, BooksOf(input)[k].market.id), input.config.fees.buyerFeeBps)
  {
    hide Outcome, BooksOf, Rounds, TradesIn, BookTrades, Sorted;
    SettledBook(input, out, k);
    BookRounding(BooksOf(input)[k], input.config.fees.buyerFeeBps);
  }

  lemma BookRounding(book: ValidatedBook, bps: nat)
    requires Sorted(book.buys, Buy) && Sorted(book.sells, Sell) && book.baseAsset.scale > 0
    ensures Rounds(book, BookTrades(book, bps), bps)
  {
    hide Sorted, Fills, BookTrades, BuyRounds, SellRounds, Charges, TradeRounds;
    var fills, scale, trades := Fills(book.buys, book.sells), book.baseAsset.scale, BookTrades(book, bps);
    BookCharges(book, bps);
    BookTradesRound(book, bps);
    forall i | 0 <= i < |book.buys| ensures BuyRounds(book.buys[i], TradesOfBuy(trades, fills, i), scale, bps) {
      BuyRounded(book, trades, bps, i);
    }
    forall j | 0 <= j < |book.sells| ensures SellRounds(book.sells[j], TradesOfSell(trades, fills, j), scale) {
      SellRounded(book, trades, bps, j);
    }
  }

  lemma BuyRounded(book: ValidatedBook, trades: seq<Trade>, bps: nat, i: nat)
    requires Sorted(book.buys, Buy) && Sorted(book.sells, Sell) && book.baseAsset.scale > 0 && i < |book.buys|
    requires Charges(Fills(book.buys, book.sells), trades, book.baseAsset.scale, bps)
    requires forall k :: 0 <= k < |trades| ==> TradeRounds(trades[k], book.baseAsset.scale, bps)
    ensures |trades| == |Fills(book.buys, book.sells)|
    ensures BuyRounds(book.buys[i], TradesOfBuy(trades, Fills(book.buys, book.sells), i), book.baseAsset.scale, bps)
  {
    hide Sorted, Fills, TradesOfBuy, TradesOfSell, QuoteTotal, FeeTotal, Quantity, ValueTotal, Paid, FeesPaid, OfBuy, OfSell,
      BuyFilled, SellFilled, TradeRounds;
    OrderTotals(Fills(book.buys, book.sells), trades, book.baseAsset.scale, bps, i);
    OrderTradesRound(trades, Fills(book.buys, book.sells), i, book.baseAsset.scale, bps);
    RoundingAddsUp(TradesOfBuy(trades, Fills(book.buys, book.sells), i), book.baseAsset.scale, bps);
    BuyerNeverOverpays(book.buys, book.sells, i, book.baseAsset.scale, bps);
  }

  lemma SellRounded(book: ValidatedBook, trades: seq<Trade>, bps: nat, j: nat)
    requires Sorted(book.buys, Buy) && Sorted(book.sells, Sell) && book.baseAsset.scale > 0 && j < |book.sells|
    requires Charges(Fills(book.buys, book.sells), trades, book.baseAsset.scale, bps)
    ensures |trades| == |Fills(book.buys, book.sells)|
    ensures SellRounds(book.sells[j], TradesOfSell(trades, Fills(book.buys, book.sells), j), book.baseAsset.scale)
  {
    hide Sorted, Fills, TradesOfBuy, TradesOfSell, QuoteTotal, FeeTotal, Quantity, Paid, FeesPaid, OfBuy, OfSell, BuyFilled, SellFilled;
    OrderTotals(Fills(book.buys, book.sells), trades, book.baseAsset.scale, bps, j);
    if SellFilled(Fills(book.buys, book.sells), j) > 0 {
      SellerLosesOnlyDust(book.buys, book.sells, j, book.baseAsset.scale);
    }
  }
}
