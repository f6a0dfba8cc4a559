/** When matching goes through, exactly: every trade must be payable by what the
    trades before it leave its parties. */
module Coverage {
  import opened Results
  import opened Types
  import opened Ledger
  import opened Operations
  import opened Validation
  import opened Matching
  import opened Books
  import opened Trades
  import opened Settlement
  import opened Readiness
  import opened SettledMatching

  // ----- one trade

  ghost predicate TotalsInRange(accounts: seq<Account>) {
    forall a :: Total(accounts, a) <= U128_MAX
  }

  lemma {:induction false} TwoHoldings(accounts: seq<Account>, a: AccountId, b: AccountId, asset: AssetId)
    requires a != b
    ensures Holding(accounts, a, asset) + Holding(accounts, b, asset) <= Total(accounts, asset)
  {
    if accounts != [] {
      if accounts[0].id == a {
        HoldingInTotal(accounts[1..], b, asset);
      } else if accounts[0].id == b {
        HoldingInTotal(accounts[1..], a, asset);
      } else {
        TwoHoldings(accounts[1..], a, b, asset);
      }
    }
  }

  /** A party can give and take exactly when it holds what it gives and has
      room for what it takes. */
  lemma ExchangeExactly(accounts: seq<Account>, i: nat, id: AccountId, given: AssetId, out: nat, taken: AssetId, back: nat)
    requires ValidAccounts(accounts) && IndexMatches(i, accounts, id) && 0 < back <= U128_MAX && 0 < out && given != taken
    ensures Exchange(accounts, i, given, out, taken, back).Ok? <==>
              out <= Holding(accounts, id, given) && Holding(accounts, id, taken) + back <= U128_MAX
  {
    hide ValidAccounts, Holding, Total;
    DebitAtBooks(accounts, i, given, out);
    if DebitAt(accounts, i, given, out).Ok? {
      CreditAtBooks(DebitAt(accounts, i, given, out).value, i, taken, back);
    }
  }

  /** Within range only what is given can be missing. */
  lemma BookingExactly(accounts: seq<Account>, market: MarketConfig, buyer: nat, seller: nat, feeIndex: nat, trade: Trade, recipient: AccountId)
    requires ValidAccounts(accounts) && TotalsInRange(accounts) && market.base != market.quote
    requires 0 < trade.quantity <= U128_MAX && 0 < trade.quoteAmount && trade.quoteAmount + trade.quoteFee <= U128_MAX
    requires IndexMatches(buyer, accounts, trade.buyer) && IndexMatches(seller, accounts, trade.seller)
    requires IndexMatches(feeIndex, accounts, recipient) && trade.buyer != trade.seller
    ensures BookTrade(accounts, market, buyer, seller, feeIndex, trade).Ok? <==>
              && trade.quoteAmount + trade.quoteFee <= Holding(accounts, trade.buyer, market.quote)
              && trade.quantity <= Holding(accounts, trade.seller, market.base)
  {
    hide Exchange, CreditAt, ValidAccounts, Holding, Total, CanonicalAccounts;
    var owed := trade.quoteAmount + trade.quoteFee;
    ExchangeExactly(accounts, buyer, trade.buyer, market.quote, owed, market.base, trade.quantity);
    TwoHoldings(accounts, trade.buyer, trade.seller, market.base);
    TwoHoldings(accounts, trade.buyer, trade.seller, market.quote);
    assert Total(accounts, market.base) <= U128_MAX && Total(accounts, market.quote) <= U128_MAX;
    if Exchange(accounts, buyer, market.quote, owed, market.base, trade.quantity).Ok? {
      var bought := ExchangeBooked(accounts, buyer, trade.buyer, market.quote, owed, market.base, trade.quantity);
      ExchangeExactly(bought, seller, trade.seller, market.base, trade.quantity, market.quote, trade.quoteAmount);
      if Exchange(bought, seller, market.base, trade.quantity, market.quote, trade.quoteAmount).Ok? {
        var sold := ExchangeBooked(bought, seller, trade.seller, market.base, trade.quantity, market.quote, trade.quoteAmount);
        CreditAtBooks(sold, feeIndex, market.quote, trade.quoteFee);
        HoldingInTotal(sold, recipient, market.quote);
      }
    }
  }

  /** What a trade needs of its parties, given what they hold. */
  predicate Affordable(trade: Trade, bps: nat, quoteHeld: int, baseHeld: int) {
    && trade.buyer != trade.seller
    && trade.quantity * trade.price <= U128_MAX && 0 < trade.quoteAmount
    && trade.quoteAmount * bps <= U128_MAX && trade.quoteAmount + trade.quoteFee <= U128_MAX
    && trade.quoteAmount + trade.quoteFee <= quoteHeld && trade.quantity <= baseHeld
  }

  /** THEOREM. A fill settles exactly when its parties differ, its value neither
      overflows nor rounds to zero, the buyer holds quote and fee and the seller
      holds the quantity. */
  lemma TradeSucceedsExactly(accounts: seq<Account>, market: MarketConfig, scale: nat, fees: FeeConfig, feeIndex: nat,
                             buy: Order, sell: Order, quantity: nat, price: nat)
    requires scale > 0 && ValidAccounts(accounts) && TotalsInRange(accounts) && 0 < quantity <= U128_MAX
    requires PartiesAt(accounts, feeIndex, fees.recipient, buy, sell) && market.base != market.quote
    ensures SettleTrade(accounts, market, scale, fees, feeIndex, buy, sell, quantity, price).Ok? <==>
              Affordable(TradeOf(market, scale, fees.buyerFeeBps, buy, sell, quantity, price), fees.buyerFeeBps,
                         Holding(accounts, buy.trader, market.quote), Holding(accounts, sell.trader, market.base))
  {
    hide BookTrade, ValidAccounts, Holding, Total, QuoteAmount, QuoteFee;
    var trade := TradeOf(market, scale, fees.buyerFeeBps, buy, sell, quantity, price);
    if CheckTrade(trade, fees.buyerFeeBps).Pass? {
      TradeChecked(trade, fees.buyerFeeBps);
      BookingExactly(accounts, market, buy.index, sell.index, feeIndex, trade, fees.recipient);
    }
  }

  // ----- all trades in turn

  /** Trade `k` is affordable for what the trades before it leave its parties. */
  ghost predicate Payable(accounts: seq<Account>, config: ExchangeConfig, trades: seq<Trade>, k: nat)
    requires k < |trades|
  {
    var t := trades[k];
    var market := FindMarket(config.markets, t.market);
    && market.Some?
    && Affordable(t, config.fees.buyerFeeBps,
                  Holding(accounts, t.buyer, market.value.quote) + BatchNet(trades[..k], config, t.buyer, market.value.quote),
                  Holding(accounts, t.seller, market.value.base) + BatchNet(trades[..k], config, t.seller, market.value.base))
  }

  ghost predicate AllPayable(accounts: seq<Account>, config: ExchangeConfig, trades: seq<Trade>) {
    forall k :: 0 <= k < |trades| ==> Payable(accounts, config, trades, k)
  }

  lemma PayableEarlier(accounts: seq<Account>, config: ExchangeConfig, a: seq<Trade>, b: seq<Trade>, k: nat)
    requires k < |a|
    ensures Payable(accounts, config, a + b, k) <==> Payable(accounts, config, a, k)
  {
    assert (a + b)[..k] == a[..k];
  }

  lemma PayableLater(accounts: seq<Account>, next: seq<Account>, config: ExchangeConfig, a: seq<Trade>, b: seq<Trade>, k: nat)
    requires forall id, x :: Holding(next, id, x) == Holding(accounts, id, x) + BatchNet(a, config, id, x)
    requires k < |b|
    ensures Payable(accounts, config, a + b, |a| + k) <==> Payable(next, config, b, k)
  {
    hide BatchNet, Affordable, Holding;
    var t := b[k];
    assert (a + b)[..|a| + k] == a + b[..k];
    if FindMarket(config.markets, t.market).Some? {
      var market := FindMarket(config.markets, t.market).value;
      BatchNetAppend(a, b[..k], config, t.buyer, market.quote);
      BatchNetAppend(a, b[..k], config, t.seller, market.base);
    }
  }

  /** Trades in a row are payable when the first are, and then the rest. */
  lemma PayableSplit(accounts: seq<Account>, next: seq<Account>, config: ExchangeConfig, a: seq<Trade>, b: seq<Trade>)
    requires forall id, x :: Holding(next, id, x) == Holding(accounts, id, x) + BatchNet(a, config, id, x)
    ensures AllPayable(accounts, config, a + b) <==> AllPayable(accounts, config, a) && AllPayable(next, config, b)
  {
    hide Payable, BatchNet, Holding;
    forall k | 0 <= k < |a| ensures Payable(accounts, config, a + b, k) <==> Payable(accounts, config, a, k) {
      PayableEarlier(accounts, config, a, b, k);
    }
    forall k | 0 <= k < |b| ensures Payable(accounts, config, a + b, |a| + k) <==> Payable(next, config, b, k) {
      PayableLater(accounts, next, config, a, b, k);
    }
    if AllPayable(accounts, config, a + b) {
      forall k | 0 <= k < |b| ensures Payable(next, config, b, k) {
        assert Payable(accounts, config, a + b, |a| + k);
      }
    }
    if AllPayable(accounts, config, a) && AllPayable(next, config, b) {
      forall k | 0 <= k < |a + b| ensures Payable(accounts, config, a + b, k) {
        if k >= |a| {
          assert Payable(next, config, b, k - |a|);
          assert |a| + (k - |a|) == k;
        }
      }
    }
  }

  lemma PrefixPayable(accounts: seq<Account>, config: ExchangeConfig, a: seq<Trade>, b: seq<Trade>)
    requires !AllPayable(accounts, config, a)
    ensures !AllPayable(accounts, config, a + b)
  {
    hide Payable;
    var k :| 0 <= k < |a| && !Payable(accounts, config, a, k);
    PayableEarlier(accounts, config, a, b, k);
  }

  /** The trades of a list of fills. */
  function TradesOf(book: ValidatedBook, bps: nat, fills: seq<Fill>): (r: seq<Trade>)
    requires book.baseAsset.scale > 0
    requires forall k :: 0 <= k < |fills| ==> fills[k].buy < |book.buys| && fills[k].sell < |book.sells|
  {
    if fills == [] then []
    else [TradeOf(book.market, book.baseAsset.scale, bps, book.buys[fills[0].buy], book.sells[fills[0].sell],
                  fills[0].quantity, fills[0].price)] + TradesOf(book, bps, fills[1..])
  }

  lemma {:induction false} TradesOfAt(book: ValidatedBook, bps: nat, fills: seq<Fill>)
    requires book.baseAsset.scale > 0
    requires forall k :: 0 <= k < |fills| ==> fills[k].buy < |book.buys| && fills[k].sell < |book.sells|
    ensures |TradesOf(book, bps, fills)| == |fills|
    ensures forall k :: 0 <= k < |fills| ==> (
              TradesOf(book, bps, fills)[k] ==
              TradeOf(book.market, book.baseAsset.scale, bps, book.buys[fills[k].buy], book.sells[fills[k].sell],
                      fills[k].quantity, fills[k].price))
  {
    hide TradeOf;
    if fills != [] {
      TradesOfAt(book, bps, fills[1..]);
    }
  }

  lemma OneTradeNet(trade: Trade, market: MarketConfig, config: ExchangeConfig)
    requires FindMarket(config.markets, trade.market) == Some(market)
    ensures forall id, a :: BatchNet([trade], config, id, a) == Delta(trade, market, config.fees.recipient, id, a)
  {
    hide Delta;
    var none: seq<Trade> := [];
    assert [trade][1..] == none;
  }

  lemma OnePayable(accounts: seq<Account>, trade: Trade, market: MarketConfig, config: ExchangeConfig)
    requires FindMarket(config.markets, trade.market) == Some(market)
    ensures AllPayable(accounts, config, [trade]) <==>
              Affordable(trade, config.fees.buyerFeeBps, Holding(accounts, trade.buyer, market.quote), Holding(accounts, trade.seller, market.base))
  {
    hide Affordable;
    assert [trade][..0] == [];
    assert AllPayable(accounts, config, [trade]) <==> Payable(accounts, config, [trade], 0);
  }

  /** A book as matching takes it: listed, in bounds, of distinct assets. */
  ghost predicate BookFits(accounts: seq<Account>, book: ValidatedBook, config: ExchangeConfig) {
    && book.baseAsset.scale > 0 && book.market.base != book.market.quote
    && FindMarket(config.markets, book.market.id) == Some(book.market)
    && OrdersAt(accounts, book.buys) && OrdersAt(accounts, book.sells)
  }

  lemma BookStays(accounts: seq<Account>, next: seq<Account>, book: ValidatedBook, config: ExchangeConfig)
    requires BookFits(accounts, book, config) && SameIds(accounts, next)
    ensures BookFits(next, book, config)
  {
  }

  lemma {:induction false} FillsSucceedExactly(accounts: seq<Account>, book: ValidatedBook, config: ExchangeConfig, feeIndex: nat, fills: seq<Fill>)
    requires ValidAccounts(accounts) && TotalsInRange(accounts) && BookFits(accounts, book, config)
    requires IndexMatches(feeIndex, accounts, config.fees.recipient)
    requires forall k :: 0 <= k < |fills| ==> fills[k].buy < |book.buys| && fills[k].sell < |book.sells| && 0 < fills[k].quantity <= U128_MAX
    ensures SettleFills(accounts, book.market, book.baseAsset.scale, config.fees, feeIndex, book.buys, book.sells, fills).Ok? <==>
              AllPayable(accounts, config, TradesOf(book, config.fees.buyerFeeBps, fills))
    decreases |fills|
  {
    hide SettleTrade, TradeOf, Delta, Affordable, ValidAccounts, Holding, BatchNet, AllPayable, Total, FindMarket;
    if fills == [] {
      NothingPayable(accounts, config);
    } else {
      var fill, scale := fills[0], book.baseAsset.scale;
      var buy, sell := book.buys[fill.buy], book.sells[fill.sell];
      var trade := TradeOf(book.market, scale, config.fees.buyerFeeBps, buy, sell, fill.quantity, fill.price);
      var rest := TradesOf(book, config.fees.buyerFeeBps, fills[1..]);
      TradeNames(book, config.fees.buyerFeeBps, fill);
      TradeSucceedsExactly(accounts, book.market, scale, config.fees, feeIndex, buy, sell, fill.quantity, fill.price);
      OnePayable(accounts, trade, book.market, config);
      if SettleTrade(accounts, book.market, scale, config.fees, feeIndex, buy, sell, fill.quantity, fill.price).Ok? {
        TradeConserves(accounts, book.market, scale, config.fees, feeIndex, buy, sell, fill.quantity, fill.price);
        var next := SettleTrade(accounts, book.market, scale, config.fees, feeIndex, buy, sell, fill.quantity, fill.price).value.0;
        OneTradeNet(trade, book.market, config);
        BookStays(accounts, next, book, config);
        FillsSucceedExactly(next, book, config, feeIndex, fills[1..]);
        PayableSplit(accounts, next, config, [trade], rest);
      } else {
        PrefixPayable(accounts, config, [trade], rest);
      }
    }
  }

  lemma NothingPayable(accounts: seq<Account>, config: ExchangeConfig)
    ensures AllPayable(accounts, config, [])
  {
  }

  lemma TradeNames(book: ValidatedBook, bps: nat, fill: Fill)
    requires book.baseAsset.scale > 0 && fill.buy < |book.buys| && fill.sell < |book.sells|
    ensures var trade := TradeOf(book.market, book.baseAsset.scale, bps, book.buys[fill.buy], book.sells[fill.sell], fill.quantity, fill.price);
            && trade.market == book.market.id
            && trade.buyer == book.buys[fill.buy].trader && trade.seller == book.sells[fill.sell].trader
  {
  }

  lemma MarketSucceedsExactly(accounts: seq<Account>, book: ValidatedBook, config: ExchangeConfig, feeIndex: nat)
    requires ValidAccounts(accounts) && TotalsInRange(accounts) && BookFits(accounts, book, config)
    requires Sorted(book.buys, Buy) && Sorted(book.sells, Sell) && QuantitiesFit(book.buys)
    requires IndexMatches(feeIndex, accounts, config.fees.recipient)
    ensures MatchMarket(accounts, book, config.fees, feeIndex).Ok? <==> AllPayable(accounts, config, BookTrades(book, config.fees.buyerFeeBps))
  {
    hide SettleFills, TradeOf, ValidAccounts, AllPayable, Sorted, TotalsInRange, Fills;
    var fills, bps := Fills(book.buys, book.sells), config.fees.buyerFeeBps;
    SweepInBounds(book.buys, book.sells, START);
    FillsAreFair(book.buys, book.sells);
    QuantitiesBound(book);
    TradesOfAt(book, bps, fills);
    assert TradesOf(book, bps, fills) == BookTrades(book, bps);
    FillsSucceedExactly(accounts, book, config, feeIndex, fills);
  }

  lemma QuantitiesBound(book: ValidatedBook)
    requires QuantitiesFit(book.buys)
    ensures forall k :: 0 <= k < |Fills(book.buys, book.sells)| ==> Fills(book.buys, book.sells)[k].quantity <= U128_MAX
  {
    SweepFits(book.buys, book.sells, START);
  }

  ghost predicate BooksFit(accounts: seq<Account>, books: seq<ValidatedBook>, config: ExchangeConfig) {
    forall k :: 0 <= k < |books| ==> BookFits(accounts, books[k], config) && QuantitiesFit(books[k].buys)
  }

  /** THEOREM (matching goes through). The books of a batch settle exactly when
      each trade of the sweep, in order, is payable by what the trades before it
      leave its parties. */
  lemma {:induction false} BooksSucceedExactly(accounts: seq<Account>, books: seq<ValidatedBook>, config: ExchangeConfig, feeIndex: nat)
    requires ValidAccounts(accounts) && TotalsInRange(accounts) && BooksFit(accounts, books, config)
    requires Prioritised(books) && Scaled(books) && BooksBound(books, |accounts|)
    requires IndexMatches(feeIndex, accounts, config.fees.recipient)
    ensures MatchBooks(accounts, books, config.fees, feeIndex).Ok? <==> AllPayable(accounts, config, AllTrades(books, config.fees.buyerFeeBps))
    decreases |books|
  {
    hide MatchMarket, BookTrades, ValidAccounts, AllPayable, Sorted, Holding, BatchNet, Total, BookFits, QuantitiesFit, FindMarket;
    if books == [] {
      NothingPayable(accounts, config);
    } else {
      var bps := config.fees.buyerFeeBps;
      assert BookFits(accounts, books[0], config);
      BookMeans(accounts, books[0], config);
      MarketSucceedsExactly(accounts, books[0], config, feeIndex);
      var mine, rest := BookTrades(books[0], bps), AllTrades(books[1..], bps);
      if MatchMarket(accounts, books[0], config.fees, feeIndex).Ok? {
        MarketNet(accounts, books[0], config, feeIndex);
        MarketRecords(accounts, books[0], config.fees, feeIndex);
        var next := MatchMarket(accounts, books[0], config.fees, feeIndex).value.0;
        forall k | 0 <= k < |books[1..]| ensures BookFits(next, books[1..][k], config) && QuantitiesFit(books[1..][k].buys) {
          assert books[1..][k] == books[k + 1];
          BookStays(accounts, next, books[k + 1], config);
        }
        BooksSucceedExactly(next, books[1..], config, feeIndex);
        PayableSplit(accounts, next, config, mine, rest);
      } else {
        PrefixPayable(accounts, config, mine, rest);
      }
    }
  }

  lemma BookMeans(accounts: seq<Account>, book: ValidatedBook, config: ExchangeConfig)
    requires BookFits(accounts, book, config)
    ensures book.baseAsset.scale > 0 && OrdersAt(accounts, book.buys) && OrdersAt(accounts, book.sells)
    ensures FindMarket(config.markets, book.market.id) == Some(book.market)
  {
  }

  // ----- any batch

  /** Matching a batch whose books are accepted. */
  lemma ClearExactly(input: BatchInput, accounts: seq<Account>)
    requires ScalesPositive(input.config) && OrdersAt(accounts, input.orders) && QuantitiesFit(input.orders)
    requires ValidAccounts(accounts) && TotalsInRange(accounts) && HasId(accounts, input.config.fees.recipient)
    requires forall m :: m in input.config.markets ==> m.base != m.quote
    requires forall i :: 0 <= i < |input.orders| ==> input.orders[i].quantity > 0
    ensures Clear(input, accounts).Ok? <==>
              BuildValidatedBooks(input.orders, input.books, input.config).Ok? && AllPayable(accounts, input.config, TradesFor(input))
  {
    hide MatchBooks, AllTrades, BuildValidatedBooks, AllPayable, Resolved, ValidAccounts, TotalsInRange;
    if BuildValidatedBooks(input.orders, input.books, input.config).Ok? {
      var books := BooksOf(input);
      BooksAcceptedExactly(input.orders, input.books, input.config);
      ResolvedReady(input.orders, input.books, input.config, books, accounts);
      ResolvedSorted(input.orders, input.books, input.config, books);
      BooksAreFit(accounts, books, input.config);
      FoundRecipient(accounts, input.config.fees.recipient);
      BooksSucceedExactly(accounts, books, input.config, SearchId(accounts, input.config.fees.recipient).index);
    }
  }

  lemma FoundRecipient(accounts: seq<Account>, id: AccountId)
    requires ValidAccounts(accounts) && HasId(accounts, id)
    ensures SearchId(accounts, id).Found? && IndexMatches(SearchId(accounts, id).index, accounts, id)
  {
    SearchFinds(accounts, id);
  }

  lemma BooksAreFit(accounts: seq<Account>, books: seq<ValidatedBook>, config: ExchangeConfig)
    requires BooksListed(books, config) && BooksReady(accounts, books)
    requires forall m :: m in config.markets ==> m.base != m.quote
    ensures BooksFit(accounts, books, config)
  {
    forall k | 0 <= k < |books| ensures BookFits(accounts, books[k], config) && QuantitiesFit(books[k].buys) {
      assert FindMarket(config.markets, books[k].market.id) == Some(books[k].market);
    }
  }

  lemma ClearsExactly(input: BatchInput)
    requires Typed(input) && Prepare(input).Ok?
    ensures Clears(input) <==>
              && BuildValidatedBooks(input.orders, input.books, input.config).Ok?
              && AllPayable(Prepare(input).value, input.config, TradesFor(input))
  {
    hide Validate, Baseline, Admit, ValidateOperations, Consume, Clear, AllPayable, HasId, DepositsTo, BuildValidatedBooks, TradesFor,
      Holding, Total, ApplyDeposits, ApplyForced, ValidAccounts;
    StagesSplit(input);
    PreparedHoldings(input);
    ValidateUnfold(input);
    ConfigGuarantees(input.config, input.accounts);
    var admitted := Admit(input, Baseline(input).value).value.0;
    OrdersPositive(input, admitted);
    ClearExactly(input, Prepare(input).value);
  }

  /** THEOREM (when a batch settles). The stages of a batch succeed exactly when
      it is valid and ready, its books list every order in strict priority over
      known markets in ascending order, and each trade they make is payable. */
  lemma StagesSucceedExactly(input: BatchInput)
    requires Typed(input)
    ensures Stages(input).Ok? <==>
              && Validate(input).Ok? && Ready(input) && Prepare(input).Ok?
              && Arranged(input.orders, input.books)
              && (forall k :: 0 <= k < |input.books| ==> MarketKnown(input.config, input.books[k].market))
              && AllPayable(Prepare(input).value, input.config, TradesFor(input))
  {
    hide Validate, Prepare, Clear, AllPayable, BuildValidatedBooks, TradesFor, Ready, Arranged, MarketKnown, Stages, Typed, Clears;
    UnpreparedInvalid(input);
    StagesClear(input);
    BooksAcceptedExactly(input.orders, input.books, input.config);
    if Prepare(input).Ok? {
      PreparedExactly(input);
      ClearsExactly(input);
    }
  }

  lemma StagesClear(input: BatchInput)
    ensures Stages(input).Ok? <==> Prepare(input).Ok? && Clears(input)
  {
    hide Stages, Prepare, Clear;
    StagesSplit(input);
  }

  lemma UnpreparedInvalid(input: BatchInput)
    ensures Prepare(input).Ok? ==> Validate(input).Ok?
  {
    hide Validate;
  }
}
