/** Settling the fills of the matching engine against account balances, and how
    rounding falls (settlement/matching.rs). */
module Trades {
  import opened Keys
  import opened Results
  import opened Types
  import opened Ledger
  import opened Operations
  import opened Validation
  import opened Books
  import opened Matching

  function QuoteAmount(quantity: nat, price: nat, scale: nat): nat
    requires scale > 0
  {
    quantity * price / scale
  }

  function QuoteFee(quoteAmount: nat, bps: nat): nat {
    quoteAmount * bps / BPS_DENOMINATOR
  }

  /** The trade record of one fill. */
  function TradeOf(market: MarketConfig, scale: nat, bps: nat, buy: Order, sell: Order, quantity: nat, price: nat): Trade
    requires scale > 0
  {
    var quote := QuoteAmount(quantity, price, scale);
    Trade(market.id, buy.trader, sell.trader, price, quantity, quote, QuoteFee(quote, bps))
  }

  /** The trade's value is its quantity times its price over the base scale, and
      its fee that value times hundredths of a percent, both rounded down. */
  predicate TradeRounds(t: Trade, scale: nat, bps: nat) {
    && t.quoteAmount * scale <= t.quantity * t.price < (t.quoteAmount + 1) * scale
    && t.quoteFee * 10_000 <= t.quoteAmount * bps < (t.quoteFee + 1) * 10_000
  }

  lemma QuoteRounds(quantity: nat, price: nat, scale: nat)
    requires scale > 0
    ensures QuoteAmount(quantity, price, scale) * scale <= quantity * price < (QuoteAmount(quantity, price, scale) + 1) * scale
  {
    DivideBounds(quantity * price, scale);
  }

  lemma FeeRounds(quote: nat, bps: nat)
    ensures QuoteFee(quote, bps) * 10_000 <= quote * bps < (QuoteFee(quote, bps) + 1) * 10_000
  {
    DivideBounds(quote * bps, BPS_DENOMINATOR);
  }

  lemma TradeRounded(market: MarketConfig, scale: nat, bps: nat, buy: Order, sell: Order, quantity: nat, price: nat)
    requires scale > 0
    ensures var trade := TradeOf(market, scale, bps, buy, sell, quantity, price);
            && trade.market == market.id && trade.quantity == quantity && trade.price == price
            && trade.buyer == buy.trader && trade.seller == sell.trader
            && TradeRounds(trade, scale, bps)
  {
    hide QuoteAmount, QuoteFee;
    QuoteRounds(quantity, price, scale);
    FeeRounds(QuoteAmount(quantity, price, scale), bps);
  }

  /** The checks a fill must pass before any balance moves. */
  function CheckTrade(trade: Trade, bps: nat): Check {
    if trade.buyer == trade.seller then Fail(SelfTrade)
    else if trade.quantity * trade.price > U128_MAX then Fail(ArithmeticOverflow)
    else if trade.quoteAmount == 0 then Fail(TradeValueRoundsToZero)
    else if trade.quoteAmount * bps > U128_MAX then Fail(ArithmeticOverflow)
    else if trade.quoteAmount + trade.quoteFee > U128_MAX then Fail(ArithmeticOverflow)
    else Pass
  }

  /** One party gives an amount of one asset and takes one of another. */
  function Exchange(accounts: seq<Account>, i: nat, given: AssetId, out: nat, taken: AssetId, back: nat): (r: Result<seq<Account>>)
    requires i < |accounts|
    ensures r.Ok? ==> SameIds(accounts, r.value)
  {
    var paid :- DebitAt(accounts, i, given, out);
    CreditAt(paid, i, taken, back)
  }

  /** The bookings of a trade: the buyer's, the seller's, then the fee. */
  function BookTrade(accounts: seq<Account>, market: MarketConfig, buyer: nat, seller: nat, feeIndex: nat, trade: Trade)
    : (r: Result<seq<Account>>)
    requires buyer < |accounts| && seller < |accounts| && feeIndex < |accounts|
    ensures r.Ok? ==> SameIds(accounts, r.value)
  {
    var bought :- Exchange(accounts, buyer, market.quote, trade.quoteAmount + trade.quoteFee, market.base, trade.quantity);
    var sold :- Exchange(bought, seller, market.base, trade.quantity, market.quote, trade.quoteAmount);
    CreditAt(sold, feeIndex, market.quote, trade.quoteFee)
  }

  function SettleTrade(accounts: seq<Account>, market: MarketConfig, scale: nat, fees: FeeConfig, feeIndex: nat,
                       buy: Order, sell: Order, quantity: nat, price: nat): (r: Result<(seq<Account>, Trade)>)
    requires scale > 0
    requires buy.index < |accounts| && sell.index < |accounts| && feeIndex < |accounts|
    ensures r.Ok? ==> SameIds(accounts, r.value.0)
  {
    var trade := TradeOf(market, scale, fees.buyerFeeBps, buy, sell, quantity, price);
    var check := CheckTrade(trade, fees.buyerFeeBps);
    if check.Fail? then
      Err(check.error)
    else
      var settled :- BookTrade(accounts, market, buy.index, sell.index, feeIndex, trade);
      Ok((settled, trade))
  }

  /** What one trade changes for one account and asset. The parts add up even
      when buyer, seller and fee recipient coincide. */
  function Delta(trade: Trade, market: MarketConfig, recipient: AccountId, id: AccountId, asset: AssetId): int {
    (if id == trade.buyer && asset == market.quote then -((trade.quoteAmount + trade.quoteFee) as int) else 0)
    + (if id == trade.buyer && asset == market.base then trade.quantity else 0)
    + (if id == trade.seller && asset == market.base then -(trade.quantity as int) else 0)
    + (if id == trade.seller && asset == market.quote then trade.quoteAmount else 0)
    + (if id == recipient && asset == market.quote then trade.quoteFee else 0)
  }

  /** The parties of a trade are where their orders say they are. */
  ghost predicate PartiesAt(accounts: seq<Account>, feeIndex: nat, recipient: AccountId, buy: Order, sell: Order) {
    && IndexMatches(buy.index, accounts, buy.trader)
    && IndexMatches(sell.index, accounts, sell.trader)
    && IndexMatches(feeIndex, accounts, recipient)
  }

  /** A step that moves value between accounts without creating any. */
  ghost predicate Moves(accounts: seq<Account>, r: seq<Account>) {
    && ValidAccounts(r) && SameIds(accounts, r)
    && (forall k :: NextNonce(r, k) == NextNonce(accounts, k))
    && (forall a :: Total(r, a) == Total(accounts, a))
  }

  lemma TradeChecked(trade: Trade, bps: nat)
    requires CheckTrade(trade, bps).Pass?
    ensures trade.buyer != trade.seller
    ensures 0 < trade.quoteAmount && trade.quoteAmount + trade.quoteFee <= U128_MAX
  {
  }

  /** THEOREM. A settled trade is for the fill's quantity and price between its
      orders' traders, at the rounded value and fee. It moves exactly quote and
      fee from the buyer to seller and fee recipient and the quantity from the
      seller to the buyer, whoever they are, and conserves every asset. */
  lemma TradeConserves(accounts: seq<Account>, market: MarketConfig, scale: nat, fees: FeeConfig, feeIndex: nat,
                       buy: Order, sell: Order, quantity: nat, price: nat)
    requires scale > 0 && ValidAccounts(accounts) && quantity <= U128_MAX
    requires PartiesAt(accounts, feeIndex, fees.recipient, buy, sell)
    requires SettleTrade(accounts, market, scale, fees, feeIndex, buy, sell, quantity, price).Ok?
    ensures var (r, trade) := SettleTrade(accounts, market, scale, fees, feeIndex, buy, sell, quantity, price).value;
            && trade == TradeOf(market, scale, fees.buyerFeeBps, buy, sell, quantity, price)
            && trade.market == market.id && trade.quantity == quantity && trade.price == price
            && trade.buyer == buy.trader != sell.trader == trade.seller && trade.quoteAmount > 0
            && TradeRounds(trade, scale, fees.buyerFeeBps)
            && Moves(accounts, r)
            && (forall id, a :: Holding(r, id, a) == Holding(accounts, id, a) + Delta(trade, market, fees.recipient, id, a))
  {
    var trade := TradeOf(market, scale, fees.buyerFeeBps, buy, sell, quantity, price);
    hide QuoteAmount, QuoteFee, TradeRounds;
    TradeChecked(trade, fees.buyerFeeBps);
    TradeRounded(market, scale, fees.buyerFeeBps, buy, sell, quantity, price);
    TradeBooked(accounts, market, buy.index, sell.index, feeIndex, trade, fees.recipient);
  }

  function Change(before: seq<Account>, after: seq<Account>, id: AccountId, asset: AssetId): int {
    Holding(after, id, asset) - Holding(before, id, asset)
  }

  /** THEOREM (who pays whom). Between distinct assets, the buyer of a settled
      trade gets its quantity of base and pays its value in quote, the seller the
      other way round; the fee comes on top for the buyer and goes to the fee
      recipient, and nobody else and nothing else moves. A buyer who is the fee
      recipient pays the value alone, and a seller who is receives both. */
  lemma TradePays(accounts: seq<Account>, market: MarketConfig, scale: nat, fees: FeeConfig, feeIndex: nat,
                  buy: Order, sell: Order, quantity: nat, price: nat)
    requires scale > 0 && ValidAccounts(accounts) && quantity <= U128_MAX && market.base != market.quote
    requires PartiesAt(accounts, feeIndex, fees.recipient, buy, sell)
    requires SettleTrade(accounts, market, scale, fees, feeIndex, buy, sell, quantity, price).Ok?
    ensures var (r, t) := SettleTrade(accounts, market, scale, fees, feeIndex, buy, sell, quantity, price).value;
            && Change(accounts, r, buy.trader, market.base) == quantity
            && Change(accounts, r, sell.trader, market.base) == -(quantity as int)
            && Change(accounts, r, buy.trader, market.quote) ==
                 (if fees.recipient == buy.trader then -(t.quoteAmount as int) else -(t.quoteAmount as int) - t.quoteFee)
            && Change(accounts, r, sell.trader, market.quote) ==
                 (if fees.recipient == sell.trader then t.quoteAmount + t.quoteFee else t.quoteAmount)
            && (fees.recipient != buy.trader && fees.recipient != sell.trader ==>
                  Change(accounts, r, fees.recipient, market.quote) == t.quoteFee && Change(accounts, r, fees.recipient, market.base) == 0)
            && (forall id, a :: id !in {buy.trader, sell.trader, fees.recipient} || a !in {market.base, market.quote} ==>
                  Change(accounts, r, id, a) == 0)
  {
    hide SettleTrade, Holding, PartiesAt, TradeOf, ValidAccounts, TradeRounds, Moves;
    TradeConserves(accounts, market, scale, fees, feeIndex, buy, sell, quantity, price);
  }

  lemma TradeBooked(accounts: seq<Account>, market: MarketConfig, buyer: nat, seller: nat, feeIndex: nat, trade: Trade,
                    recipient: AccountId)
    requires ValidAccounts(accounts) && trade.quantity <= U128_MAX && trade.quoteAmount + trade.quoteFee <= U128_MAX
    requires IndexMatches(buyer, accounts, trade.buyer) && IndexMatches(seller, accounts, trade.seller)
    requires IndexMatches(feeIndex, accounts, recipient)
    requires BookTrade(accounts, market, buyer, seller, feeIndex, trade).Ok?
    ensures var settled := BookTrade(accounts, market, buyer, seller, feeIndex, trade).value;
            && Moves(accounts, settled)
            && forall id, a :: Holding(settled, id, a) == Holding(accounts, id, a) + Delta(trade, market, recipient, id, a)
  {
    hide Exchange, CreditAt;
    var bought := ExchangeBooked(accounts, buyer, trade.buyer, market.quote, trade.quoteAmount + trade.quoteFee,
                                 market.base, trade.quantity);
    var sold := ExchangeBooked(bought, seller, trade.seller, market.base, trade.quantity, market.quote, trade.quoteAmount);
    CreditAtBooks(sold, feeIndex, market.quote, trade.quoteFee);
    var settled := CreditAt(sold, feeIndex, market.quote, trade.quoteFee).value;
    assert IndexMatches(feeIndex, sold, recipient);
    TradeAddsUp(accounts, bought, sold, settled, trade, market, recipient);
  }

  ghost predicate Exchanged(accounts: seq<Account>, r: seq<Account>, id: AccountId, given: AssetId, out: nat,
                            taken: AssetId, back: nat) {
    && ValidAccounts(r) && SameIds(accounts, r)
    && (forall k, a :: Holding(r, k, a) == Holding(accounts, k, a)
                         - (if k == id && a == given then out else 0) + (if k == id && a == taken then back else 0))
    && (forall k :: NextNonce(r, k) == NextNonce(accounts, k))
    && (forall a :: Total(r, a) == Total(accounts, a) - (if a == given then out else 0) + (if a == taken then back else 0))
  }

  lemma ExchangeBooked(accounts: seq<Account>, i: nat, id: AccountId, given: AssetId, out: nat, taken: AssetId, back: nat)
    returns (r: seq<Account>)
    requires ValidAccounts(accounts) && IndexMatches(i, accounts, id) && back <= U128_MAX
    requires Exchange(accounts, i, given, out, taken, back).Ok?
    ensures Exchange(accounts, i, given, out, taken, back) == Ok(r)
    ensures Exchanged(accounts, r, id, given, out, taken, back)
  {
    DebitAtBooks(accounts, i, given, out);
    var paid := DebitAt(accounts, i, given, out).value;
    CreditAtBooks(paid, i, taken, back);
    r := CreditAt(paid, i, taken, back).value;
  }

  /** The net effect of the bookings of a trade. */
  lemma TradeAddsUp(accounts: seq<Account>, bought: seq<Account>, sold: seq<Account>, settled: seq<Account>,
                    trade: Trade, market: MarketConfig, recipient: AccountId)
    requires Exchanged(accounts, bought, trade.buyer, market.quote, trade.quoteAmount + trade.quoteFee, market.base, trade.quantity)
    requires Exchanged(bought, sold, trade.seller, market.base, trade.quantity, market.quote, trade.quoteAmount)
    requires Booked(sold, settled, recipient, market.quote, trade.quoteFee)
    ensures Moves(accounts, settled)
    ensures forall id, a :: Holding(settled, id, a) == Holding(accounts, id, a) + Delta(trade, market, recipient, id, a)
  {
    assert SameIds(accounts, settled) by {
      assert forall i :: 0 <= i < |accounts| ==> settled[i].id == sold[i].id == bought[i].id;
    }
  }

  // ----- a whole market

  function SettleFills(accounts: seq<Account>, market: MarketConfig, scale: nat, fees: FeeConfig, feeIndex: nat,
                       buys: seq<Order>, sells: seq<Order>, fills: seq<Fill>): (r: Result<(seq<Account>, seq<Trade>)>)
    requires scale > 0 && feeIndex < |accounts|
    requires forall i :: 0 <= i < |buys| ==> buys[i].index < |accounts|
    requires forall i :: 0 <= i < |sells| ==> sells[i].index < |accounts|
    requires forall k :: 0 <= k < |fills| ==> fills[k].buy < |buys| && fills[k].sell < |sells|
    ensures r.Ok? ==> SameIds(accounts, r.value.0)
    decreases |fills|
  {
    if fills == [] then
      Ok((accounts, []))
    else
      var fill := fills[0];
      var first :- SettleTrade(accounts, market, scale, fees, feeIndex, buys[fill.buy], sells[fill.sell], fill.quantity, fill.price);
      var rest :- SettleFills(first.0, market, scale, fees, feeIndex, buys, sells, fills[1..]);
      Ok((rest.0, [first.1] + rest.1))
  }

  lemma {:induction false} SweepInBounds(buys: seq<Order>, sells: seq<Order>, c: Cursor)
    ensures forall k :: 0 <= k < |Sweep(buys, sells, c)| ==>
              Sweep(buys, sells, c)[k].buy < |buys| && Sweep(buys, sells, c)[k].sell < |sells|
    decreases |buys| - c.buy + |sells| - c.sell
  {
    if Crossing(buys, sells, c) {
      SweepInBounds(buys, sells, Advance(buys, sells, c));
    }
  }

  function MatchMarket(accounts: seq<Account>, book: ValidatedBook, fees: FeeConfig, feeIndex: nat)
    : (r: Result<(seq<Account>, seq<Trade>)>)
    requires book.baseAsset.scale > 0 && feeIndex < |accounts|
    requires forall i :: 0 <= i < |book.buys| ==> book.buys[i].index < |accounts|
    requires forall i :: 0 <= i < |book.sells| ==> book.sells[i].index < |accounts|
    ensures r.Ok? ==> SameIds(accounts, r.value.0)
  {
    SweepInBounds(book.buys, book.sells, START);
    SettleFills(accounts, book.market, book.baseAsset.scale, fees, feeIndex, book.buys, book.sells,
                Fills(book.buys, book.sells))
  }

  /** Net change of a list of trades of one market. */
  function NetOf(trades: seq<Trade>, market: MarketConfig, recipient: AccountId, id: AccountId, asset: AssetId): int {
    if trades == [] then 0
    else Delta(trades[0], market, recipient, id, asset) + NetOf(trades[1..], market, recipient, id, asset)
  }

  ghost predicate OrdersAt(accounts: seq<Account>, orders: seq<Order>) {
    forall i :: 0 <= i < |orders| ==> IndexMatches(orders[i].index, accounts, orders[i].trader)
  }

  ghost predicate QuantitiesFit(orders: seq<Order>) {
    forall i :: 0 <= i < |orders| ==> orders[i].quantity <= U128_MAX
  }

  /** One trade per fill, recorded as the fill says. */
  lemma {:induction false} FillsRecorded(accounts: seq<Account>, market: MarketConfig, scale: nat, fees: FeeConfig, feeIndex: nat,
                                         buys: seq<Order>, sells: seq<Order>, fills: seq<Fill>)
    requires scale > 0 && feeIndex < |accounts|
    requires forall i :: 0 <= i < |buys| ==> buys[i].index < |accounts|
    requires forall i :: 0 <= i < |sells| ==> sells[i].index < |accounts|
    requires forall k :: 0 <= k < |fills| ==> fills[k].buy < |buys| && fills[k].sell < |sells|
    requires SettleFills(accounts, market, scale, fees, feeIndex, buys, sells, fills).Ok?
    ensures var trades := SettleFills(accounts, market, scale, fees, feeIndex, buys, sells, fills).value.1;
            && |trades| == |fills|
            && (forall k :: 0 <= k < |fills| ==>
                  trades[k] == TradeOf(market, scale, fees.buyerFeeBps, buys[fills[k].buy], sells[fills[k].sell],
                                       fills[k].quantity, fills[k].price))
    decreases |fills|
  {
    hide BookTrade, CheckTrade, QuoteAmount, QuoteFee;
    if fills != [] {
      var fill := fills[0];
      var next := SettleTrade(accounts, market, scale, fees, feeIndex, buys[fill.buy], sells[fill.sell], fill.quantity, fill.price).value.0;
      FillsRecorded(next, market, scale, fees, feeIndex, buys, sells, fills[1..]);
      var rest := SettleFills(next, market, scale, fees, feeIndex, buys, sells, fills[1..]).value.1;
      var trades := SettleFills(accounts, market, scale, fees, feeIndex, buys, sells, fills).value.1;
      assert forall k :: 0 < k < |fills| ==> fills[k] == fills[1..][k - 1] && trades[k] == rest[k - 1];
    }
  }

  lemma {:induction false} FillsConserve(accounts: seq<Account>, market: MarketConfig, scale: nat, fees: FeeConfig, feeIndex: nat,
                                         buys: seq<Order>, sells: seq<Order>, fills: seq<Fill>)
    requires scale > 0 && ValidAccounts(accounts)
    requires OrdersAt(accounts, buys) && OrdersAt(accounts, sells) && IndexMatches(feeIndex, accounts, fees.recipient)
    requires forall k :: 0 <= k < |fills| ==> fills[k].buy < |buys| && fills[k].sell < |sells| && fills[k].quantity <= U128_MAX
    requires SettleFills(accounts, market, scale, fees, feeIndex, buys, sells, fills).Ok?
    ensures var (r, trades) := SettleFills(accounts, market, scale, fees, feeIndex, buys, sells, fills).value;
            && Moves(accounts, r)
            && (forall id, a :: Holding(r, id, a) == Holding(accounts, id, a) + NetOf(trades, market, fees.recipient, id, a))
    decreases |fills|
  {
    hide SettleTrade, TradeOf, Delta;
    if fills != [] {
      var fill := fills[0];
      TradeConserves(accounts, market, scale, fees, feeIndex, buys[fill.buy], sells[fill.sell], fill.quantity, fill.price);
      var next := SettleTrade(accounts, market, scale, fees, feeIndex, buys[fill.buy], sells[fill.sell], fill.quantity, fill.price).value.0;
      FillsConserve(next, market, scale, fees, feeIndex, buys, sells, fills[1..]);
      var rest := SettleFills(next, market, scale, fees, feeIndex, buys, sells, fills[1..]).value;
      var r := SettleFills(accounts, market, scale, fees, feeIndex, buys, sells, fills).value;
      assert r.1[1..] == rest.1;
      assert SameIds(accounts, r.0);
    }
  }

  /** Fills never exceed the quantities of the orders they come from. */
  lemma {:induction false} SweepFits(buys: seq<Order>, sells: seq<Order>, c: Cursor)
    requires QuantitiesFit(buys) && c.buyLeft <= U128_MAX
    ensures forall k :: 0 <= k < |Sweep(buys, sells, c)| ==> Sweep(buys, sells, c)[k].quantity <= U128_MAX
    decreases |buys| - c.buy + |sells| - c.sell
  {
    if Crossing(buys, sells, c) {
      SweepFits(buys, sells, Advance(buys, sells, c));
    }
  }

  /** A matched market: one trade per fill of the sweep, everything conserved. */
  lemma MarketConserves(accounts: seq<Account>, book: ValidatedBook, fees: FeeConfig, feeIndex: nat)
    requires book.baseAsset.scale > 0 && ValidAccounts(accounts)
    requires OrdersAt(accounts, book.buys) && OrdersAt(accounts, book.sells) && QuantitiesFit(book.buys)
    requires IndexMatches(feeIndex, accounts, fees.recipient)
    requires MatchMarket(accounts, book, fees, feeIndex).Ok?
    ensures var (r, trades) := MatchMarket(accounts, book, fees, feeIndex).value;
            var fills := Fills(book.buys, book.sells);
            && Moves(accounts, r)
            && (forall id, a :: Holding(r, id, a) == Holding(accounts, id, a) + NetOf(trades, book.market, fees.recipient, id, a))
            && |trades| == |fills|
            && (forall k :: 0 <= k < |fills| ==> fills[k].buy < |book.buys| && fills[k].sell < |book.sells|)
            && (forall k :: 0 <= k < |fills| ==>
                  trades[k] == TradeOf(book.market, book.baseAsset.scale, fees.buyerFeeBps,
                                       book.buys[fills[k].buy], book.sells[fills[k].sell], fills[k].quantity, fills[k].price))
  {
    SweepInBounds(book.buys, book.sells, START);
    SweepFits(book.buys, book.sells, START);
    FillsConserve(accounts, book.market, book.baseAsset.scale, fees, feeIndex, book.buys, book.sells,
                  Fills(book.buys, book.sells));
    FillsRecorded(accounts, book.market, book.baseAsset.scale, fees, feeIndex, book.buys, book.sells,
                  Fills(book.buys, book.sells));
  }

  // ----- all markets

  ghost predicate BooksBound(books: seq<ValidatedBook>, size: nat) {
    forall k :: 0 <= k < |books| ==>
      && books[k].baseAsset.scale > 0
      && (forall i :: 0 <= i < |books[k].buys| ==> books[k].buys[i].index < size)
      && (forall i :: 0 <= i < |books[k].sells| ==> books[k].sells[i].index < size)
  }

  function MatchBooks(accounts: seq<Account>, books: seq<ValidatedBook>, fees: FeeConfig, feeIndex: nat)
    : (r: Result<(seq<Account>, seq<Trade>)>)
    requires BooksBound(books, |accounts|) && feeIndex < |accounts|
    ensures r.Ok? ==> SameIds(accounts, r.value.0)
    decreases |books|
  {
    if books == [] then
      Ok((accounts, []))
    else
      var first :- MatchMarket(accounts, books[0], fees, feeIndex);
      var rest :- MatchBooks(first.0, books[1..], fees, feeIndex);
      Ok((rest.0, first.1 + rest.1))
  }

  function MatchAndSettle(accounts: seq<Account>, books: seq<ValidatedBook>, config: ExchangeConfig)
    : (r: Result<(seq<Account>, seq<Trade>)>)
    requires BooksBound(books, |accounts|)
    ensures r.Ok? ==> SameIds(accounts, r.value.0)
  {
    match SearchId(accounts, config.fees.recipient)
    case Missing(_) => Err(MissingFeeRecipient)
    case Found(feeIndex) => MatchBooks(accounts, books, config.fees, feeIndex)
  }

  ghost predicate BooksReady(accounts: seq<Account>, books: seq<ValidatedBook>) {
    forall k :: 0 <= k < |books| ==>
      && books[k].baseAsset.scale > 0
      && OrdersAt(accounts, books[k].buys) && OrdersAt(accounts, books[k].sells)
      && QuantitiesFit(books[k].buys) && QuantitiesFit(books[k].sells)
  }

  /** Net change of the trades of a whole batch, each in its own market. */
  function BatchNet(trades: seq<Trade>, config: ExchangeConfig, id: AccountId, asset: AssetId): int {
    if trades == [] then 0
    else
      var market := FindMarket(config.markets, trades[0].market);
      (if market.Some? then Delta(trades[0], market.value, config.fees.recipient, id, asset) else 0)
      + BatchNet(trades[1..], config, id, asset)
  }

  /** Every book is for a market as the configuration lists it. */
  ghost predicate BooksListed(books: seq<ValidatedBook>, config: ExchangeConfig) {
    forall k :: 0 <= k < |books| ==> FindMarket(config.markets, books[k].market.id) == Some(books[k].market)
  }

  lemma {:induction false} NetOfMarket(trades: seq<Trade>, market: MarketConfig, config: ExchangeConfig, id: AccountId, asset: AssetId)
    requires FindMarket(config.markets, market.id) == Some(market)
    requires forall k :: 0 <= k < |trades| ==> trades[k].market == market.id
    ensures NetOf(trades, market, config.fees.recipient, id, asset) == BatchNet(trades, config, id, asset)
  {
    hide Delta;
    if trades != [] {
      NetOfMarket(trades[1..], market, config, id, asset);
    }
  }

  lemma {:induction false} BatchNetAppend(a: seq<Trade>, b: seq<Trade>, config: ExchangeConfig, id: AccountId, asset: AssetId)
    ensures BatchNet(a + b, config, id, asset) == BatchNet(a, config, id, asset) + BatchNet(b, config, id, asset)
  {
    hide Delta;
    if a == [] {
      assert a + b == b;
    } else {
      BatchNetAppend(a[1..], b, config, id, asset);
      assert (a + b)[0] == a[0] && (a + b)[1..] == a[1..] + b;
    }
  }

  lemma MarketNet(accounts: seq<Account>, book: ValidatedBook, config: ExchangeConfig, feeIndex: nat)
    requires book.baseAsset.scale > 0 && ValidAccounts(accounts)
    requires OrdersAt(accounts, book.buys) && OrdersAt(accounts, book.sells) && QuantitiesFit(book.buys)
    requires IndexMatches(feeIndex, accounts, config.fees.recipient)
    requires FindMarket(config.markets, book.market.id) == Some(book.market)
    requires MatchMarket(accounts, book, config.fees, feeIndex).Ok?
    ensures var (r, trades) := MatchMarket(accounts, book, config.fees, feeIndex).value;
            && Moves(accounts, r)
            && forall id, a :: Holding(r, id, a) == Holding(accounts, id, a) + BatchNet(trades, config, id, a)
  {
    hide MatchMarket, Delta, TradeOf;
    MarketConserves(accounts, book, config.fees, feeIndex);
    var (r, trades) := MatchMarket(accounts, book, config.fees, feeIndex).value;
    TradesOfMarket(book, config.fees.buyerFeeBps, trades);
    forall id, a ensures Holding(r, id, a) == Holding(accounts, id, a) + BatchNet(trades, config, id, a) {
      NetOfMarket(trades, book.market, config, id, a);
    }
  }

  lemma TradesOfMarket(book: ValidatedBook, bps: nat, trades: seq<Trade>)
    requires book.baseAsset.scale > 0
    requires var fills := Fills(book.buys, book.sells);
             && |trades| == |fills|
             && (forall k :: 0 <= k < |fills| ==> fills[k].buy < |book.buys| && fills[k].sell < |book.sells|)
             && (forall k :: 0 <= k < |fills| ==>
                   trades[k] == TradeOf(book.market, book.baseAsset.scale, bps, book.buys[fills[k].buy],
                                        book.sells[fills[k].sell], fills[k].quantity, fills[k].price))
    ensures forall k :: 0 <= k < |trades| ==> trades[k].market == book.market.id
  {
  }

  /** All markets together change each account by exactly its own trades. */
  lemma {:induction false} BooksConserve(accounts: seq<Account>, books: seq<ValidatedBook>, config: ExchangeConfig, feeIndex: nat)
    requires ValidAccounts(accounts) && BooksReady(accounts, books) && BooksListed(books, config)
    requires IndexMatches(feeIndex, accounts, config.fees.recipient)
    requires BooksBound(books, |accounts|)
    requires MatchBooks(accounts, books, config.fees, feeIndex).Ok?
    ensures var (r, trades) := MatchBooks(accounts, books, config.fees, feeIndex).value;
            && Moves(accounts, r)
            && forall id, a :: Holding(r, id, a) == Holding(accounts, id, a) + BatchNet(trades, config, id, a)
    decreases |books|
  {
    hide MatchMarket, Delta;
    if books != [] {
      MarketNet(accounts, books[0], config, feeIndex);
      var (next, trades) := MatchMarket(accounts, books[0], config.fees, feeIndex).value;
      BooksStay(accounts, next, books);
      BooksConserve(next, books[1..], config, feeIndex);
      var (r, more) := MatchBooks(next, books[1..], config.fees, feeIndex).value;
      forall id, a ensures Holding(r, id, a) == Holding(accounts, id, a) + BatchNet(trades + more, config, id, a) {
        BatchNetAppend(trades, more, config, id, a);
      }
    }
  }

  lemma BooksStay(accounts: seq<Account>, next: seq<Account>, books: seq<ValidatedBook>)
    requires books != [] && BooksReady(accounts, books) && SameIds(accounts, next)
    ensures BooksReady(next, books[1..])
  {
    forall k | 0 <= k < |books[1..]| ensures
      && books[1..][k].baseAsset.scale > 0
      && OrdersAt(next, books[1..][k].buys) && OrdersAt(next, books[1..][k].sells)
      && QuantitiesFit(books[1..][k].buys) && QuantitiesFit(books[1..][k].sells)
    {
      assert books[1..][k] == books[k + 1];
    }
  }

  // ----- rounding

  function Paid(fills: seq<Fill>, scale: nat): nat
    requires scale > 0
  {
    if fills == [] then 0 else QuoteAmount(fills[0].quantity, fills[0].price, scale) + Paid(fills[1..], scale)
  }

  function FeesPaid(fills: seq<Fill>, scale: nat, bps: nat): nat
    requires scale > 0
  {
    if fills == [] then 0
    else QuoteFee(QuoteAmount(fills[0].quantity, fills[0].price, scale), bps) + FeesPaid(fills[1..], scale, bps)
  }

  lemma DivideBounds(n: nat, d: nat)
    requires d > 0
    ensures n / d * d <= n < (n / d + 1) * d
  {
  }

  lemma AtMostQuotient(q: nat, n: nat, d: nat)
    requires d > 0 && q * d <= n
    ensures q <= n / d
  {
    DivideBounds(n, d);
    if q > n / d {
      ProductGrows(n / d + 1, q, d);
      assert false;
    }
  }

  lemma ProductGrows(x: nat, y: nat, d: nat)
    requires x <= y
    ensures x * d <= y * d
  {
  }

  lemma Distribute(x: nat, y: nat, d: nat)
    ensures (x + y) * d == x * d + y * d
  {
  }

  /** One fill more never pays more than its limit. */
  lemma PaidStep(quote: nat, q: nat, price: nat, limit: nat, scale: nat, volume: nat, paid: nat)
    requires quote * scale <= q * price && price <= limit && paid * scale <= limit * volume
    ensures (quote + paid) * scale <= limit * (q + volume)
  {
    ProductGrows(price, limit, q);
    Distribute(quote, paid, scale);
    Distribute(q, volume, limit);
  }

  lemma {:induction false} PaidAtMost(fills: seq<Fill>, limit: nat, scale: nat)
    requires scale > 0
    requires forall k :: 0 <= k < |fills| ==> fills[k].price <= limit
    ensures Paid(fills, scale) * scale <= limit * Volume(fills)
  {
    hide QuoteAmount;
    if fills != [] {
      PaidAtMost(fills[1..], limit, scale);
      var q, price := fills[0].quantity, fills[0].price;
      QuoteRounds(q, price, scale);
      PaidStep(QuoteAmount(q, price, scale), q, price, limit, scale, Volume(fills[1..]), Paid(fills[1..], scale));
    }
  }

  lemma FeeStep(quote: nat, bps: nat, fees: nat, paid: nat)
    requires fees * BPS_DENOMINATOR <= paid * bps
    ensures (quote * bps / BPS_DENOMINATOR + fees) * BPS_DENOMINATOR <= (quote + paid) * bps
  {
    DivideBounds(quote * bps, BPS_DENOMINATOR);
    Distribute(quote, paid, bps);
  }

  lemma {:induction false} FeesAtMost(fills: seq<Fill>, scale: nat, bps: nat)
    requires scale > 0
    ensures FeesPaid(fills, scale, bps) * BPS_DENOMINATOR <= Paid(fills, scale) * bps
  {
    if fills != [] {
      FeesAtMost(fills[1..], scale, bps);
      FeeStep(QuoteAmount(fills[0].quantity, fills[0].price, scale), bps, FeesPaid(fills[1..], scale, bps), Paid(fills[1..], scale));
    }
  }

  /** One fill more: what it delivers and what it pays. */
  lemma DustStep(q: nat, price: nat, limit: nat, scale: nat, volume: nat, paid: nat, count: nat)
    requires scale > 0 && limit <= price
    requires limit * volume <= (paid + count) * scale
    ensures limit * (q + volume) < (q * price / scale + paid + count + 1) * scale
  {
    DivideBounds(q * price, scale);
    ProductGrows(limit, price, q);
    Distribute(q, volume, limit);
    Distribute(q * price / scale + 1, paid + count, scale);
  }

  lemma {:induction false} ReceivedMoreThan(fills: seq<Fill>, limit: nat, scale: nat)
    requires scale > 0
    requires forall k :: 0 <= k < |fills| ==> limit <= fills[k].price
    ensures limit * Volume(fills) <= (Paid(fills, scale) + |fills|) * scale
    ensures fills != [] ==> limit * Volume(fills) < (Paid(fills, scale) + |fills|) * scale
  {
    if fills != [] {
      ReceivedMoreThan(fills[1..], limit, scale);
      DustStep(fills[0].quantity, fills[0].price, limit, scale, Volume(fills[1..]), Paid(fills[1..], scale), |fills| - 1);
    }
  }

  /** The fills of one buy, and of one sell. */
  function OfBuy(fills: seq<Fill>, i: nat): seq<Fill> {
    if fills == [] then [] else (if fills[0].buy == i then [fills[0]] else []) + OfBuy(fills[1..], i)
  }

  function OfSell(fills: seq<Fill>, j: nat): seq<Fill> {
    if fills == [] then [] else (if fills[0].sell == j then [fills[0]] else []) + OfSell(fills[1..], j)
  }

  lemma {:induction false} OfOrder(fills: seq<Fill>, i: nat)
    ensures Volume(OfBuy(fills, i)) == BuyFilled(fills, i)
    ensures Volume(OfSell(fills, i)) == SellFilled(fills, i)
    ensures forall f :: f in OfBuy(fills, i) <==> f in fills && f.buy == i
    ensures forall f :: f in OfSell(fills, i) <==> f in fills && f.sell == i
  {
    if fills != [] {
      OfOrder(fills[1..], i);
      if fills[0].buy == i { assert ([fills[0]] + OfBuy(fills[1..], i))[1..] == OfBuy(fills[1..], i); }
      else { assert OfBuy(fills, i) == OfBuy(fills[1..], i); }
      if fills[0].sell == i { assert ([fills[0]] + OfSell(fills[1..], i))[1..] == OfSell(fills[1..], i); }
      else { assert OfSell(fills, i) == OfSell(fills[1..], i); }
    }
  }

  /** THEOREM. However a buy is split into fills, it pays at most its limit for
      what it got, rounded down, and at most the fee on that total. */
  lemma BuyerNeverOverpays(buys: seq<Order>, sells: seq<Order>, i: nat, scale: nat, bps: nat)
    requires Sorted(buys, Buy) && Sorted(sells, Sell) && i < |buys| && scale > 0
    ensures var fills := Fills(buys, sells);
            && Paid(OfBuy(fills, i), scale) <= buys[i].price * BuyFilled(fills, i) / scale
            && FeesPaid(OfBuy(fills, i), scale, bps) <= Paid(OfBuy(fills, i), scale) * bps / BPS_DENOMINATOR
  {
    var fills := Fills(buys, sells);
    var mine := OfBuy(fills, i);
    FillsAreFair(buys, sells);
    OfOrder(fills, i);
    forall k | 0 <= k < |mine| ensures mine[k].price <= buys[i].price {
      assert mine[k] in fills;
      var l :| 0 <= l < |fills| && fills[l] == mine[k];
    }
    PaidAtMost(mine, buys[i].price, scale);
    AtMostQuotient(Paid(mine, scale), buys[i].price * BuyFilled(fills, i), scale);
    FeesAtMost(mine, scale, bps);
    AtMostQuotient(FeesPaid(mine, scale, bps), Paid(mine, scale) * bps, BPS_DENOMINATOR);
  }

  /** THEOREM. A sell receives more than its limit for what it delivered, less
      one smallest unit for each of its fills. */
  lemma SellerLosesOnlyDust(buys: seq<Order>, sells: seq<Order>, j: nat, scale: nat)
    requires Sorted(buys, Buy) && Sorted(sells, Sell) && j < |sells| && scale > 0
    requires SellFilled(Fills(buys, sells), j) > 0
    ensures var mine := OfSell(Fills(buys, sells), j);
            sells[j].price * SellFilled(Fills(buys, sells), j) < (Paid(mine, scale) + |mine|) * scale
  {
    var fills := Fills(buys, sells);
    var mine := OfSell(fills, j);
    FillsAreFair(buys, sells);
    OfOrder(fills, j);
    forall k | 0 <= k < |mine| ensures sells[j].price <= mine[k].price {
      assert mine[k] in fills;
      var l :| 0 <= l < |fills| && fills[l] == mine[k];
    }
    ReceivedMoreThan(mine, sells[j].price, scale);
  }
}
