/** The guest as it runs: the account vector and the tracker are mutated stage
    by stage, and the whole computes the specified outcome. */
module Engine {
  import opened Keys
  import opened Results
  import opened Types
  import opened Ledger
  import Operations
  import Validation
  import Nonces
  import Books
  import Matching
  import Trades
  import Tracker
  import Patricia
  import opened Settlement
  import SettlementTheorems
  import Checks

  /** A step reports its specified error, or leaves its specified value. */
  ghost predicate Follows<T>(c: Check, specified: Result<T>, actual: T) {
    match specified
    case Ok(value) => c.Pass? && actual == value
    case Err(error) => c == Fail(error)
  }

  // ----- settlement/assets.rs

  class AssetTracker {
    var totals: Tracker.Totals

    constructor ()
      ensures totals == map[]
    {
      totals := map[];
    }

    method Add(asset: AssetId, amount: nat) returns (c: Check)
      modifies this
      ensures Follows(c, Tracker.Add(old(totals), asset, amount), totals)
    {
      if asset !in totals {
        totals := totals[asset := 0];
      }
      if totals[asset] + amount > U128_MAX {
        return Fail(ArithmeticOverflow);
      }
      totals := totals[asset := totals[asset] + amount];
      assert totals == old(totals)[asset := (if asset in old(totals) then old(totals)[asset] else 0) + amount];
      c := Pass;
    }

    method Subtract(asset: AssetId, amount: nat) returns (c: Check)
      modifies this
      ensures Follows(c, Tracker.Subtract(old(totals), asset, amount), totals)
    {
      if amount == 0 {
        return Pass;
      }
      if asset !in totals || totals[asset] < amount {
        return Fail(AssetConservationViolation);
      }
      totals := totals[asset := totals[asset] - amount];
      if totals[asset] == 0 {
        totals := totals - {asset};
        assert totals == old(totals) - {asset};
      }
      c := Pass;
    }

    method AddAccounts(accounts: seq<Account>) returns (c: Check)
      modifies this
      ensures Follows(c, Tracker.AddAccounts(old(totals), accounts), totals)
    {
      for i := 0 to |accounts|
        invariant Tracker.AddAccounts(old(totals), accounts) == Tracker.AddAccounts(totals, accounts[i..])
      {
        assert accounts[i..][1..] == accounts[i + 1..];
        var balances := accounts[i].balances;
        ghost var start := totals;
        for j := 0 to |balances|
          invariant Tracker.AddEntries(start, balances) == Tracker.AddEntries(totals, balances[j..])
        {
          assert balances[j..][1..] == balances[j + 1..];
          c := Add(balances[j].asset, balances[j].available);
          if c.Fail? {
            return;
          }
        }
      }
      c := Pass;
    }

    method AddDeposits(deposits: seq<Deposit>) returns (c: Check)
      modifies this
      ensures Follows(c, Tracker.AddDeposits(old(totals), deposits), totals)
    {
      for i := 0 to |deposits|
        invariant Tracker.AddDeposits(old(totals), deposits) == Tracker.AddDeposits(totals, deposits[i..])
      {
        assert deposits[i..][1..] == deposits[i + 1..];
        c := Add(deposits[i].asset, deposits[i].amount);
        if c.Fail? {
          return;
        }
      }
      c := Pass;
    }

    method SubtractWithdrawals(withdrawals: seq<Withdrawal>) returns (c: Check)
      modifies this
      ensures Follows(c, Tracker.SubtractWithdrawals(old(totals), withdrawals), totals)
    {
      for i := 0 to |withdrawals|
        invariant Tracker.SubtractWithdrawals(old(totals), withdrawals) == Tracker.SubtractWithdrawals(totals, withdrawals[i..])
      {
        assert withdrawals[i..][1..] == withdrawals[i + 1..];
        c := Subtract(withdrawals[i].asset, withdrawals[i].amount);
        if c.Fail? {
          return;
        }
      }
      c := Pass;
    }

    method SubtractForced(requests: seq<ForcedWithdrawal>) returns (c: Check)
      modifies this
      ensures Follows(c, Tracker.SubtractForced(old(totals), requests), totals)
    {
      for i := 0 to |requests|
        invariant Tracker.SubtractForced(old(totals), requests) == Tracker.SubtractForced(totals, requests[i..])
      {
        assert requests[i..][1..] == requests[i + 1..];
        c := Subtract(requests[i].asset, requests[i].amount);
        if c.Fail? {
          return;
        }
      }
      c := Pass;
    }

    method SubtractAccounts(accounts: seq<Account>) returns (c: Check)
      modifies this
      ensures Follows(c, Tracker.SubtractAccounts(old(totals), accounts), totals)
    {
      for i := 0 to |accounts|
        invariant Tracker.SubtractAccounts(old(totals), accounts) == Tracker.SubtractAccounts(totals, accounts[i..])
      {
        assert accounts[i..][1..] == accounts[i + 1..];
        var balances := accounts[i].balances;
        ghost var start := totals;
        for j := 0 to |balances|
          invariant Tracker.SubtractEntries(start, balances) == Tracker.SubtractEntries(totals, balances[j..])
        {
          assert balances[j..][1..] == balances[j + 1..];
          c := Subtract(balances[j].asset, balances[j].available);
          if c.Fail? {
            return;
          }
        }
      }
      c := Pass;
    }
  }

  // ----- the account vector

  class AccountTable {
    var accounts: seq<Account>

    constructor (initial: seq<Account>)
      ensures accounts == initial
    {
      accounts := initial;
    }

    /** Takes an amount off a balance; an emptied balance leaves the vector. */
    method Debit(i: nat, asset: AssetId, amount: nat) returns (c: Check)
      requires i < |accounts|
      modifies this
      ensures Follows(c, Operations.DebitAt(old(accounts), i, asset, amount), accounts)
    {
      var balances := accounts[i].balances;
      var p := AssetPosition(balances, asset);
      if p == |balances| || balances[p].asset != asset || balances[p].available < amount {
        return Fail(InsufficientBalance);
      }
      var left := balances[p].available - amount;
      if left == 0 {
        balances := balances[..p] + balances[p + 1..];
      } else {
        balances := balances[p := AssetBalance(asset, left)];
      }
      accounts := accounts[i := accounts[i].(balances := balances)];
      c := Pass;
    }

    /** Adds an amount to a balance, inserting it in order when it is new. */
    method Credit(i: nat, asset: AssetId, amount: nat) returns (c: Check)
      requires i < |accounts|
      modifies this
      ensures Follows(c, Operations.CreditAt(old(accounts), i, asset, amount), accounts)
      ensures c.Pass? ==> |accounts| == |old(accounts)|
    {
      if amount == 0 {
        assert accounts == accounts[i := accounts[i]];
        return Pass;
      }
      var balances := accounts[i].balances;
      var p := AssetPosition(balances, asset);
      if p < |balances| && balances[p].asset == asset {
        if balances[p].available + amount > U128_MAX {
          return Fail(ArithmeticOverflow);
        }
        balances := balances[p := AssetBalance(asset, balances[p].available + amount)];
      } else {
        balances := balances[..p] + [AssetBalance(asset, amount)] + balances[p..];
      }
      accounts := accounts[i := accounts[i].(balances := balances)];
      c := Pass;
    }

    method ApplyDeposits(deposits: seq<Deposit>) returns (c: Check)
      modifies this
      ensures Follows(c, Operations.ApplyDeposits(old(accounts), deposits), accounts)
    {
      for k := 0 to |deposits|
        invariant Operations.ApplyDeposits(old(accounts), deposits) == Operations.ApplyDeposits(accounts, deposits[k..])
      {
        assert deposits[k..][1..] == deposits[k + 1..];
        c := ApplyDeposit(deposits[k]);
        if c.Fail? {
          return;
        }
      }
      c := Pass;
    }

    /** Inserts the account first when it is missing, then credits it. */
    method ApplyDeposit(deposit: Deposit) returns (c: Check)
      modifies this
      ensures Follows(c, Operations.ApplyDeposit(old(accounts), deposit), accounts)
    {
      var index;
      match Operations.LocateDeposit(accounts, deposit) {
        case Found(i) => index := i;
        case Missing(i) =>
          if |accounts| >= Operations.MAX_TOUCHED_ACCOUNTS_PER_BATCH {
            return Fail(TooManyAccounts);
          }
          accounts := accounts[..i] + [Account(deposit.account, [], 0)] + accounts[i..];
          index := i;
      }
      ghost var inserted := accounts;
      c := Credit(index, deposit.asset, deposit.amount);
      InsertThenCredit(old(accounts), inserted, index, deposit);
    }

    /** Drains each request and overwrites its amount with what was drained. */
    method ApplyForced(requests: array<ForcedWithdrawal>) returns (c: Check)
      modifies this, requests
      ensures match Operations.ApplyForced(old(accounts), old(requests[..]))
              case Ok(p) => c.Pass? && accounts == p.0 && requests[..] == p.1
              case Err(e) => c == Fail(e)
    {
      ghost var before := requests[..];
      assert before[0..] == before;
      AnsweredNone(Operations.ApplyForced(accounts, before));
      for k := 0 to requests.Length
        invariant requests[k..] == before[k..]
        invariant Operations.ApplyForced(old(accounts), before) ==
                  Answered(requests[..k], Operations.ApplyForced(accounts, before[k..]))
      {
        var request := requests[k];
        assert before[k..][0] == request && before[k..][1..] == before[k + 1..];
        ghost var start := accounts;
        var drained := 0;
        if request.index.Some? && request.index.value < |accounts| && accounts[request.index.value].id == request.account {
          var available := Balance(accounts[request.index.value].balances, request.asset);
          drained := if request.amount < available then request.amount else available;
          if drained > 0 {
            c := Debit(request.index.value, request.asset, drained);
            if c.Fail? {
              return;
            }
          }
        }
        requests[k] := request.(amount := drained);
        AnsweredStep(requests[..k], requests[k], Operations.ApplyForced(accounts, before[k + 1..]));
        assert requests[..k + 1] == requests[..k] + [requests[k]];
      }
      c := Pass;
    }

    method ApplyWithdrawals(withdrawals: seq<Withdrawal>) returns (c: Check)
      requires forall i :: 0 <= i < |withdrawals| ==> withdrawals[i].index < |accounts|
      modifies this
      ensures Follows(c, Operations.ApplyWithdrawals(old(accounts), withdrawals), accounts)
    {
      for k := 0 to |withdrawals|
        invariant |accounts| == |old(accounts)|
        invariant Operations.ApplyWithdrawals(old(accounts), withdrawals) == Operations.ApplyWithdrawals(accounts, withdrawals[k..])
      {
        assert withdrawals[k..][1..] == withdrawals[k + 1..];
        c := Debit(withdrawals[k].index, withdrawals[k].asset, withdrawals[k].amount);
        if c.Fail? {
          return;
        }
      }
      c := Pass;
    }

    /** Counts the operations of every account, then moves its next nonce. */
    method ConsumeNonces(orders: seq<Order>, withdrawals: seq<Withdrawal>) returns (c: Check)
      requires forall i :: 0 <= i < |orders| ==> orders[i].index < |accounts|
      requires forall i :: 0 <= i < |withdrawals| ==> withdrawals[i].index < |accounts|
      modifies this
      ensures Follows(c, Nonces.ConsumeNonces(old(accounts), orders, withdrawals), accounts)
    {
      var counts := CountOperations(orders, withdrawals, |accounts|);
      var uses := Nonces.Uses(orders, withdrawals);
      var before := accounts;
      for i := 0 to |before|
        invariant |accounts| == |before|
        invariant forall k :: 0 <= k < |before| ==>
          accounts[k] == if k < i then before[k].(nextNonce := before[k].nextNonce + counts[k]) else before[k]
        invariant forall k :: 0 <= k < i ==> before[k].nextNonce + counts[k] <= U64_MAX
      {
        if accounts[i].nextNonce + counts[i] > U64_MAX {
          assert before[i].nextNonce + Nonces.CountUses(uses, i) > U64_MAX;
          return Fail(NonceOverflow);
        }
        accounts := accounts[i := accounts[i].(nextNonce := accounts[i].nextNonce + counts[i])];
      }
      assert accounts == Nonces.Advanced(before, uses);
      c := Pass;
    }

    // ----- settlement/matching.rs

    method SettleTrade(market: MarketConfig, scale: nat, fees: FeeConfig, feeIndex: nat, buy: Order, sell: Order,
                       quantity: nat, price: nat) returns (r: Result<Trade>)
      requires scale > 0
      requires buy.index < |accounts| && sell.index < |accounts| && feeIndex < |accounts|
      modifies this
      ensures match Trades.SettleTrade(old(accounts), market, scale, fees, feeIndex, buy, sell, quantity, price)
              case Ok(p) => r == Ok(p.1) && accounts == p.0
              case Err(e) => r == Err(e)
    {
      if buy.trader == sell.trader {
        return Err(SelfTrade);
      }
      if quantity * price > U128_MAX {
        return Err(ArithmeticOverflow);
      }
      var quote := Trades.QuoteAmount(quantity, price, scale);
      if quote == 0 {
        return Err(TradeValueRoundsToZero);
      }
      if quote * fees.buyerFeeBps > U128_MAX {
        return Err(ArithmeticOverflow);
      }
      var fee := Trades.QuoteFee(quote, fees.buyerFeeBps);
      if quote + fee > U128_MAX {
        return Err(ArithmeticOverflow);
      }
      var trade := Trade(market.id, buy.trader, sell.trader, price, quantity, quote, fee);
      var booked := BookTrade(market, buy.index, sell.index, feeIndex, trade);
      if booked.Fail? {
        return Err(booked.error);
      }
      r := Ok(trade);
    }

    /** The five bookings, in the source's order. */
    method BookTrade(market: MarketConfig, buyer: nat, seller: nat, feeIndex: nat, trade: Trade) returns (c: Check)
      requires buyer < |accounts| && seller < |accounts| && feeIndex < |accounts|
      modifies this
      ensures Follows(c, Trades.BookTrade(old(accounts), market, buyer, seller, feeIndex, trade), accounts)
    {
      hide Trades.Exchange, Operations.CreditAt, Operations.DebitAt;
      c := Exchange(buyer, market.quote, trade.quoteAmount + trade.quoteFee, market.base, trade.quantity);
      if c.Fail? {
        return;
      }
      c := Exchange(seller, market.base, trade.quantity, market.quote, trade.quoteAmount);
      if c.Fail? {
        return;
      }
      c := Credit(feeIndex, market.quote, trade.quoteFee);
    }

    method Exchange(i: nat, given: AssetId, out: nat, taken: AssetId, back: nat) returns (c: Check)
      requires i < |accounts|
      modifies this
      ensures Follows(c, Trades.Exchange(old(accounts), i, given, out, taken, back), accounts)
    {
      c := Debit(i, given, out);
      if c.Fail? {
        return;
      }
      c := Credit(i, taken, back);
    }

    /** The two-index sweep over both sides, settling each fill at once. */
    method MatchMarket(book: Validation.ValidatedBook, fees: FeeConfig, feeIndex: nat) returns (r: Result<seq<Trade>>)
      requires book.baseAsset.scale > 0 && feeIndex < |accounts|
      requires forall i :: 0 <= i < |book.buys| ==> book.buys[i].index < |accounts|
      requires forall i :: 0 <= i < |book.sells| ==> book.sells[i].index < |accounts|
      modifies this
      ensures match Trades.MatchMarket(old(accounts), book, fees, feeIndex)
              case Ok(p) => r == Ok(p.1) && accounts == p.0
              case Err(e) => r == Err(e)
    {
      hide Trades.SettleTrade, Trades.SettleFills, Matching.Sweep;
      var buys, sells, scale := book.buys, book.sells, book.baseAsset.scale;
      var trades: seq<Trade> := [];
      var buyIndex: nat, sellIndex: nat := 0, 0;
      var buyRemaining: nat, sellRemaining: nat := 0, 0;
      ghost var size := |accounts|;
      ghost var left := Matching.Fills(buys, sells);
      Trades.SweepInBounds(buys, sells, Matching.START);
      TradedNone(Trades.SettleFills(accounts, book.market, scale, fees, feeIndex, buys, sells, left));
      while buyIndex < |buys| && sellIndex < |sells|
        invariant |accounts| == size
        invariant left == Matching.Sweep(buys, sells, Matching.Cursor(buyIndex, sellIndex, buyRemaining, sellRemaining))
        invariant InBounds(buys, sells, left)
        invariant Trades.MatchMarket(old(accounts), book, fees, feeIndex) ==
                  Traded(trades, Trades.SettleFills(accounts, book.market, scale, fees, feeIndex, buys, sells, left))
        decreases |buys| - buyIndex + |sells| - sellIndex
      {
        ghost var at := Matching.Cursor(buyIndex, sellIndex, buyRemaining, sellRemaining);
        if buyRemaining == 0 {
          buyRemaining := buys[buyIndex].quantity;
        }
        if sellRemaining == 0 {
          sellRemaining := sells[sellIndex].quantity;
        }
        var buy, sell := buys[buyIndex], sells[sellIndex];
        if buy.price < sell.price {
          SweepDone(buys, sells, at);
          break;
        }
        var quantity := if buyRemaining < sellRemaining then buyRemaining else sellRemaining;
        var price := if buy.sequence < sell.sequence then buy.price else sell.price;
        SweepNext(buys, sells, at);
        FillNext(accounts, book, fees, feeIndex, left);
        left := left[1..];
        var trade := SettleTrade(book.market, scale, fees, feeIndex, buy, sell, quantity, price);
        if trade.Err? {
          return Err(trade.error);
        }
        TradedStep(trades, trade.value, Trades.SettleFills(accounts, book.market, scale, fees, feeIndex, buys, sells, left));
        trades := trades + [trade.value];
        buyRemaining := buyRemaining - quantity;
        sellRemaining := sellRemaining - quantity;
        if buyRemaining == 0 {
          buyIndex := buyIndex + 1;
        }
        if sellRemaining == 0 {
          sellIndex := sellIndex + 1;
        }
      }
      SweepDone(buys, sells, Matching.Cursor(buyIndex, sellIndex, buyRemaining, sellRemaining));
      assert left == [];
      NoFills(accounts, book, fees, feeIndex);
      assert trades + [] == trades;
      r := Ok(trades);
    }

    method MatchAndSettle(books: seq<Validation.ValidatedBook>, config: ExchangeConfig) returns (r: Result<seq<Trade>>)
      requires Trades.BooksBound(books, |accounts|)
      modifies this
      ensures match Trades.MatchAndSettle(old(accounts), books, config)
              case Ok(p) => r == Ok(p.1) && accounts == p.0
              case Err(e) => r == Err(e)
    {
      hide Trades.MatchMarket;
      var located := Operations.SearchId(accounts, config.fees.recipient);
      if located.Missing? {
        return Err(MissingFeeRecipient);
      }
      var feeIndex := located.index;
      var trades: seq<Trade> := [];
      ghost var size := |accounts|;
      assert books[0..] == books;
      TradedNone(Trades.MatchBooks(accounts, books, config.fees, feeIndex));
      for k := 0 to |books|
        invariant |accounts| == size
        invariant Trades.BooksBound(books[k..], |accounts|)
        invariant Trades.MatchBooks(old(accounts), books, config.fees, feeIndex) ==
                  Traded(trades, Trades.MatchBooks(accounts, books[k..], config.fees, feeIndex))
      {
        assert books[k..][0] == books[k] && books[k..][1..] == books[k + 1..];
        var market := MatchMarket(books[k], config.fees, feeIndex);
        if market.Err? {
          return Err(market.error);
        }
        TradedMore(trades, market.value, Trades.MatchBooks(accounts, books[k + 1..], config.fees, feeIndex));
        trades := trades + market.value;
      }
      assert trades + [] == trades;
      r := Ok(trades);
    }
  }

  ghost predicate InBounds(buys: seq<Order>, sells: seq<Order>, fills: seq<Matching.Fill>) {
    forall k :: 0 <= k < |fills| ==> fills[k].buy < |buys| && fills[k].sell < |sells|
  }

  ghost function Traded(done: seq<Trade>, rest: Result<(seq<Account>, seq<Trade>)>): Result<(seq<Account>, seq<Trade>)> {
    if rest.Err? then rest else Ok((rest.value.0, done + rest.value.1))
  }

  lemma TradedNone(rest: Result<(seq<Account>, seq<Trade>)>)
    ensures Traded([], rest) == rest
  {
    if rest.Ok? {
      assert [] + rest.value.1 == rest.value.1;
    }
  }

  lemma TradedStep(done: seq<Trade>, next: Trade, rest: Result<(seq<Account>, seq<Trade>)>)
    ensures Traded(done, Traded([next], rest)) == Traded(done + [next], rest)
  {
    TradedMore(done, [next], rest);
  }

  lemma TradedMore(done: seq<Trade>, more: seq<Trade>, rest: Result<(seq<Account>, seq<Trade>)>)
    ensures Traded(done, Traded(more, rest)) == Traded(done + more, rest)
  {
    if rest.Ok? {
      assert done + (more + rest.value.1) == (done + more) + rest.value.1;
    }
  }

  lemma SweepDone(buys: seq<Order>, sells: seq<Order>, at: Matching.Cursor)
    requires !Matching.Crossing(buys, sells, at)
    ensures Matching.Sweep(buys, sells, at) == []
  {
  }

  lemma SweepNext(buys: seq<Order>, sells: seq<Order>, at: Matching.Cursor)
    requires Matching.Crossing(buys, sells, at)
    ensures var fills := Matching.Sweep(buys, sells, at);
            && fills != [] && fills[0] == Matching.FillAt(buys, sells, at)
            && fills[1..] == Matching.Sweep(buys, sells, Matching.Advance(buys, sells, at))
            && InBounds(buys, sells, fills) && InBounds(buys, sells, fills[1..])
  {
    Trades.SweepInBounds(buys, sells, at);
  }

  /** Settling a list of fills, one at a time. */
  lemma FillNext(accounts: seq<Account>, book: Validation.ValidatedBook, fees: FeeConfig, feeIndex: nat, fills: seq<Matching.Fill>)
    requires book.baseAsset.scale > 0 && feeIndex < |accounts|
    requires forall i :: 0 <= i < |book.buys| ==> book.buys[i].index < |accounts|
    requires forall i :: 0 <= i < |book.sells| ==> book.sells[i].index < |accounts|
    requires fills != [] && InBounds(book.buys, book.sells, fills) && InBounds(book.buys, book.sells, fills[1..])
    ensures var market, scale := book.market, book.baseAsset.scale;
            var trade := Trades.SettleTrade(accounts, market, scale, fees, feeIndex, book.buys[fills[0].buy], book.sells[fills[0].sell],
                                            fills[0].quantity, fills[0].price);
            Trades.SettleFills(accounts, market, scale, fees, feeIndex, book.buys, book.sells, fills) ==
            if trade.Err? then Err(trade.error)
            else Traded([trade.value.1], Trades.SettleFills(trade.value.0, market, scale, fees, feeIndex, book.buys, book.sells, fills[1..]))
  {
    hide Trades.SettleTrade;
  }

  lemma NoFills(accounts: seq<Account>, book: Validation.ValidatedBook, fees: FeeConfig, feeIndex: nat)
    requires book.baseAsset.scale > 0 && feeIndex < |accounts|
    requires forall i :: 0 <= i < |book.buys| ==> book.buys[i].index < |accounts|
    requires forall i :: 0 <= i < |book.sells| ==> book.sells[i].index < |accounts|
    ensures Trades.SettleFills(accounts, book.market, book.baseAsset.scale, fees, feeIndex, book.buys, book.sells, []) == Ok((accounts, []))
  {
  }

  /** Inserting a fresh account and crediting it is the specified step. */
  lemma InsertThenCredit(before: seq<Account>, inserted: seq<Account>, index: nat, deposit: Deposit)
    requires match Operations.LocateDeposit(before, deposit)
             case Found(i) => index == i && inserted == before
             case Missing(i) => index == i && |before| < Operations.MAX_TOUCHED_ACCOUNTS_PER_BATCH
                                && inserted == before[..i] + [Account(deposit.account, [], 0)] + before[i..]
    ensures index < |inserted|
    ensures Operations.CreditAt(inserted, index, deposit.asset, deposit.amount) == Operations.ApplyDeposit(before, deposit)
  {
    match Operations.LocateDeposit(before, deposit)
    case Found(_) =>
    case Missing(i) =>
      var created := Ledger.Credit(Account(deposit.account, [], 0), deposit.asset, deposit.amount);
      assert inserted[i] == Account(deposit.account, [], 0);
      if created.Ok? {
        assert inserted[i := created.value] == before[..i] + [created.value] + before[i..];
      }
  }

  ghost function Answered(done: seq<ForcedWithdrawal>, rest: Result<(seq<Account>, seq<ForcedWithdrawal>)>)
    : Result<(seq<Account>, seq<ForcedWithdrawal>)>
  {
    if rest.Err? then rest else Ok((rest.value.0, done + rest.value.1))
  }

  lemma AnsweredNone(rest: Result<(seq<Account>, seq<ForcedWithdrawal>)>)
    ensures Answered([], rest) == rest
  {
    if rest.Ok? {
      assert [] + rest.value.1 == rest.value.1;
    }
  }

  lemma AnsweredStep(done: seq<ForcedWithdrawal>, next: ForcedWithdrawal, rest: Result<(seq<Account>, seq<ForcedWithdrawal>)>)
    ensures Answered(done, Answered([next], rest)) == Answered(done + [next], rest)
  {
    if rest.Ok? {
      assert done + ([next] + rest.value.1) == (done + [next]) + rest.value.1;
    }
  }

  /** The count array of consume_nonces. */
  method CountOperations(orders: seq<Order>, withdrawals: seq<Withdrawal>, size: nat) returns (result: seq<nat>)
    requires forall i :: 0 <= i < |orders| ==> orders[i].index < size
    requires forall i :: 0 <= i < |withdrawals| ==> withdrawals[i].index < size
    ensures |result| == size
    ensures forall x :: 0 <= x < size ==> result[x] == Nonces.CountUses(Nonces.Uses(orders, withdrawals), x)
  {
    var counts := new nat[size](_ => 0);
    ghost var uses := Nonces.Uses(orders, withdrawals);
    UsesAt(orders, withdrawals);
    hide Nonces.Uses, Nonces.CountUses;
    NoUses(uses);
    for i := 0 to |orders|
      invariant forall x :: 0 <= x < size ==> counts[x] == Nonces.CountUses(uses[..i], x)
    {
      CountNext(uses, i);
      counts[orders[i].index] := counts[orders[i].index] + 1;
    }
    for i := 0 to |withdrawals|
      invariant forall x :: 0 <= x < size ==> counts[x] == Nonces.CountUses(uses[..|orders| + i], x)
    {
      CountNext(uses, |orders| + i);
      counts[withdrawals[i].index] := counts[withdrawals[i].index] + 1;
    }
    assert uses[..|uses|] == uses;
    result := counts[..];
  }

  lemma UsesAt(orders: seq<Order>, withdrawals: seq<Withdrawal>)
    ensures var uses := Nonces.Uses(orders, withdrawals);
            && |uses| == |orders| + |withdrawals|
            && (forall i :: 0 <= i < |orders| ==> uses[i].index == orders[i].index)
            && (forall i :: 0 <= i < |withdrawals| ==> uses[|orders| + i].index == withdrawals[i].index)
  {
  }

  lemma NoUses(uses: seq<Nonces.Use>)
    ensures forall x :: Nonces.CountUses(uses[..0], x) == 0
  {
  }

  lemma CountNext(uses: seq<Nonces.Use>, i: nat)
    requires i < |uses|
    ensures forall x :: Nonces.CountUses(uses[..i + 1], x) == Nonces.CountUses(uses[..i], x) + (if uses[i].index == x then 1 else 0)
  {
    assert uses[..i + 1] == uses[..i] + [uses[i]];
    forall x ensures Nonces.CountUses(uses[..i + 1], x) == Nonces.CountUses(uses[..i], x) + (if uses[i].index == x then 1 else 0) {
      Nonces.CountAppend(uses[..i], [uses[i]], x);
      assert [uses[i]][1..] == [];
    }
  }

  // ----- settlement/mod.rs

  method ValidateInput(input: BatchInput) returns (r: Result<nat>)
    ensures r == Validate(input)
  {
    var c := ValidateLimits(input);
    if c.Fail? {
      return Err(c.error);
    }
    c := Checks.ValidateConfig(input.config, input.accounts);
    if c.Fail? {
      return Err(c.error);
    }
    c := Checks.ValidateAccounts(input.accounts);
    if c.Fail? {
      return Err(c.error);
    }
    r := Checks.ValidateDeposits(input.deposits, input.depositCursor, input.config);
    if r.Err? {
      return;
    }
    var root := Patricia.ComputeRootFromProof(input.accounts, input.proof);
    if root.Err? {
      return Err(root.error);
    }
    if root.value != input.expectedRoot {
      return Err(OldStateRootMismatch);
    }
  }

  method TrackBaseline(input: BatchInput, tracker: AssetTracker) returns (c: Check)
    requires tracker.totals == map[]
    modifies tracker
    ensures Follows(c, Baseline(input), tracker.totals)
  {
    hide Tracker.AddAccounts, Tracker.AddDeposits, Tracker.SubtractWithdrawals;
    c := tracker.AddAccounts(input.accounts);
    if c.Fail? {
      return;
    }
    c := tracker.AddDeposits(input.deposits);
    if c.Fail? {
      return;
    }
    c := tracker.SubtractWithdrawals(input.withdrawals);
  }

  method ApplyQueues(input: BatchInput, table: AccountTable, requests: array<ForcedWithdrawal>, tracker: AssetTracker)
    returns (c: Check)
    requires table.accounts == input.accounts && requests[..] == input.forced
    modifies table, requests, tracker
    ensures match Admit(input, old(tracker.totals))
            case Ok(p) => c.Pass? && table.accounts == p.0 && requests[..] == p.1 && tracker.totals == p.2
            case Err(e) => c == Fail(e)
  {
    hide Operations.ApplyDeposits, Operations.ApplyForced, Tracker.SubtractForced, Validation.ValidateForced;
    c := table.ApplyDeposits(input.deposits);
    if c.Fail? {
      return;
    }
    c := Checks.ValidateForced(requests[..], input.forcedCursor);
    if c.Fail? {
      return;
    }
    c := table.ApplyForced(requests);
    if c.Fail? {
      return;
    }
    c := tracker.SubtractForced(requests[..]);
  }

  method ExecuteOperations(input: BatchInput, table: AccountTable) returns (c: Check)
    modifies table
    ensures ValidateOperations(input, old(table.accounts)).Fail? ==> c == ValidateOperations(input, old(table.accounts))
    ensures ValidateOperations(input, old(table.accounts)).Pass? ==>
              Follows(c, Consume(input, old(table.accounts)), table.accounts)
  {
    hide Validation.ValidateWithdrawals, Validation.ScanOrders, Nonces.ValidateNonces, Operations.ApplyWithdrawals, Nonces.ConsumeNonces;
    c := Checks.ValidateWithdrawals(input.withdrawals, table.accounts, input.config);
    if c.Fail? {
      return;
    }
    c := Checks.ValidateOrders(input.orders, table.accounts, input.config);
    if c.Fail? {
      return;
    }
    AcceptedResolved(input, table.accounts);
    c := Checks.ValidateNonces(input.orders, input.withdrawals, table.accounts);
    if c.Fail? {
      return;
    }
    c := table.ApplyWithdrawals(input.withdrawals);
    if c.Fail? {
      return;
    }
    c := table.ConsumeNonces(input.orders, input.withdrawals);
  }

  method MatchOrders(input: BatchInput, table: AccountTable) returns (r: Result<seq<Trade>>)
    requires ScalesPositive(input.config) && Trades.OrdersAt(table.accounts, input.orders)
    modifies table
    ensures match Clear(input, old(table.accounts))
            case Ok(p) => r == Ok(p.1) && table.accounts == p.0
            case Err(e) => r == Err(e)
  {
    hide Books.BuildValidatedBooks, Trades.MatchAndSettle;
    var books := Checks.BuildValidatedBooks(input.orders, input.books, input.config);
    if books.Err? {
      return Err(books.error);
    }
    Books.BooksAcceptedExactly(input.orders, input.books, input.config);
    ResolvedReady(input.orders, input.books, input.config, books.value, table.accounts);
    r := table.MatchAndSettle(books.value, input.config);
  }

  /** What the stages before it guarantee the matching engine. */
  lemma MatchingReady(input: BatchInput, admitted: seq<Account>, consumed: seq<Account>)
    requires Validate(input).Ok? && ValidateOperations(input, admitted).Pass? && Consume(input, admitted) == Ok(consumed)
    ensures ScalesPositive(input.config) && Trades.OrdersAt(consumed, input.orders)
  {
    hide Validate, ValidateOperations, Consume, Validation.ValidateConfig, Nonces.Uses, Nonces.UsesResolved,
      Operations.WithdrawalsResolved, Operations.HasId;
    ValidateUnfold(input);
    Validation.ConfigGuarantees(input.config, input.accounts);
    OperationsUnfold(input, admitted);
    AcceptedResolved(input, admitted);
  }

  /** The guest program: every stage in order over one mutable table and one
      tracker, any error discarding both. */
  method SettleBatch(input: BatchInput) returns (r: Result<BatchOutput>)
    ensures r == Outcome(input)
  {
    hide Validate, Baseline, Admit, ValidateOperations, Consume, Clear, Tracker.SubtractAccounts, BuildOutput, Patricia.RootFromProof,
      ScalesPositive, Trades.OrdersAt;
    var cursor := ValidateInput(input);
    if cursor.Err? {
      return Err(cursor.error);
    }
    var tracker := new AssetTracker();
    var c := TrackBaseline(input, tracker);
    if c.Fail? {
      return Err(c.error);
    }
    var table := new AccountTable(input.accounts);
    var requests := new ForcedWithdrawal[|input.forced|](i requires 0 <= i < |input.forced| => input.forced[i]);
    assert requests[..] == input.forced;
    c := ApplyQueues(input, table, requests, tracker);
    if c.Fail? {
      return Err(c.error);
    }
    ghost var admitted := table.accounts;
    c := ExecuteOperations(input, table);
    if c.Fail? {
      return Err(c.error);
    }
    MatchingReady(input, admitted, table.accounts);
    var trades := MatchOrders(input, table);
    if trades.Err? {
      return Err(trades.error);
    }
    var settled := Settled(cursor.value, table.accounts, trades.value, requests[..], tracker.totals);
    assert Stages(input) == Ok(settled);
    c := tracker.SubtractAccounts(table.accounts);
    if c.Fail? {
      return Err(c.error);
    }
    if tracker.totals != map[] {
      return Err(AssetConservationViolation);
    }
    var newRoot := Patricia.ComputeRootFromProof(table.accounts, input.proof);
    if newRoot.Err? {
      return Err(newRoot.error);
    }
    r := Ok(BuildOutput(input, settled, newRoot.value));
  }
}
