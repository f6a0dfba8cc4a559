/** The validation loops of the guest as written (settlement/validation.rs),
    each against its specification. */
module Checks {
  import opened Keys
  import opened Results
  import opened Sorting
  import opened Types
  import opened Ledger
  import opened Operations
  import Validation
  import Nonces
  import Books

  method ValidateDeposits(deposits: seq<Deposit>, oldCursor: nat, config: ExchangeConfig) returns (r: Result<nat>)
    ensures r == Validation.ValidateDeposits(deposits, oldCursor, config)
  {
    var expected: nat := oldCursor;
    for i := 0 to |deposits|
      invariant Validation.ValidateDeposits(deposits, oldCursor, config)
                == Validation.ValidateDeposits(deposits[i..], expected, config)
    {
      var deposit := deposits[i];
      assert deposits[i..][1..] == deposits[i + 1..];
      if deposit.id != expected {
        return Err(InvalidDepositCursor);
      }
      if deposit.amount == 0 {
        return Err(ZeroDepositAmount);
      }
      if Validation.FindAsset(config.assets, deposit.asset).None? {
        return Err(UnknownAsset);
      }
      if expected + 1 > U64_MAX {
        return Err(DepositCursorOverflow);
      }
      expected := expected + 1;
    }
    r := Ok(expected);
  }

  method ValidateForced(requests: seq<ForcedWithdrawal>, oldCursor: nat) returns (c: Check)
    ensures c == Validation.ValidateForced(requests, oldCursor)
  {
    var expected: nat := oldCursor;
    for i := 0 to |requests|
      invariant Validation.ValidateForced(requests, oldCursor) == Validation.ValidateForced(requests[i..], expected)
    {
      assert requests[i..][1..] == requests[i + 1..];
      if requests[i].id != expected {
        return Fail(InvalidForcedWithdrawalCursor);
      }
      if requests[i].amount == 0 {
        return Fail(ZeroForcedWithdrawalAmount);
      }
      if expected + 1 > U64_MAX {
        return Fail(ForcedWithdrawalCursorOverflow);
      }
      expected := expected + 1;
    }
    c := Pass;
  }

  method ValidateConfig(config: ExchangeConfig, accounts: seq<Account>) returns (c: Check)
    ensures c == Validation.ValidateConfig(config, accounts)
  {
    var previousAsset: Option<AssetId> := None;
    for i := 0 to |config.assets|
      invariant Validation.ValidateAssets(config.assets, None) == Validation.ValidateAssets(config.assets[i..], previousAsset)
    {
      var asset := config.assets[i];
      assert config.assets[i..][1..] == config.assets[i + 1..];
      if asset.scale == 0 {
        return Fail(ZeroAssetScale);
      }
      if previousAsset.Some? {
        if previousAsset.value == asset.id {
          return Fail(DuplicateAsset);
        }
        if previousAsset.value > asset.id {
          return Fail(UnsortedAssets);
        }
      }
      previousAsset := Some(asset.id);
    }
    c := ValidateMarkets(config);
    if c.Fail? {
      return;
    }
    if config.fees.buyerFeeBps > BPS_DENOMINATOR {
      return Fail(InvalidFee);
    }
    for i := 0 to |accounts|
      invariant forall k :: 0 <= k < i ==> accounts[k].id != config.fees.recipient
    {
      if accounts[i].id == config.fees.recipient {
        return Pass;
      }
    }
    c := Fail(MissingFeeRecipient);
  }

  method ValidateMarkets(config: ExchangeConfig) returns (c: Check)
    ensures c == Validation.ValidateMarkets(config, config.markets, None)
  {
    var previous: Option<MarketId> := None;
    for i := 0 to |config.markets|
      invariant Validation.ValidateMarkets(config, config.markets, None)
                == Validation.ValidateMarkets(config, config.markets[i..], previous)
    {
      var market := config.markets[i];
      assert config.markets[i..][1..] == config.markets[i + 1..];
      if previous.Some? {
        if previous.value == market.id {
          return Fail(DuplicateMarket);
        }
        if previous.value > market.id {
          return Fail(UnsortedMarkets);
        }
      }
      previous := Some(market.id);
      if market.base == market.quote {
        return Fail(IdenticalMarketAssets);
      }
      if Validation.FindAsset(config.assets, market.base).None? || Validation.FindAsset(config.assets, market.quote).None? {
        return Fail(UnknownAsset);
      }
    }
    c := Pass;
  }

  /** Duplicates are told apart from a mere wrong order only on failure. */
  method ValidateAccounts(accounts: seq<Account>) returns (c: Check)
    ensures c == Validation.ValidateAccounts(accounts)
  {
    if exists i :: 0 <= i < |accounts| - 1 && accounts[i].id >= accounts[i + 1].id {
      var seen: set<AccountId> := {};
      for k := 0 to |accounts|
        invariant seen == set i | 0 <= i < k :: accounts[i].id
        invariant forall i, j :: 0 <= i < j < k ==> accounts[i].id != accounts[j].id
      {
        if accounts[k].id in seen {
          return Fail(DuplicateAccount);
        }
        seen := seen + {accounts[k].id};
      }
      return Fail(UnsortedAccounts);
    }
    for i := 0 to |accounts|
      invariant Validation.ValidateEachAccount(accounts) == Validation.ValidateEachAccount(accounts[i..])
    {
      assert accounts[i..][1..] == accounts[i + 1..];
      c := ValidateBalances(accounts[i].balances);
      if c.Fail? {
        return;
      }
    }
    c := Pass;
  }

  method ValidateBalances(balances: seq<AssetBalance>) returns (c: Check)
    ensures c == Validation.ValidateBalances(balances)
  {
    for i := 0 to |balances|
      invariant forall k :: 0 <= k < i ==> balances[k].available != 0
    {
      if balances[i].available == 0 {
        return Fail(ZeroBalance);
      }
    }
    if exists i :: 0 <= i < |balances| - 1 && balances[i].asset >= balances[i + 1].asset {
      var seen: set<AssetId> := {};
      for k := 0 to |balances|
        invariant seen == set i | 0 <= i < k :: balances[i].asset
        invariant forall i, j :: 0 <= i < j < k ==> balances[i].asset != balances[j].asset
      {
        if balances[k].asset in seen {
          return Fail(DuplicateBalance);
        }
        seen := seen + {balances[k].asset};
      }
      return Fail(UnsortedBalances);
    }
    c := Pass;
  }

  method ValidateOrders(orders: seq<Order>, accounts: seq<Account>, config: ExchangeConfig) returns (c: Check)
    ensures c == Validation.ValidateOrders(orders, accounts, config)
  {
    var sequences: seq<nat> := [];
    for i := 0 to |orders|
      invariant Validation.ScanOrders(orders, accounts, config) == Validation.ScanOrders(orders[i..], accounts, config)
      invariant |sequences| == i && forall k :: 0 <= k < i ==> sequences[k] == orders[k].sequence
    {
      var order := orders[i];
      assert orders[i..][1..] == orders[i + 1..];
      if order.price == 0 {
        return Fail(ZeroPrice);
      }
      if order.quantity == 0 {
        return Fail(ZeroQuantity);
      }
      if !order.authentic {
        return Fail(InvalidOrderSignature);
      }
      if !Validation.IndexMatches(order.index, accounts, order.trader) {
        return Fail(UnknownAccount);
      }
      if Validation.FindMarket(config.markets, order.market).None? {
        return Fail(UnknownMarket);
      }
      sequences := sequences + [order.sequence];
    }
    var sorted := Sort(sequences, NatBefore);
    SortedTies(sequences);
    SameDistinct(orders, sequences);
    assert orders[|orders|..] == [];
    assert Validation.ScanOrders(orders, accounts, config).Pass?;
    if !NeighboursDiffer(sorted) {
      return Fail(DuplicateSequence);
    }
    c := Pass;
  }

  lemma SameDistinct(orders: seq<Order>, sequences: seq<nat>)
    requires |sequences| == |orders| && forall k :: 0 <= k < |orders| ==> sequences[k] == orders[k].sequence
    ensures Validation.DistinctSequences(orders) <==> AllDiffer(sequences)
  {
    if Validation.DistinctSequences(orders) {
      forall i, j | 0 <= i < j < |sequences| ensures sequences[i] != sequences[j] {
        assert orders[i].sequence != orders[j].sequence;
      }
    }
    if AllDiffer(sequences) {
      forall i, j | 0 <= i < j < |orders| ensures orders[i].sequence != orders[j].sequence {
        assert sequences[i] != sequences[j];
      }
    }
  }

  predicate NatBefore(a: nat, b: nat) {
    a < b
  }

  predicate NeighboursDiffer(values: seq<nat>) {
    forall i :: 0 <= i < |values| - 1 ==> values[i] != values[i + 1]
  }

  predicate AllDiffer(values: seq<nat>) {
    forall i, j :: 0 <= i < j < |values| ==> values[i] != values[j]
  }

  /** Sorting brings equal values next to each other. */
  lemma SortedTies(values: seq<nat>)
    ensures NeighboursDiffer(Sort(values, NatBefore)) <==> AllDiffer(values)
  {
    var sorted := Sort(values, NatBefore);
    SortAscending(values, NatBefore);
    forall i, j | 0 <= i < j < |sorted| ensures sorted[i] <= sorted[j] {
      assert !NatBefore(sorted[j], sorted[i]);
    }
    if NeighboursDiffer(sorted) {
      forall i, j | 0 <= i < j < |sorted| ensures Identity(sorted[i]) != Identity(sorted[j]) {
        assert sorted[i] != sorted[i + 1] && sorted[i] <= sorted[i + 1];
        assert i + 1 == j || sorted[i + 1] <= sorted[j];
      }
      DistinctPermutes(sorted, values, Identity);
      forall i, j | 0 <= i < j < |values| ensures values[i] != values[j] {
        assert Identity(values[i]) != Identity(values[j]);
      }
    }
    if AllDiffer(values) {
      forall i, j | 0 <= i < j < |values| ensures Identity(values[i]) != Identity(values[j]) {
        assert values[i] != values[j];
      }
      DistinctPermutes(values, sorted, Identity);
      forall i | 0 <= i < |sorted| - 1 ensures sorted[i] != sorted[i + 1] {
        assert Identity(sorted[i]) != Identity(sorted[i + 1]);
      }
    }
  }

  method ValidateWithdrawals(withdrawals: seq<Withdrawal>, accounts: seq<Account>, config: ExchangeConfig) returns (c: Check)
    ensures c == Validation.ValidateWithdrawals(withdrawals, accounts, config)
  {
    for i := 0 to |withdrawals|
      invariant Validation.ValidateWithdrawals(withdrawals, accounts, config)
                == Validation.ValidateWithdrawals(withdrawals[i..], accounts, config)
    {
      var withdrawal := withdrawals[i];
      assert withdrawals[i..][1..] == withdrawals[i + 1..];
      if withdrawal.amount == 0 {
        return Fail(ZeroWithdrawalAmount);
      }
      if !withdrawal.authentic {
        return Fail(InvalidWithdrawalSignature);
      }
      if !Validation.IndexMatches(withdrawal.index, accounts, withdrawal.account) {
        return Fail(UnknownAccount);
      }
      if Validation.FindAsset(config.assets, withdrawal.asset).None? {
        return Fail(UnknownAsset);
      }
    }
    c := Pass;
  }

  /** Collects every use, sorts, and walks the runs account by account. */
  method ValidateNonces(orders: seq<Order>, withdrawals: seq<Withdrawal>, accounts: seq<Account>) returns (c: Check)
    requires Nonces.UsesResolved(Nonces.Uses(orders, withdrawals), accounts)
    ensures c == Nonces.ValidateNonces(orders, withdrawals, accounts)
  {
    var uses: seq<Nonces.Use> := [];
    for i := 0 to |orders|
      invariant uses == Nonces.OrderUses(orders[..i])
    {
      uses := uses + [Nonces.Use(orders[i].index, orders[i].nonce)];
    }
    assert orders[..|orders|] == orders;
    for i := 0 to |withdrawals|
      invariant uses == Nonces.OrderUses(orders) + Nonces.WithdrawalUses(withdrawals[..i])
    {
      uses := uses + [Nonces.Use(withdrawals[i].index, withdrawals[i].nonce)];
    }
    assert withdrawals[..|withdrawals|] == withdrawals;
    Nonces.SortedResolved(uses, accounts);
    var sorted := Sort(uses, Nonces.UseBefore);
    var current: Option<nat> := None;
    var expected: nat := 0;
    for i := 0 to |sorted|
      invariant Nonces.CheckRuns(sorted, accounts, None, 0) == Nonces.CheckRuns(sorted[i..], accounts, current, expected)
    {
      assert sorted[i..][1..] == sorted[i + 1..];
      if current != Some(sorted[i].index) {
        current := Some(sorted[i].index);
        expected := accounts[sorted[i].index].nextNonce;
      }
      if sorted[i].nonce != expected {
        return Fail(InvalidNonce);
      }
      if expected + 1 > U64_MAX {
        return Fail(NonceOverflow);
      }
      expected := expected + 1;
    }
    c := Pass;
  }

  // ----- order books

  /** The indices marked in the array. */
  ghost predicate Marks(seen: array<bool>, indices: set<nat>)
    reads seen
  {
    forall i: nat :: i in indices <==> i < seen.Length && seen[i]
  }

  method ValidateBookOrders(market: MarketId, indices: seq<nat>, side: Side, orders: seq<Order>, seen: array<bool>,
                            ghost marked: set<nat>)
    returns (r: Result<seq<Order>>, ghost marks: set<nat>)
    requires seen.Length == |orders| && Marks(seen, marked)
    modifies seen
    ensures match Books.ValidateBookOrders(market, indices, side, orders, marked, None)
            case Ok(p) => r == Ok(p.0) && marks == p.1 && Marks(seen, marks)
            case Err(e) => r == Err(e)
  {
    var validated: seq<Order> := [];
    marks := marked;
    assert indices[0..] == indices;
    PlacedNone(Books.ValidateBookOrders(market, indices, side, orders, marked, None));
    for i := 0 to |indices|
      invariant Marks(seen, marks)
      invariant Books.ValidateBookOrders(market, indices, side, orders, marked, None)
                == Placed(validated, Books.ValidateBookOrders(market, indices[i..], side, orders, marks, Last(validated)))
    {
      assert indices[i..][0] == indices[i] && indices[i..][1..] == indices[i + 1..];
      if indices[i] >= |orders| {
        return Err(InvalidOrderIndex), marks;
      }
      var order := orders[indices[i]];
      if seen[indices[i]] {
        return Err(DuplicateOrderIndex), marks;
      }
      seen[indices[i]] := true;
      if order.market != market {
        return Err(OrderBookMarketMismatch), marks;
      }
      if order.side != side {
        return Err(OrderBookSideMismatch), marks;
      }
      if validated != [] && !Books.Before(side, validated[|validated| - 1], order) {
        return Err(UnsortedOrderBook), marks;
      }
      PlacedStep(validated, order, Books.ValidateBookOrders(market, indices[i + 1..], side, orders, marks + {indices[i]}, Some(order)));
      marks := marks + {indices[i]};
      validated := validated + [order];
    }
    assert validated + [] == validated;
    r := Ok(validated);
  }

  ghost function Last(orders: seq<Order>): Option<Order> {
    if orders == [] then None else Some(orders[|orders| - 1])
  }

  ghost function Placed(before: seq<Order>, rest: Result<(seq<Order>, set<nat>)>): Result<(seq<Order>, set<nat>)> {
    if rest.Err? then rest else Ok((before + rest.value.0, rest.value.1))
  }

  lemma PlacedNone(rest: Result<(seq<Order>, set<nat>)>)
    ensures Placed([], rest) == rest
  {
    if rest.Ok? {
      assert [] + rest.value.0 == rest.value.0;
    }
  }

  lemma PlacedStep(before: seq<Order>, order: Order, rest: Result<(seq<Order>, set<nat>)>)
    ensures Placed(before, Placed([order], rest)) == Placed(before + [order], rest)
  {
    if rest.Ok? {
      assert before + ([order] + rest.value.0) == (before + [order]) + rest.value.0;
    }
  }

  method BuildValidatedBooks(orders: seq<Order>, books: seq<OrderBook>, config: ExchangeConfig)
    returns (r: Result<seq<Validation.ValidatedBook>>)
    ensures r == Books.BuildValidatedBooks(orders, books, config)
  {
    var built: seq<Validation.ValidatedBook> := [];
    var previous: Option<MarketId> := None;
    var seen := new bool[|orders|](_ => false);
    ghost var marks: set<nat> := {};
    assert books[0..] == books;
    ShelvedNone(Books.BuildFrom(orders, books, config, None, {}));
    for k := 0 to |books|
      invariant seen.Length == |orders| && Marks(seen, marks)
      invariant Books.BuildFrom(orders, books, config, None, {})
                == Shelved(built, Books.BuildFrom(orders, books[k..], config, previous, marks))
    {
      var book := books[k];
      assert books[k..][0] == book && books[k..][1..] == books[k + 1..];
      if book.buys == [] && book.sells == [] {
        return Err(EmptyOrderBook);
      }
      if previous.Some? {
        if previous.value == book.market {
          return Err(DuplicateMarketOrderBook);
        }
        if previous.value > book.market {
          return Err(UnsortedMarketOrderBooks);
        }
      }
      var market := Validation.FindMarket(config.markets, book.market);
      if market.None? {
        return Err(UnknownMarket);
      }
      var baseAsset := Validation.FindAsset(config.assets, market.value.base);
      if baseAsset.None? {
        return Err(UnknownAsset);
      }
      ghost var afterBuys, afterSells;
      var buys, sells;
      buys, afterBuys := ValidateBookOrders(book.market, book.buys, Buy, orders, seen, marks);
      if buys.Err? {
        return Err(buys.error);
      }
      sells, afterSells := ValidateBookOrders(book.market, book.sells, Sell, orders, seen, afterBuys);
      if sells.Err? {
        return Err(sells.error);
      }
      var validated := Validation.ValidatedBook(market.value, baseAsset.value, buys.value, sells.value);
      ShelvedStep(built, validated, Books.BuildFrom(orders, books[k + 1..], config, Some(book.market), afterSells));
      built := built + [validated];
      previous := Some(book.market);
      marks := afterSells;
    }
    assert built + [] == built;
    for i := 0 to |orders|
      invariant forall k: nat :: k < i ==> k in marks
    {
      if !seen[i] {
        return Err(MissingOrderIndex);
      }
    }
    r := Ok(built);
  }

  ghost function Shelved(before: seq<Validation.ValidatedBook>, rest: Result<(seq<Validation.ValidatedBook>, set<nat>)>)
    : Result<(seq<Validation.ValidatedBook>, set<nat>)>
  {
    if rest.Err? then rest else Ok((before + rest.value.0, rest.value.1))
  }

  lemma ShelvedNone(rest: Result<(seq<Validation.ValidatedBook>, set<nat>)>)
    ensures Shelved([], rest) == rest
  {
    if rest.Ok? {
      assert [] + rest.value.0 == rest.value.0;
    }
  }

  lemma ShelvedStep(before: seq<Validation.ValidatedBook>, book: Validation.ValidatedBook,
                    rest: Result<(seq<Validation.ValidatedBook>, set<nat>)>)
    ensures Shelved(before, Shelved([book], rest)) == Shelved(before + [book], rest)
  {
    if rest.Ok? {
      assert before + ([book] + rest.value.0) == (before + [book]) + rest.value.0;
    }
  }
}
