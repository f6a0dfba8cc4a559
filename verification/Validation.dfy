/** What a batch must satisfy before it is executed (settlement/validation.rs). */
module Validation {
  import opened Keys
  import opened Results
  import opened Sorting
  import opened Types
  import opened Ledger
  import opened Operations

  const MAX_DEPOSITS_PER_BATCH: nat := 1_000
  const MAX_ORDERS_PER_BATCH: nat := 1_000
  const MAX_WITHDRAWALS_PER_BATCH: nat := 1_000
  const MAX_FORCED_WITHDRAWALS_PER_BATCH: nat := 1_000
  const MAX_ASSETS: nat := 1_000
  const MAX_MARKETS: nat := 1_000

  /** A market's book with its orders resolved. */
  datatype ValidatedBook = ValidatedBook(market: MarketConfig, baseAsset: AssetConfig, buys: seq<Order>, sells: seq<Order>)

  // ----- configuration

  /** Lookups in the configuration, whose lists are validated to be sorted. */
  function FindAsset(assets: seq<AssetConfig>, id: AssetId): (r: Option<AssetConfig>)
    ensures r.Some? ==> r.value.id == id && r.value in assets
    ensures r.None? ==> forall a :: a in assets ==> a.id != id
  {
    if assets == [] then None else if assets[0].id == id then Some(assets[0]) else FindAsset(assets[1..], id)
  }

  function FindMarket(markets: seq<MarketConfig>, id: MarketId): (r: Option<MarketConfig>)
    ensures r.Some? ==> r.value.id == id && r.value in markets
    ensures r.None? ==> forall m :: m in markets ==> m.id != id
  {
    if markets == [] then None else if markets[0].id == id then Some(markets[0]) else FindMarket(markets[1..], id)
  }

  function ValidateAssets(assets: seq<AssetConfig>, previous: Option<AssetId>): Check {
    if assets == [] then Pass
    else if assets[0].scale == 0 then Fail(ZeroAssetScale)
    else if previous == Some(assets[0].id) then Fail(DuplicateAsset)
    else if previous.Some? && previous.value > assets[0].id then Fail(UnsortedAssets)
    else ValidateAssets(assets[1..], Some(assets[0].id))
  }

  function ValidateMarkets(config: ExchangeConfig, markets: seq<MarketConfig>, previous: Option<MarketId>): Check
    decreases |markets|
  {
    if markets == [] then Pass
    else if previous == Some(markets[0].id) then Fail(DuplicateMarket)
    else if previous.Some? && previous.value > markets[0].id then Fail(UnsortedMarkets)
    else if markets[0].base == markets[0].quote then Fail(IdenticalMarketAssets)
    else if FindAsset(config.assets, markets[0].base).None? || FindAsset(config.assets, markets[0].quote).None? then
      Fail(UnknownAsset)
    else ValidateMarkets(config, markets[1..], Some(markets[0].id))
  }

  function ValidateConfig(config: ExchangeConfig, accounts: seq<Account>): Check {
    var assets := ValidateAssets(config.assets, None);
    if assets.Fail? then assets
    else
      var markets := ValidateMarkets(config, config.markets, None);
      if markets.Fail? then markets
      else if config.fees.buyerFeeBps > BPS_DENOMINATOR then Fail(InvalidFee)
      else if forall i :: 0 <= i < |accounts| ==> accounts[i].id != config.fees.recipient then Fail(MissingFeeRecipient)
      else Pass
  }

  ghost predicate AssetKnown(assets: seq<AssetConfig>, id: AssetId) {
    exists i :: 0 <= i < |assets| && assets[i].id == id
  }

  /** Strictly ascending ids with positive scales. */
  ghost predicate AssetsProper(assets: seq<AssetConfig>) {
    && (forall i :: 0 <= i < |assets| ==> assets[i].scale > 0)
    && forall i, j :: 0 <= i < j < |assets| ==> assets[i].id < assets[j].id
  }

  ghost predicate MarketProper(assets: seq<AssetConfig>, market: MarketConfig) {
    market.base != market.quote && AssetKnown(assets, market.base) && AssetKnown(assets, market.quote)
  }

  /** Strictly ascending ids, each market between two distinct known assets. */
  ghost predicate MarketsProper(assets: seq<AssetConfig>, markets: seq<MarketConfig>) {
    && (forall i :: 0 <= i < |markets| ==> MarketProper(assets, markets[i]))
    && forall i, j :: 0 <= i < j < |markets| ==> markets[i].id < markets[j].id
  }

  lemma {:induction false} FindsKnown(assets: seq<AssetConfig>, id: AssetId)
    ensures FindAsset(assets, id).Some? <==> AssetKnown(assets, id)
  {
    if assets != [] && assets[0].id != id {
      FindsKnown(assets[1..], id);
      if AssetKnown(assets[1..], id) {
        var i :| 0 <= i < |assets[1..]| && assets[1..][i].id == id;
        assert assets[i + 1].id == id;
      }
      if AssetKnown(assets, id) {
        var i :| 0 <= i < |assets| && assets[i].id == id;
        assert assets[1..][i - 1].id == id;
      }
    }
  }

  lemma {:induction false} AssetsExactly(assets: seq<AssetConfig>, previous: Option<AssetId>)
    ensures ValidateAssets(assets, previous).Pass? <==>
              AssetsProper(assets) && (previous.Some? && assets != [] ==> previous.value < assets[0].id)
    decreases |assets|
  {
    if assets != [] {
      AssetsExactly(assets[1..], Some(assets[0].id));
      assert forall i :: 0 < i < |assets| ==> assets[i] == assets[1..][i - 1];
      assert forall i :: 0 <= i < |assets| - 1 ==> assets[1..][i] == assets[i + 1];
    }
  }

  lemma {:induction false} MarketsExactly(config: ExchangeConfig, markets: seq<MarketConfig>, previous: Option<MarketId>)
    ensures ValidateMarkets(config, markets, previous).Pass? <==>
              MarketsProper(config.assets, markets) && (previous.Some? && markets != [] ==> previous.value < markets[0].id)
    decreases |markets|
  {
    if markets != [] {
      hide AssetKnown, FindAsset;
      FindsKnown(config.assets, markets[0].base);
      FindsKnown(config.assets, markets[0].quote);
      MarketsExactly(config, markets[1..], Some(markets[0].id));
      assert forall i :: 0 < i < |markets| ==> markets[i] == markets[1..][i - 1];
      assert forall i :: 0 <= i < |markets| - 1 ==> markets[1..][i] == markets[i + 1];
    }
  }

  /** THEOREM. A configuration is accepted exactly when its assets have positive
      scales and strictly ascending ids, its markets have strictly ascending ids
      and two distinct known assets each, the fee is at most one and the fee
      recipient is among the accounts. */
  lemma ConfigAcceptedExactly(config: ExchangeConfig, accounts: seq<Account>)
    ensures ValidateConfig(config, accounts).Pass? <==>
              && AssetsProper(config.assets) && MarketsProper(config.assets, config.markets)
              && config.fees.buyerFeeBps <= BPS_DENOMINATOR && HasId(accounts, config.fees.recipient)
  {
    hide ValidateAssets, ValidateMarkets, AssetsProper, MarketsProper;
    AssetsExactly(config.assets, None);
    MarketsExactly(config, config.markets, None);
  }

  /** What a validated configuration guarantees the matching engine. */
  lemma ConfigGuarantees(config: ExchangeConfig, accounts: seq<Account>)
    requires ValidateConfig(config, accounts).Pass?
    ensures forall a :: a in config.assets ==> a.scale > 0
    ensures forall m :: m in config.markets ==> m.base != m.quote && FindAsset(config.assets, m.base).Some?
    ensures config.fees.buyerFeeBps <= BPS_DENOMINATOR
    ensures HasId(accounts, config.fees.recipient)
  {
    hide ValidateAssets, ValidateMarkets, FindAsset, HasId;
    ConfigAcceptedExactly(config, accounts);
    MarketsExactly(config, config.markets, None);
    MarketsGuarantee(config, config.markets, None);
  }

  lemma MarketsGuarantee(config: ExchangeConfig, markets: seq<MarketConfig>, previous: Option<MarketId>)
    requires ValidateMarkets(config, markets, previous).Pass?
    ensures forall m :: m in markets ==> m.base != m.quote && FindAsset(config.assets, m.base).Some?
  {
    hide FindAsset, ValidateMarkets;
    MarketsExactly(config, markets, previous);
    forall m | m in markets ensures m.base != m.quote && FindAsset(config.assets, m.base).Some? {
      var i :| 0 <= i < |markets| && markets[i] == m;
      assert MarketProper(config.assets, markets[i]);
      FindsKnown(config.assets, m.base);
    }
  }

  // ----- accounts

  function ValidateBalances(balances: seq<AssetBalance>): Check {
    if exists i :: 0 <= i < |balances| && balances[i].available == 0 then
      Fail(ZeroBalance)
    else if exists i :: 0 <= i < |balances| - 1 && balances[i].asset >= balances[i + 1].asset then
      if exists i, j :: 0 <= i < j < |balances| && balances[i].asset == balances[j].asset then
        Fail(DuplicateBalance)
      else
        Fail(UnsortedBalances)
    else
      Pass
  }

  function ValidateEachAccount(accounts: seq<Account>): Check {
    if accounts == [] then Pass
    else
      var first := ValidateBalances(accounts[0].balances);
      if first.Fail? then first else ValidateEachAccount(accounts[1..])
  }

  function ValidateAccounts(accounts: seq<Account>): Check {
    if exists i :: 0 <= i < |accounts| - 1 && accounts[i].id >= accounts[i + 1].id then
      if exists i, j :: 0 <= i < j < |accounts| && accounts[i].id == accounts[j].id then
        Fail(DuplicateAccount)
      else
        Fail(UnsortedAccounts)
    else
      ValidateEachAccount(accounts)
  }

  /** Balances are u128 values; the list types of the source carry that bound. */
  ghost predicate BalancesFit(accounts: seq<Account>) {
    forall i, k :: 0 <= i < |accounts| && 0 <= k < |accounts[i].balances| ==>
      accounts[i].balances[k].available <= U128_MAX
  }

  lemma {:induction false} EachAccountCanonical(accounts: seq<Account>)
    requires BalancesFit(accounts)
    ensures ValidateEachAccount(accounts).Pass? <==> CanonicalAccounts(accounts)
  {
    if accounts != [] {
      var balances := accounts[0].balances;
      CanonicalMeans(balances);
      assert forall k :: 0 <= k < |balances| ==> balances[k].available <= U128_MAX;
      if ValidateBalances(balances).Pass? {
        forall i, j | 0 <= i < j < |balances| ensures balances[i].asset < balances[j].asset {
          AscendingAssets(balances, i, j);
        }
      }
      if CanonicalBalances(balances) {
        assert forall i :: 0 <= i < |balances| - 1 ==> balances[i].asset < balances[i + 1].asset;
      }
      EachAccountCanonical(accounts[1..]);
    }
  }

  lemma {:induction false} AscendingAssets(balances: seq<AssetBalance>, i: nat, j: nat)
    requires forall k :: 0 <= k < |balances| - 1 ==> balances[k].asset < balances[k + 1].asset
    requires i < j < |balances|
    ensures balances[i].asset < balances[j].asset
    decreases j
  {
    if i + 1 < j {
      AscendingAssets(balances, i, j - 1);
    }
  }

  lemma {:induction false} AscendingIds(accounts: seq<Account>, i: nat, j: nat)
    requires forall k :: 0 <= k < |accounts| - 1 ==> accounts[k].id < accounts[k + 1].id
    requires i < j < |accounts|
    ensures accounts[i].id < accounts[j].id
    decreases j
  {
    if i + 1 < j {
      AscendingIds(accounts, i, j - 1);
    }
  }

  /** The account check accepts exactly the sorted lists in canonical form. */
  lemma AccountsValidated(accounts: seq<Account>)
    requires BalancesFit(accounts)
    ensures ValidateAccounts(accounts).Pass? <==> ValidAccounts(accounts)
  {
    EachAccountCanonical(accounts);
    if forall k :: 0 <= k < |accounts| - 1 ==> accounts[k].id < accounts[k + 1].id {
      forall i, j | 0 <= i < j < |accounts| ensures accounts[i].id < accounts[j].id {
        AscendingIds(accounts, i, j);
      }
    } else {
      var k :| 0 <= k < |accounts| - 1 && accounts[k].id >= accounts[k + 1].id;
      assert !SortedById(accounts);
    }
  }

  // ----- queues

  function ValidateDeposits(deposits: seq<Deposit>, cursor: nat, config: ExchangeConfig): Result<nat> {
    if deposits == [] then Ok(cursor)
    else if deposits[0].id != cursor then Err(InvalidDepositCursor)
    else if deposits[0].amount == 0 then Err(ZeroDepositAmount)
    else if FindAsset(config.assets, deposits[0].asset).None? then Err(UnknownAsset)
    else if cursor + 1 > U64_MAX then Err(DepositCursorOverflow)
    else ValidateDeposits(deposits[1..], cursor + 1, config)
  }

  function ValidateForced(requests: seq<ForcedWithdrawal>, cursor: nat): Check {
    if requests == [] then Pass
    else if requests[0].id != cursor then Fail(InvalidForcedWithdrawalCursor)
    else if requests[0].amount == 0 then Fail(ZeroForcedWithdrawalAmount)
    else if cursor + 1 > U64_MAX then Fail(ForcedWithdrawalCursorOverflow)
    else ValidateForced(requests[1..], cursor + 1)
  }

  /** Accepted deposits are consecutive from the cursor, which ends after them. */
  lemma {:induction false} DepositsConsecutive(deposits: seq<Deposit>, cursor: nat, config: ExchangeConfig)
    ensures ValidateDeposits(deposits, cursor, config).Ok? <==>
              && (forall i :: 0 <= i < |deposits| ==>
                    deposits[i].id == cursor + i && deposits[i].amount > 0 && FindAsset(config.assets, deposits[i].asset).Some?)
              && (deposits != [] ==> cursor + |deposits| <= U64_MAX)
    ensures ValidateDeposits(deposits, cursor, config).Ok? ==>
              ValidateDeposits(deposits, cursor, config) == Ok(cursor + |deposits|)
    decreases |deposits|
  {
    if deposits != [] {
      DepositsConsecutive(deposits[1..], cursor + 1, config);
      assert forall i :: 0 < i < |deposits| ==> deposits[i] == deposits[1..][i - 1];
      assert forall i :: 0 <= i < |deposits| - 1 ==> deposits[1..][i] == deposits[i + 1];
    }
  }

  lemma {:induction false} ForcedConsecutive(requests: seq<ForcedWithdrawal>, cursor: nat)
    ensures ValidateForced(requests, cursor).Pass? <==>
              && (forall i :: 0 <= i < |requests| ==> requests[i].id == cursor + i && requests[i].amount > 0)
              && (requests != [] ==> cursor + |requests| <= U64_MAX)
    decreases |requests|
  {
    if requests != [] {
      ForcedConsecutive(requests[1..], cursor + 1);
      assert forall i :: 0 < i < |requests| ==> requests[i] == requests[1..][i - 1];
      assert forall i :: 0 <= i < |requests| - 1 ==> requests[1..][i] == requests[i + 1];
    }
  }

  // ----- orders and withdrawals

  predicate IndexMatches(index: nat, accounts: seq<Account>, id: AccountId) {
    index < |accounts| && accounts[index].id == id
  }

  function ScanOrders(orders: seq<Order>, accounts: seq<Account>, config: ExchangeConfig): Check {
    if orders == [] then Pass
    else if orders[0].price == 0 then Fail(ZeroPrice)
    else if orders[0].quantity == 0 then Fail(ZeroQuantity)
    else if !orders[0].authentic then Fail(InvalidOrderSignature)
    else if !IndexMatches(orders[0].index, accounts, orders[0].trader) then Fail(UnknownAccount)
    else if FindMarket(config.markets, orders[0].market).None? then Fail(UnknownMarket)
    else ScanOrders(orders[1..], accounts, config)
  }

  predicate DistinctSequences(orders: seq<Order>) {
    forall i, j :: 0 <= i < j < |orders| ==> orders[i].sequence != orders[j].sequence
  }

  function ValidateOrders(orders: seq<Order>, accounts: seq<Account>, config: ExchangeConfig): Check {
    var scan := ScanOrders(orders, accounts, config);
    if scan.Fail? then scan
    else if !DistinctSequences(orders) then Fail(DuplicateSequence)
    else Pass
  }

  function ValidateWithdrawals(withdrawals: seq<Withdrawal>, accounts: seq<Account>, config: ExchangeConfig): Check {
    if withdrawals == [] then Pass
    else if withdrawals[0].amount == 0 then Fail(ZeroWithdrawalAmount)
    else if !withdrawals[0].authentic then Fail(InvalidWithdrawalSignature)
    else if !IndexMatches(withdrawals[0].index, accounts, withdrawals[0].account) then Fail(UnknownAccount)
    else if FindAsset(config.assets, withdrawals[0].asset).None? then Fail(UnknownAsset)
    else ValidateWithdrawals(withdrawals[1..], accounts, config)
  }

  ghost predicate OrderAccepted(order: Order, accounts: seq<Account>, config: ExchangeConfig) {
    && order.price > 0 && order.quantity > 0 && order.authentic
    && IndexMatches(order.index, accounts, order.trader)
    && FindMarket(config.markets, order.market).Some?
  }

  lemma {:induction false} OrdersAccepted(orders: seq<Order>, accounts: seq<Account>, config: ExchangeConfig)
    ensures ScanOrders(orders, accounts, config).Pass? <==>
              forall i :: 0 <= i < |orders| ==> OrderAccepted(orders[i], accounts, config)
    ensures ValidateOrders(orders, accounts, config).Pass? <==>
              && (forall i :: 0 <= i < |orders| ==> OrderAccepted(orders[i], accounts, config))
              && forall i, j :: 0 <= i < j < |orders| ==> orders[i].sequence != orders[j].sequence
    decreases |orders|
  {
    if orders != [] {
      OrdersAccepted(orders[1..], accounts, config);
      assert forall i :: 0 < i < |orders| ==> orders[i] == orders[1..][i - 1];
      assert forall i :: 0 <= i < |orders| - 1 ==> orders[1..][i] == orders[i + 1];
    }
  }

  ghost predicate WithdrawalAccepted(w: Withdrawal, accounts: seq<Account>, config: ExchangeConfig) {
    && w.amount > 0 && w.authentic
    && IndexMatches(w.index, accounts, w.account)
    && FindAsset(config.assets, w.asset).Some?
  }

  lemma {:induction false} WithdrawalsAccepted(withdrawals: seq<Withdrawal>, accounts: seq<Account>, config: ExchangeConfig)
    ensures ValidateWithdrawals(withdrawals, accounts, config).Pass? <==>
              forall i :: 0 <= i < |withdrawals| ==> WithdrawalAccepted(withdrawals[i], accounts, config)
    decreases |withdrawals|
  {
    if withdrawals != [] {
      WithdrawalsAccepted(withdrawals[1..], accounts, config);
      assert forall i :: 0 < i < |withdrawals| ==> withdrawals[i] == withdrawals[1..][i - 1];
      assert forall i :: 0 <= i < |withdrawals| - 1 ==> withdrawals[1..][i] == withdrawals[i + 1];
    }
  }
}
