/** The batch builder as it runs over the host's tree (batch_builder.rs). */
module BatchBuilder {
  import opened Keys
  import opened Results
  import opened Types
  import opened Ledger
  import opened Operations
  import opened Validation
  import opened Patricia
  import opened Settlement
  import AccountTree
  import Builder
  import BuilderTheorems

  /** An operation reports its specified error and changes nothing, or leaves
      its specified batch. */
  ghost predicate Performs(c: Check, specified: Result<Builder.Batch>, before: Builder.Batch, after: Builder.Batch) {
    match specified
    case Ok(batch) => c.Pass? && after == batch
    case Err(error) => c == Fail(error) && after == before
  }

  lemma PerformsReachable(c: Check, operation: Builder.Operation, before: Builder.Batch, after: Builder.Batch)
    requires Builder.Reachable(before) && Performs(c, Builder.Attempt(before, operation), before, after)
    ensures Builder.Reachable(after)
  {
    hide Builder.Attempt, Builder.Reachable;
    Builder.StaysReachable(before, operation);
  }

  lemma TouchedSorted(b: Builder.Batch)
    requires Builder.Reachable(b)
    ensures SortedKeys(b.touched)
  {
    BuilderTheorems.ReachableKeeps(b);
  }

  class BatchBuilder {
    const tree: AccountTree.AccountTree
    const config: ExchangeConfig
    const domain: SigningDomain
    const batchId: nat
    const depositCursor: nat
    var deposits: seq<Deposit>
    const forcedCursor: nat
    var forced: seq<ForcedWithdrawal>
    var orders: seq<Order>
    var withdrawals: seq<Withdrawal>
    var touched: seq<Key>
    var sequences: set<nat>
    var nonces: map<AccountId, seq<nat>>
    var books: seq<OrderBook>

    ghost function Abs(): Builder.Batch
      reads this, tree.state
    {
      Builder.Batch(tree.state.accounts, config, domain, batchId, depositCursor, deposits, forcedCursor, forced, orders,
                    withdrawals, touched, sequences, nonces, books)
    }

    constructor (host: AccountTree.AccountTree, exchange: ExchangeConfig, signing: SigningDomain, id: nat,
                 oldDepositCursor: nat, oldForcedCursor: nat)
      ensures tree == host
      ensures Abs() == Builder.NewBatch(host.state.accounts, exchange, signing, id, oldDepositCursor, oldForcedCursor)
      ensures Builder.Reachable(Abs())
    {
      tree, config, domain, batchId := host, exchange, signing, id;
      depositCursor, deposits, forcedCursor, forced := oldDepositCursor, [], oldForcedCursor, [];
      orders, withdrawals := [], [];
      touched, sequences, nonces, books := [exchange.fees.recipient], {}, map[], [];
      new;
      Builder.NewIsReachable(host.state.accounts, exchange, signing, id, oldDepositCursor, oldForcedCursor);
    }

    method Deposit(deposit: Deposit) returns (c: Check)
      requires Builder.Reachable(Abs())
      modifies this
      ensures Performs(c, Builder.AddDeposit(old(Abs()), deposit), old(Abs()), Abs())
      ensures Builder.Reachable(Abs())
    {
      if |deposits| >= MAX_DEPOSITS_PER_BATCH {
        return Fail(TooManyDeposits);
      }
      var expected := depositCursor + |deposits|;
      if expected > U64_MAX {
        return Fail(DepositCursorOverflow);
      }
      if deposit.id != expected {
        return Fail(InvalidDepositCursor);
      }
      if deposit.amount == 0 {
        return Fail(ZeroDepositAmount);
      }
      if FindAsset(config.assets, deposit.asset).None? {
        return Fail(UnknownAsset);
      }
      if deposit.account !in touched && |touched| >= MAX_TOUCHED_ACCOUNTS_PER_BATCH {
        return Fail(TooManyAccounts);
      }
      touched := Builder.InsertKey(touched, deposit.account);
      deposits := deposits + [deposit];
      c := Pass;
      PerformsReachable(c, Builder.Fund(deposit), old(Abs()), Abs());
    }

    method ForcedWithdraw(request: ForcedWithdrawal) returns (c: Check)
      requires Builder.Reachable(Abs())
      modifies this
      ensures Performs(c, Builder.AddForced(old(Abs()), request), old(Abs()), Abs())
      ensures Builder.Reachable(Abs())
    {
      if |forced| >= MAX_FORCED_WITHDRAWALS_PER_BATCH {
        return Fail(TooManyForcedWithdrawals);
      }
      var expected := forcedCursor + |forced|;
      if expected > U64_MAX {
        return Fail(ForcedWithdrawalCursorOverflow);
      }
      if request.id != expected {
        return Fail(InvalidForcedWithdrawalCursor);
      }
      if request.amount == 0 {
        return Fail(ZeroForcedWithdrawalAmount);
      }
      if request.account !in touched && |touched| >= MAX_TOUCHED_ACCOUNTS_PER_BATCH {
        return Fail(TooManyAccounts);
      }
      touched := Builder.InsertKey(touched, request.account);
      forced := forced + [request];
      c := Pass;
      PerformsReachable(c, Builder.Force(request), old(Abs()), Abs());
    }

    method Order(order: Order) returns (c: Check)
      requires tree.Valid()
      requires Builder.Reachable(Abs())
      modifies this
      ensures Performs(c, Builder.AddOrder(old(Abs()), order), old(Abs()), Abs())
      ensures Builder.Reachable(Abs())
    {
      hide Builder.AddNonce, Builder.AddToBooks, Builder.InsertKey, FindMarket, Builder.Reachable, Builder.NoncesOf, SearchId,
        AccountTree.Indexes, SortedById;
      if |orders| >= MAX_ORDERS_PER_BATCH {
        return Fail(TooManyOrders);
      }
      if order.price == 0 {
        return Fail(ZeroPrice);
      }
      if order.quantity == 0 {
        return Fail(ZeroQuantity);
      }
      var trader := tree.Find(order.trader);
      if trader.None? && forall i :: 0 <= i < |deposits| ==> deposits[i].account != order.trader {
        return Fail(UnknownAccount);
      }
      if FindMarket(config.markets, order.market).None? {
        return Fail(UnknownMarket);
      }
      if order.sequence in sequences {
        return Fail(DuplicateSequence);
      }
      var nextNonce := if trader.Some? then trader.value.nextNonce else 0;
      if order.nonce < nextNonce {
        return Fail(InvalidNonce);
      }
      if order.nonce in Builder.NoncesOf(nonces, order.trader) {
        return Fail(DuplicateNonce);
      }
      if order.trader !in touched && |touched| >= MAX_TOUCHED_ACCOUNTS_PER_BATCH {
        return Fail(TooManyAccounts);
      }
      sequences := sequences + {order.sequence};
      nonces := Builder.AddNonce(nonces, order.trader, order.nonce);
      touched := Builder.InsertKey(touched, order.trader);
      books := Builder.AddToBooks(books, order.market, order.side, |orders|);
      orders := orders + [order];
      c := Pass;
      PerformsReachable(c, Builder.Place(order), old(Abs()), Abs());
    }

    method Withdraw(withdrawal: Withdrawal) returns (c: Check)
      requires tree.Valid()
      requires Builder.Reachable(Abs())
      modifies this
      ensures Performs(c, Builder.AddWithdrawal(old(Abs()), withdrawal), old(Abs()), Abs())
      ensures Builder.Reachable(Abs())
    {
      if |withdrawals| >= MAX_WITHDRAWALS_PER_BATCH {
        return Fail(TooManyWithdrawals);
      }
      if withdrawal.amount == 0 {
        return Fail(ZeroWithdrawalAmount);
      }
      if FindAsset(config.assets, withdrawal.asset).None? {
        return Fail(UnknownAsset);
      }
      var account := tree.Find(withdrawal.account);
      if account.None? {
        return Fail(UnknownAccount);
      }
      var already := AlreadyWithdrawing(withdrawal.account, withdrawal.asset);
      if already.Err? {
        return Fail(already.error);
      }
      var required := already.value + withdrawal.amount;
      if required > U128_MAX {
        return Fail(ArithmeticOverflow);
      }
      if Balance(account.value.balances, withdrawal.asset) < required {
        return Fail(InsufficientBalance);
      }
      if withdrawal.nonce < account.value.nextNonce {
        return Fail(InvalidNonce);
      }
      if withdrawal.nonce in Builder.NoncesOf(nonces, withdrawal.account) {
        return Fail(DuplicateNonce);
      }
      if withdrawal.account !in touched && |touched| >= MAX_TOUCHED_ACCOUNTS_PER_BATCH {
        return Fail(TooManyAccounts);
      }
      nonces := Builder.AddNonce(nonces, withdrawal.account, withdrawal.nonce);
      touched := Builder.InsertKey(touched, withdrawal.account);
      withdrawals := withdrawals + [withdrawal];
      c := Pass;
      PerformsReachable(c, Builder.Take(withdrawal), old(Abs()), Abs());
    }

    /** Adds up the account's earlier withdrawals of the asset in a u128. */
    method AlreadyWithdrawing(account: AccountId, asset: AssetId) returns (r: Result<nat>)
      ensures r == if Withdrawn(withdrawals, account, asset) > U128_MAX then Err(ArithmeticOverflow)
                   else Ok(Withdrawn(withdrawals, account, asset))
    {
      var total: nat := 0;
      for i := 0 to |withdrawals|
        invariant Withdrawn(withdrawals, account, asset) == total + Withdrawn(withdrawals[i..], account, asset)
        invariant total <= U128_MAX
      {
        assert withdrawals[i..][1..] == withdrawals[i + 1..];
        if withdrawals[i].account == account && withdrawals[i].asset == asset {
          if total + withdrawals[i].amount > U128_MAX {
            return Err(ArithmeticOverflow);
          }
          total := total + withdrawals[i].amount;
        }
      }
      r := Ok(total);
    }

    /** Every account's nonces must run on from its next nonce. */
    method CheckNonces() returns (sequential: bool)
      requires tree.Valid()
      ensures sequential <==> Builder.AllSequential(Abs())
    {
      var ids := nonces.Keys;
      while ids != {}
        invariant ids <= nonces.Keys
        invariant forall id :: id in nonces && id !in ids ==>
          Builder.Sequential(nonces[id], Builder.StateNonce(tree.state.accounts, id))
        decreases |ids|
      {
        var id :| id in ids;
        var account := tree.Find(id);
        var expected := if account.Some? then account.value.nextNonce else 0;
        var run := CheckRun(nonces[id], expected);
        if !run {
          return false;
        }
        ids := ids - {id};
      }
      sequential := true;
    }

    static method CheckRun(run: seq<nat>, start: nat) returns (sequential: bool)
      ensures sequential <==> Builder.Sequential(run, start)
    {
      var expected: nat := start;
      for i := 0 to |run|
        invariant Builder.Sequential(run, start) <==> Builder.Sequential(run[i..], expected)
      {
        assert run[i..][0] == run[i] && run[i..][1..] == run[i + 1..];
        if run[i] != expected || expected + 1 > U64_MAX {
          return false;
        }
        expected := expected + 1;
      }
      sequential := true;
    }

    method BuildBatch() returns (r: Result<BatchInput>)
      requires tree.Valid() && Builder.Reachable(Abs())
      ensures r == Builder.BuildBatch(Abs())
    {
      var sequential := CheckNonces();
      if !sequential {
        return Err(InvalidNonce);
      }
      TouchedSorted(Abs());
      var proven := tree.Witness(touched);
      if proven.Err? {
        return Err(InvalidStateProof);
      }
      var root := tree.Root();
      ghost var batch := Abs();
      var rankedOrders := RankOrders();
      r := Ok(BatchInput(domain, batchId, root, proven.value.0, proven.value.1, depositCursor, RankDeposits(),
                         forcedCursor, RankForced(), rankedOrders, RankWithdrawals(), Builder.SortBooks(rankedOrders, books), config));
      assert r.value == Builder.BatchOf(batch, root, proven.value);
    }

    function RankDeposits(): (r: seq<Deposit>)
      reads this, tree.state
      ensures r == Builder.RankDeposits(Abs())
    {
      seq(|deposits|, i requires 0 <= i < |deposits| reads this =>
        deposits[i].(index := Builder.KeyPosition(touched, deposits[i].account)))
    }

    function RankForced(): (r: seq<ForcedWithdrawal>)
      reads this, tree.state
      ensures r == Builder.RankForced(Abs())
    {
      seq(|forced|, i requires 0 <= i < |forced| reads this =>
        forced[i].(index := Some(Builder.KeyPosition(touched, forced[i].account))))
    }

    function RankOrders(): (r: seq<Order>)
      reads this, tree.state
      ensures r == Builder.RankOrders(Abs())
    {
      seq(|orders|, i requires 0 <= i < |orders| reads this =>
        orders[i].(index := Builder.KeyPosition(touched, orders[i].trader)))
    }

    function RankWithdrawals(): (r: seq<Withdrawal>)
      reads this, tree.state
      ensures r == Builder.RankWithdrawals(Abs())
    {
      seq(|withdrawals|, i requires 0 <= i < |withdrawals| reads this =>
        withdrawals[i].(index := Builder.KeyPosition(touched, withdrawals[i].account)))
    }
  }
}
