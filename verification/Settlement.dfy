/** The settlement engine as a whole (settlement/mod.rs): one batch in, one
    provable output or the first error. */
module Settlement {
  import opened Keys
  import opened Results
  import opened Types
  import opened Ledger
  import opened Operations
  import opened Validation
  import opened Nonces
  import opened Books
  import opened Matching
  import opened Trades
  import opened Tracker
  import opened Patricia

  datatype BatchInput = BatchInput(domain: SigningDomain, batchId: nat, expectedRoot: Digest,
                                   accounts: seq<Account>, proof: Multiproof,
                                   depositCursor: nat, deposits: seq<Deposit>,
                                   forcedCursor: nat, forced: seq<ForcedWithdrawal>,
                                   orders: seq<Order>, withdrawals: seq<Withdrawal>, books: seq<OrderBook>,
                                   config: ExchangeConfig)

  datatype PublicOutput = PublicOutput(domain: SigningDomain, batchId: nat, oldRoot: Digest, newRoot: Digest,
                                       configHash: Digest, batchHash: Digest, tradesHash: Digest,
                                       oldDepositCursor: nat, newDepositCursor: nat, depositsHash: Digest,
                                       oldForcedCursor: nat, forcedRequestsHash: Digest,
                                       withdrawalsHash: Digest, forcedWithdrawalsHash: Digest)

  datatype BatchOutput = BatchOutput(public: PublicOutput, accounts: seq<Account>, trades: seq<Trade>,
                                     withdrawals: seq<ExecutedWithdrawal>, forced: seq<ForcedWithdrawal>)

  /** The machine integers of the input types: u128 amounts and u64 nonces. */
  ghost predicate Typed(input: BatchInput) {
    && BalancesFit(input.accounts) && NoncesFit(input.accounts)
    && DepositsFit(input.deposits) && QuantitiesFit(input.orders)
    && (forall i :: 0 <= i < |input.forced| ==> input.forced[i].amount <= U128_MAX)
  }

  // ----- the stages

  function ValidateLimits(input: BatchInput): Check {
    if |input.accounts| > MAX_TOUCHED_ACCOUNTS_PER_BATCH then Fail(TooManyAccounts)
    else if |input.orders| > MAX_ORDERS_PER_BATCH then Fail(TooManyOrders)
    else if |input.deposits| > MAX_DEPOSITS_PER_BATCH then Fail(TooManyDeposits)
    else if |input.withdrawals| > MAX_WITHDRAWALS_PER_BATCH then Fail(TooManyWithdrawals)
    else if |input.forced| > MAX_FORCED_WITHDRAWALS_PER_BATCH then Fail(TooManyForcedWithdrawals)
    else if |input.config.assets| > MAX_ASSETS then Fail(TooManyAssets)
    else if |input.config.markets| > MAX_MARKETS then Fail(TooManyMarkets)
    else if |input.books| > MAX_MARKETS then Fail(TooManyMarkets)
    else Pass
  }

  /** Validation of the untouched input; gives the deposit cursor after it. */
  function Validate(input: BatchInput): Result<nat> {
    var limits := ValidateLimits(input);
    if limits.Fail? then Err(limits.error)
    else
      var config := ValidateConfig(input.config, input.accounts);
      if config.Fail? then Err(config.error)
      else
        var accounts := ValidateAccounts(input.accounts);
        if accounts.Fail? then Err(accounts.error)
        else
          var cursor :- ValidateDeposits(input.deposits, input.depositCursor, input.config);
          var root :- RootFromProof(input.accounts, input.proof);
          if root != input.expectedRoot then Err(OldStateRootMismatch) else Ok(cursor)
  }

  /** The tracker before anything is applied. */
  function Baseline(input: BatchInput): Result<Totals> {
    var held :- AddAccounts(map[], input.accounts);
    var funded :- AddDeposits(held, input.deposits);
    SubtractWithdrawals(funded, input.withdrawals)
  }

  /** Deposits in, forced withdrawals out. */
  function Admit(input: BatchInput, baseline: Totals): (r: Result<(seq<Account>, seq<ForcedWithdrawal>, Totals)>)
  {
    var deposited :- ApplyDeposits(input.accounts, input.deposits);
    var check := ValidateForced(input.forced, input.forcedCursor);
    if check.Fail? then Err(check.error)
    else
      var drained :- ApplyForced(deposited, input.forced);
      var totals :- SubtractForced(baseline, drained.1);
      Ok((drained.0, drained.1, totals))
  }

  function ValidateOperations(input: BatchInput, accounts: seq<Account>): Check {
    var withdrawals := ValidateWithdrawals(input.withdrawals, accounts, input.config);
    if withdrawals.Fail? then withdrawals
    else
      var orders := ValidateOrders(input.orders, accounts, input.config);
      if orders.Fail? then orders
      else
        AcceptedResolved(input, accounts);
        ValidateNonces(input.orders, input.withdrawals, accounts)
  }

  lemma AcceptedResolved(input: BatchInput, accounts: seq<Account>)
    requires ValidateWithdrawals(input.withdrawals, accounts, input.config).Pass?
    requires ScanOrders(input.orders, accounts, input.config).Pass?
    ensures OrdersAt(accounts, input.orders) && WithdrawalsResolved(input.withdrawals, accounts)
    ensures UsesResolved(Uses(input.orders, input.withdrawals), accounts)
  {
    OrdersAccepted(input.orders, accounts, input.config);
    WithdrawalsAccepted(input.withdrawals, accounts, input.config);
    assert forall i :: 0 <= i < |input.orders| ==> OrderAccepted(input.orders[i], accounts, input.config);
    assert forall i :: 0 <= i < |input.withdrawals| ==> WithdrawalAccepted(input.withdrawals[i], accounts, input.config);
  }

  /** Withdrawals out, nonces consumed. */
  function Consume(input: BatchInput, accounts: seq<Account>): (r: Result<seq<Account>>)
    requires ValidateOperations(input, accounts).Pass?
    ensures r.Ok? ==> SameIds(accounts, r.value)
  {
    AcceptedResolved(input, accounts);
    var paid :- ApplyWithdrawals(accounts, input.withdrawals);
    ConsumeNonces(paid, input.orders, input.withdrawals)
  }

  ghost predicate ScalesPositive(config: ExchangeConfig) {
    forall a :: a in config.assets ==> a.scale > 0
  }

  /** The order books matched against each other. */
  function Clear(input: BatchInput, accounts: seq<Account>): (r: Result<(seq<Account>, seq<Trade>)>)
    requires ScalesPositive(input.config) && OrdersAt(accounts, input.orders)
    ensures r.Ok? ==> SameIds(accounts, r.value.0)
  {
    var books :- BuildValidatedBooks(input.orders, input.books, input.config);
    BooksAcceptedExactly(input.orders, input.books, input.config);
    ResolvedReady(input.orders, input.books, input.config, books, accounts);
    MatchAndSettle(accounts, books, input.config)
  }

  lemma {:induction false} ResolvedReady(orders: seq<Order>, books: seq<OrderBook>, config: ExchangeConfig,
                                         built: seq<ValidatedBook>, accounts: seq<Account>)
    requires Resolved(orders, books, config, built) && ScalesPositive(config) && OrdersAt(accounts, orders)
    ensures BooksBound(built, |accounts|) && BooksListed(built, config)
    ensures QuantitiesFit(orders) ==> BooksReady(accounts, built)
  {
    if books != [] {
      ResolvedReady(orders, books[1..], config, built[1..], accounts);
      assert forall i :: 0 <= i < |books[0].buys| ==> orders[books[0].buys[i]] in orders;
      assert forall k :: 0 < k < |built| ==> built[k] == built[1..][k - 1];
    }
  }

  /** Everything up to the final tracker check. */
  datatype Settled = Settled(depositCursor: nat, accounts: seq<Account>, trades: seq<Trade>,
                             executed: seq<ForcedWithdrawal>, totals: Totals)

  function Stages(input: BatchInput): Result<Settled> {
    var cursor :- Validate(input);
    ConfigGuarantees(input.config, input.accounts);
    var baseline :- Baseline(input);
    var admitted :- Admit(input, baseline);
    var check := ValidateOperations(input, admitted.0);
    if check.Fail? then Err(check.error)
    else
      var consumed :- Consume(input, admitted.0);
      AcceptedResolved(input, admitted.0);
      var cleared :- Clear(input, consumed);
      Ok(Settled(cursor, cleared.0, cleared.1, admitted.1, admitted.2))
  }

  function DepositEntries(deposits: seq<Deposit>): (r: seq<QueueEntry>)
    ensures |r| == |deposits|
    ensures forall i :: 0 <= i < |r| ==>
              r[i] == QueueEntry(deposits[i].id, deposits[i].account, deposits[i].asset, deposits[i].amount)
  {
    seq(|deposits|, i requires 0 <= i < |deposits| =>
      QueueEntry(deposits[i].id, deposits[i].account, deposits[i].asset, deposits[i].amount))
  }

  function ForcedEntries(requests: seq<ForcedWithdrawal>): (r: seq<QueueEntry>)
    ensures |r| == |requests|
    ensures forall i :: 0 <= i < |r| ==>
              r[i] == QueueEntry(requests[i].id, requests[i].account, requests[i].asset, requests[i].amount)
  {
    seq(|requests|, i requires 0 <= i < |requests| =>
      QueueEntry(requests[i].id, requests[i].account, requests[i].asset, requests[i].amount))
  }

  function Executed(withdrawals: seq<Withdrawal>): (r: seq<ExecutedWithdrawal>)
    ensures |r| == |withdrawals|
    ensures forall i :: 0 <= i < |r| ==>
              r[i] == ExecutedWithdrawal(withdrawals[i].account, withdrawals[i].recipient, withdrawals[i].asset,
                                         withdrawals[i].amount, withdrawals[i].nonce)
  {
    seq(|withdrawals|, i requires 0 <= i < |withdrawals| =>
      ExecutedWithdrawal(withdrawals[i].account, withdrawals[i].recipient, withdrawals[i].asset,
                         withdrawals[i].amount, withdrawals[i].nonce))
  }

  function Records(orders: seq<Order>): (r: seq<OrderRecord>)
    ensures |r| == |orders|
    ensures forall i :: 0 <= i < |r| ==>
              r[i] == OrderRecord(orders[i].market, orders[i].side, orders[i].price, orders[i].quantity, orders[i].nonce,
                                  orders[i].trader, orders[i].sequence)
  {
    seq(|orders|, i requires 0 <= i < |orders| =>
      OrderRecord(orders[i].market, orders[i].side, orders[i].price, orders[i].quantity, orders[i].nonce,
                  orders[i].trader, orders[i].sequence))
  }

  function BuildOutput(input: BatchInput, settled: Settled, newRoot: Digest): BatchOutput {
    var withdrawals := Executed(input.withdrawals);
    BatchOutput(
      PublicOutput(input.domain, input.batchId, input.expectedRoot, newRoot, ConfigHash(input.config),
                   BatchHash(DomainHash(input.domain), input.batchId, input.expectedRoot, ConfigHash(input.config),
                             Records(input.orders)),
                   TradesHash(settled.trades), input.depositCursor, settled.depositCursor,
                   DepositsHash(DepositEntries(input.deposits)), input.forcedCursor,
                   ForcedWithdrawalsHash(ForcedEntries(input.forced)), WithdrawalsHash(withdrawals),
                   ForcedWithdrawalsHash(ForcedEntries(settled.executed))),
      settled.accounts, settled.trades, withdrawals, settled.executed)
  }

  function Outcome(input: BatchInput): Result<BatchOutput> {
    var settled :- Stages(input);
    var totals :- SubtractAccounts(settled.totals, settled.accounts);
    if totals != map[] then Err(AssetConservationViolation)
    else
      var newRoot :- RootFromProof(settled.accounts, input.proof);
      Ok(BuildOutput(input, settled, newRoot))
  }

  // ----- reading a settled batch

  /** What each stage of a settled batch computed. */
  lemma StagesUnfold(input: BatchInput) returns (baseline: Totals, admitted: seq<Account>, consumed: seq<Account>)
    requires Stages(input).Ok?
    ensures var settled := Stages(input).value;
            && Validate(input) == Ok(settled.depositCursor)
            && Baseline(input) == Ok(baseline)
            && Admit(input, baseline) == Ok((admitted, settled.executed, settled.totals))
            && ValidateOperations(input, admitted).Pass?
            && Consume(input, admitted) == Ok(consumed)
            && ScalesPositive(input.config) && OrdersAt(consumed, input.orders)
            && Clear(input, consumed) == Ok((settled.accounts, settled.trades))
  {
    hide Validate, Baseline, Admit, ValidateOperations, Consume, Clear;
    baseline := Baseline(input).value;
    var step := Admit(input, baseline).value;
    admitted := step.0;
    consumed := Consume(input, admitted).value;
    ValidateUnfold(input);
    ConfigGuarantees(input.config, input.accounts);
    OperationsUnfold(input, admitted);
    AcceptedResolved(input, admitted);
  }

  lemma ValidateUnfold(input: BatchInput)
    requires Validate(input).Ok?
    ensures ValidateConfig(input.config, input.accounts).Pass? && ValidateAccounts(input.accounts).Pass?
    ensures ValidateLimits(input).Pass?
    ensures ValidateDeposits(input.deposits, input.depositCursor, input.config) == Validate(input)
    ensures RootFromProof(input.accounts, input.proof) == Ok(input.expectedRoot)
  {
    hide ValidateConfig, ValidateAccounts, ValidateLimits, ValidateDeposits, RootFromProof;
  }

  lemma OperationsUnfold(input: BatchInput, accounts: seq<Account>)
    requires ValidateOperations(input, accounts).Pass?
    ensures ValidateWithdrawals(input.withdrawals, accounts, input.config).Pass?
    ensures ValidateOrders(input.orders, accounts, input.config).Pass?
    ensures ScanOrders(input.orders, accounts, input.config).Pass?
    ensures UsesResolved(Uses(input.orders, input.withdrawals), accounts)
    ensures ValidateNonces(input.orders, input.withdrawals, accounts).Pass?
  {
    hide ValidateNonces, ValidateWithdrawals, ScanOrders;
    AcceptedResolved(input, accounts);
  }
}
