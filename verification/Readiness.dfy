/** When the stages of a settlement succeed, exactly. */
module Readiness {
  import opened Results
  import opened Types
  import opened Ledger
  import opened Operations
  import opened Validation
  import opened Nonces
  import opened Books
  import opened Trades
  import opened Tracker
  import opened Patricia
  import opened Settlement
  import opened SettlementTheorems

  // ----- deposits

  lemma EntryFits(balances: seq<AssetBalance>, asset: AssetId)
    requires CanonicalBalances(balances)
    ensures EntrySum(balances, asset) <= U128_MAX
  {
    CanonicalMeans(balances);
    CanonicalPosition(balances, asset);
  }

  lemma {:induction false} HoldingFits(accounts: seq<Account>, id: AccountId, asset: AssetId)
    requires CanonicalAccounts(accounts)
    ensures Holding(accounts, id, asset) <= U128_MAX
  {
    if accounts != [] {
      EntryFits(accounts[0].balances, asset);
      HoldingFits(accounts[1..], id, asset);
    }
  }

  function IdSet(accounts: seq<Account>): set<AccountId> {
    set i | 0 <= i < |accounts| :: accounts[i].id
  }

  function DepositIds(deposits: seq<Deposit>): set<AccountId> {
    set i | 0 <= i < |deposits| :: deposits[i].account
  }

  lemma {:induction false} IdSetSize(accounts: seq<Account>)
    requires DistinctIds(accounts)
    ensures |IdSet(accounts)| == |accounts|
  {
    if accounts != [] {
      IdSetSize(accounts[1..]);
      assert IdSet(accounts) == {accounts[0].id} + IdSet(accounts[1..]) by {
        assert forall i :: 0 < i < |accounts| ==> accounts[i] == accounts[1..][i - 1];
        assert forall i :: 0 <= i < |accounts| - 1 ==> accounts[1..][i] == accounts[i + 1];
      }
      assert accounts[0].id !in IdSet(accounts[1..]);
    }
  }

  lemma IdSetHasId(accounts: seq<Account>)
    ensures forall id :: id in IdSet(accounts) <==> HasId(accounts, id)
  {
  }

  /** The new accounts fit under the limit on touched accounts. */
  predicate RoomFor(accounts: set<AccountId>, deposits: set<AccountId>) {
    deposits <= accounts || |accounts + deposits| <= MAX_TOUCHED_ACCOUNTS_PER_BATCH
  }

  /** No account's balance of an asset outgrows a u128. */
  ghost predicate SumsFit(accounts: seq<Account>, deposits: seq<Deposit>) {
    forall id, a :: Holding(accounts, id, a) + Deposited(deposits, id, a) <= U128_MAX
  }

  lemma DepositSucceeds(accounts: seq<Account>, deposit: Deposit)
    requires ValidAccounts(accounts) && deposit.amount <= U128_MAX
    ensures ApplyDeposit(accounts, deposit).Ok? <==>
              && Holding(accounts, deposit.account, deposit.asset) + deposit.amount <= U128_MAX
              && (HasId(accounts, deposit.account) || |accounts| < MAX_TOUCHED_ACCOUNTS_PER_BATCH)
  {
    LocateIsSearch(accounts, deposit);
    SearchFinds(accounts, deposit.account);
    HoldingFits(accounts, deposit.account, deposit.asset);
    match SearchId(accounts, deposit.account)
    case Found(i) =>
      CreditEffect(accounts[i], deposit.asset, deposit.amount);
      LookupAt(accounts, i);
    case Missing(_) =>
      CreditEffect(Account(deposit.account, [], 0), deposit.asset, deposit.amount);
      LookupAbsent(accounts, deposit.account);
  }

  lemma DepositIdsStep(deposits: seq<Deposit>)
    requires deposits != []
    ensures DepositIds(deposits) == {deposits[0].account} + DepositIds(deposits[1..])
  {
    assert forall i :: 0 < i < |deposits| ==> deposits[i] == deposits[1..][i - 1];
    assert forall i :: 0 <= i < |deposits| - 1 ==> deposits[1..][i] == deposits[i + 1];
  }

  lemma IdSetStep(accounts: seq<Account>, next: seq<Account>, added: AccountId)
    requires forall id :: HasId(next, id) <==> HasId(accounts, id) || id == added
    ensures IdSet(next) == IdSet(accounts) + {added}
  {
    hide HasId, IdSet;
    IdSetHasId(accounts);
    IdSetHasId(next);
  }

  /** Taking in one id first leaves the question of room as it was. */
  lemma RoomStep(accounts: set<AccountId>, id: AccountId, rest: set<AccountId>)
    requires id in accounts || |accounts| < MAX_TOUCHED_ACCOUNTS_PER_BATCH
    ensures RoomFor(accounts, {id} + rest) <==> RoomFor(accounts + {id}, rest)
  {
    assert (accounts + {id}) + rest == accounts + ({id} + rest);
    if id in accounts {
      assert accounts + {id} == accounts;
    } else if rest <= accounts + {id} {
      assert (accounts + {id}) + rest == accounts + {id};
    }
  }

  lemma SubsetSize<T>(a: set<T>, b: set<T>)
    requires a <= b
    ensures |a| <= |b|
  {
    assert b == a + (b - a);
  }

  /** THEOREM. Deposits succeed exactly when no balance outgrows a u128 and the
      accounts they create fit under the limit. */
  lemma {:induction false} DepositsSucceedExactly(accounts: seq<Account>, deposits: seq<Deposit>)
    requires ValidAccounts(accounts) && DepositsFit(deposits)
    ensures ApplyDeposits(accounts, deposits).Ok? <==>
              SumsFit(accounts, deposits) && RoomFor(IdSet(accounts), DepositIds(deposits))
    decreases |deposits|
  {
    hide ApplyDeposit, IdSet, DepositIds, ValidAccounts, HasId;
    if deposits == [] {
      assert DepositIds(deposits) == {} by { NoDepositIds(deposits); }
      assert ApplyDeposits(accounts, deposits).Ok?;
      forall id, a ensures Holding(accounts, id, a) + Deposited(deposits, id, a) <= U128_MAX {
        AllHoldingsFit(accounts, id, a);
      }
    } else {
      var d := deposits[0];
      DepositSucceeds(accounts, d);
      if ApplyDeposit(accounts, d).Ok? {
        var next := ApplyDeposit(accounts, d).value;
        DepositKeepsForm(accounts, d, next);
        DepositsSucceedExactly(next, deposits[1..]);
        FirstDepositIn(accounts, deposits, next);
      } else {
        FirstDepositOut(accounts, deposits);
      }
    }
  }

  lemma AllHoldingsFit(accounts: seq<Account>, id: AccountId, asset: AssetId)
    requires ValidAccounts(accounts)
    ensures Holding(accounts, id, asset) <= U128_MAX
  {
    HoldingFits(accounts, id, asset);
  }

  lemma NoDepositIds(deposits: seq<Deposit>)
    requires deposits == []
    ensures DepositIds(deposits) == {}
  {
  }

  lemma ValidDistinct(accounts: seq<Account>)
    requires ValidAccounts(accounts)
    ensures DistinctIds(accounts)
  {
  }

  lemma FirstDepositIn(accounts: seq<Account>, deposits: seq<Deposit>, next: seq<Account>)
    requires ValidAccounts(accounts) && ValidAccounts(next) && deposits != [] && deposits[0].amount <= U128_MAX
    requires ApplyDeposit(accounts, deposits[0]) == Ok(next)
    requires forall id :: HasId(next, id) <==> HasId(accounts, id) || id == deposits[0].account
    ensures SumsFit(accounts, deposits) <==> SumsFit(next, deposits[1..])
    ensures RoomFor(IdSet(accounts), DepositIds(deposits)) <==> RoomFor(IdSet(next), DepositIds(deposits[1..]))
  {
    var d := deposits[0];
    hide ApplyDeposit, IdSet, DepositIds, RoomFor, HasId, ValidAccounts, SumsFit;
    forall id, a ensures Holding(accounts, id, a) + Deposited(deposits, id, a) == Holding(next, id, a) + Deposited(deposits[1..], id, a) {
      DepositMoves(accounts, d, next, id);
    }
    SumsShift(accounts, deposits, next, deposits[1..]);
    DepositSucceeds(accounts, d);
    ValidDistinct(accounts);
    IdSetHasId(accounts);
    IdSetSize(accounts);
    IdSetStep(accounts, next, d.account);
    DepositIdsStep(deposits);
    RoomStep(IdSet(accounts), d.account, DepositIds(deposits[1..]));
  }

  lemma SumsShift(a: seq<Account>, deposits: seq<Deposit>, b: seq<Account>, rest: seq<Deposit>)
    requires forall id, x :: Holding(a, id, x) + Deposited(deposits, id, x) == Holding(b, id, x) + Deposited(rest, id, x)
    ensures SumsFit(a, deposits) <==> SumsFit(b, rest)
  {
    if SumsFit(a, deposits) {
      forall id, x ensures Holding(b, id, x) + Deposited(rest, id, x) <= U128_MAX {
        assert Holding(a, id, x) + Deposited(deposits, id, x) <= U128_MAX;
      }
    }
    if SumsFit(b, rest) {
      forall id, x ensures Holding(a, id, x) + Deposited(deposits, id, x) <= U128_MAX {
        assert Holding(b, id, x) + Deposited(rest, id, x) <= U128_MAX;
      }
    }
  }

  lemma FirstDepositOut(accounts: seq<Account>, deposits: seq<Deposit>)
    requires ValidAccounts(accounts) && deposits != []
    requires Holding(accounts, deposits[0].account, deposits[0].asset) + deposits[0].amount > U128_MAX
             || (!HasId(accounts, deposits[0].account) && |accounts| >= MAX_TOUCHED_ACCOUNTS_PER_BATCH)
    ensures !(SumsFit(accounts, deposits) && RoomFor(IdSet(accounts), DepositIds(deposits)))
  {
    var d := deposits[0];
    if Holding(accounts, d.account, d.asset) + d.amount > U128_MAX {
      assert Holding(accounts, d.account, d.asset) + Deposited(deposits, d.account, d.asset) > U128_MAX;
    } else {
      ValidDistinct(accounts);
      IdSetHasId(accounts);
      IdSetSize(accounts);
      assert d.account in DepositIds(deposits) && d.account !in IdSet(accounts);
      assert |IdSet(accounts) + {d.account}| == |accounts| + 1;
      SubsetSize(IdSet(accounts) + {d.account}, IdSet(accounts) + DepositIds(deposits));
    }
  }

  // ----- validation of the untouched input

  /** No more than 1001 accounts, and 1000 of everything else. */
  predicate WithinLimits(input: BatchInput) {
    && |input.accounts| <= 1_001 && |input.orders| <= 1_000 && |input.deposits| <= 1_000
    && |input.withdrawals| <= 1_000 && |input.forced| <= 1_000
    && |input.config.assets| <= 1_000 && |input.config.markets| <= 1_000 && |input.books| <= 1_000
  }

  /** The deposits are the next ones of the queue, in known assets. */
  ghost predicate DepositsInTurn(input: BatchInput) {
    && (forall i :: 0 <= i < |input.deposits| ==>
          && input.deposits[i].id == input.depositCursor + i && input.deposits[i].amount > 0
          && AssetKnown(input.config.assets, input.deposits[i].asset))
    && (input.deposits != [] ==> input.depositCursor + |input.deposits| <= U64_MAX)
  }

  /** THEOREM (what is valid). A batch passes validation exactly when it is within
      the limits, its configuration is in order with a fee of at most all of the
      value and a touched fee recipient, its accounts are sorted and canonical,
      its deposits are next in the queue, and its proof opens the root it names. */
  lemma ValidatedExactly(input: BatchInput)
    requires BalancesFit(input.accounts)
    ensures Validate(input).Ok? <==>
              && WithinLimits(input)
              && AssetsProper(input.config.assets) && MarketsProper(input.config.assets, input.config.markets)
              && input.config.fees.buyerFeeBps <= 10_000 && HasId(input.accounts, input.config.fees.recipient)
              && ValidAccounts(input.accounts) && DepositsInTurn(input)
              && RootFromProof(input.accounts, input.proof) == Ok(input.expectedRoot)
    ensures Validate(input).Ok? ==> Validate(input).value == input.depositCursor + |input.deposits|
  {
    hide ValidateConfig, ValidateAccounts, ValidateDeposits, RootFromProof, AssetsProper, MarketsProper, HasId, ValidAccounts, AssetKnown;
    ConfigAcceptedExactly(input.config, input.accounts);
    AccountsValidated(input.accounts);
    DepositsConsecutive(input.deposits, input.depositCursor, input.config);
    forall i | 0 <= i < |input.deposits|
      ensures FindAsset(input.config.assets, input.deposits[i].asset).Some? <==> AssetKnown(input.config.assets, input.deposits[i].asset)
    {
      FindsKnown(input.config.assets, input.deposits[i].asset);
    }
  }

  // ----- the tracker

  /** The batch's accounts and deposits together fit the tracker. */
  ghost predicate Funded(input: BatchInput) {
    forall a :: Total(input.accounts, a) + DepositedTotal(input.deposits, a) <= U128_MAX
  }

  /** The baseline fails by overflow, or when more is withdrawn than is there. */
  lemma BaselineExactly(input: BatchInput)
    requires CanonicalAccounts(input.accounts)
    requires forall i :: 0 <= i < |input.deposits| ==> input.deposits[i].amount > 0
    ensures Baseline(input).Ok? <==>
              && Funded(input)
              && forall a :: WithdrawnTotal(input.withdrawals, a) <= Total(input.accounts, a) + DepositedTotal(input.deposits, a)
  {
    hide Tracked, AddAccounts, AddDeposits, SubtractWithdrawals, CanonicalAccounts, Total, DepositedTotal, WithdrawnTotal;
    var none: Totals := map[];
    EmptyTracks();
    AccountsAddExactly(none, input.accounts);
    if AddAccounts(none, input.accounts).Ok? {
      var held := AddAccounts(none, input.accounts).value;
      DepositsAddExactly(held, input.deposits);
      if AddDeposits(held, input.deposits).Ok? {
        var funded := AddDeposits(held, input.deposits).value;
        WithdrawalsTracked(funded, input.withdrawals);
        forall a ensures Total(input.accounts, a) + DepositedTotal(input.deposits, a) == Tracked(funded, a) <= U128_MAX {
        }
      }
    }
  }

  // ----- everything before matching

  function Prepare(input: BatchInput): Result<seq<Account>> {
    var cursor :- Validate(input);
    var baseline :- Baseline(input);
    var admitted :- Admit(input, baseline);
    var check := ValidateOperations(input, admitted.0);
    if check.Fail? then Err(check.error) else Consume(input, admitted.0)
  }

  /** The stages are what comes before matching, and matching. */
  lemma StagesSplit(input: BatchInput)
    ensures Prepare(input).Ok? ==> ScalesPositive(input.config) && OrdersAt(Prepare(input).value, input.orders)
    ensures Stages(input).Ok? <==> Prepare(input).Ok? && Clear(input, Prepare(input).value).Ok?
  {
    hide Validate, Baseline, Admit, ValidateOperations, Consume, Clear;
    if Prepare(input).Ok? {
      var baseline := Baseline(input).value;
      var admitted := Admit(input, baseline).value.0;
      ValidateUnfold(input);
      ConfigGuarantees(input.config, input.accounts);
      OperationsUnfold(input, admitted);
      AcceptedResolved(input, admitted);
    }
  }

  /** What the executable stages ask of a validated batch. */
  ghost predicate Ready(input: BatchInput) {
    && Funded(input) && RoomFor(IdSet(input.accounts), DepositIds(input.deposits))
    && ValidateForced(input.forced, input.forcedCursor).Pass?
    && ApplyDeposits(input.accounts, input.deposits).Ok?
    && var drained := ApplyForced(ApplyDeposits(input.accounts, input.deposits).value, input.forced);
    && drained.Ok?
    && ValidateOperations(input, drained.value.0).Pass? && Operations.Covered(input.withdrawals, drained.value.0)
  }

  lemma {:induction false} HoldingInTotal(accounts: seq<Account>, id: AccountId, asset: AssetId)
    ensures Holding(accounts, id, asset) <= Total(accounts, asset)
  {
    if accounts != [] {
      HoldingInTotal(accounts[1..], id, asset);
    }
  }

  lemma {:induction false} DepositedInTotal(deposits: seq<Deposit>, id: AccountId, asset: AssetId)
    ensures Deposited(deposits, id, asset) <= DepositedTotal(deposits, asset)
  {
    if deposits != [] {
      DepositedInTotal(deposits[1..], id, asset);
    }
  }

  /** Within the tracker's range deposits only need room. */
  lemma FundedDeposits(input: BatchInput)
    requires ValidAccounts(input.accounts) && DepositsFit(input.deposits) && Funded(input)
    ensures ApplyDeposits(input.accounts, input.deposits).Ok? <==> RoomFor(IdSet(input.accounts), DepositIds(input.deposits))
  {
    hide RoomFor, IdSet, DepositIds, ApplyDeposits;
    DepositsSucceedExactly(input.accounts, input.deposits);
    forall id, a ensures Holding(input.accounts, id, a) + Deposited(input.deposits, id, a) <= U128_MAX {
      HoldingInTotal(input.accounts, id, a);
      DepositedInTotal(input.deposits, id, a);
    }
  }

  /** The accounts once deposits are in and forced withdrawals out. */
  lemma DrainedAccounts(input: BatchInput, deposited: seq<Account>)
    requires ValidAccounts(input.accounts) && DepositsFit(input.deposits) && NoncesFit(input.accounts)
    requires ApplyDeposits(input.accounts, input.deposits) == Ok(deposited)
    ensures ApplyForced(deposited, input.forced).Ok?
    ensures var (drained, executed) := ApplyForced(deposited, input.forced).value;
            && ValidAccounts(drained) && NoncesFit(drained) && SameIds(deposited, drained)
            && (forall id :: NextNonce(drained, id) == NextNonce(input.accounts, id))
            && (forall id :: HasId(drained, id) <==> HasId(input.accounts, id) || DepositsTo(input.deposits, id))
            && (forall id, a :: Holding(drained, id, a) ==
                  Holding(input.accounts, id, a) + Deposited(input.deposits, id, a) - Drained(executed, id, a))
            && (forall a :: Total(drained, a) == Total(input.accounts, a) + DepositedTotal(input.deposits, a) - DrainedTotal(executed, a))
  {
    hide ApplyDeposits, ApplyForced, HasId, DepositsTo, NoncesFit, SameIds, Granted;
    DepositsRefineAddition(input.accounts, input.deposits, deposited);
    ForcedDrainsExactly(deposited, input.forced);
    var drained := ApplyForced(deposited, input.forced).value.0;
    SameIdsHasId(deposited, drained);
    NoncesFitById(input.accounts, drained);
  }

  /** Accepted operations can be carried out exactly when they are covered. */
  lemma ConsumeExactly(input: BatchInput, accounts: seq<Account>)
    requires ValidAccounts(accounts) && NoncesFit(accounts) && ValidateOperations(input, accounts).Pass?
    ensures Consume(input, accounts).Ok? <==> Operations.Covered(input.withdrawals, accounts)
    ensures Operations.Covered(input.withdrawals, accounts) ==> forall a :: WithdrawnTotal(input.withdrawals, a) <= Total(accounts, a)
  {
    hide ValidateNonces, ApplyWithdrawals, ConsumeNonces, ValidateOrders, ValidateWithdrawals, ScanOrders, UsesResolved, OrdersAt,
      WithdrawalsResolved, Uses, ValidAccounts, NoncesFit, SameIds, Operations.Covered, Holding, Withdrawn;
    OperationsUnfold(input, accounts);
    AcceptedResolved(input, accounts);
    WithdrawalsPositive(input, accounts);
    WithdrawalsAreExact(accounts, input.withdrawals);
    if Operations.Covered(input.withdrawals, accounts) {
      var paid := ApplyWithdrawals(accounts, input.withdrawals).value;
      forall a ensures WithdrawnTotal(input.withdrawals, a) <= Total(accounts, a) {
        assert Total(paid, a) == Total(accounts, a) - WithdrawnTotal(input.withdrawals, a);
      }
      NoncesFitById(accounts, paid);
      NoncesSurvive(input.orders, input.withdrawals, accounts, paid);
      ConsumptionAdvances(input.orders, input.withdrawals, paid);
    }
  }

  /** THEOREM. A validated batch reaches matching exactly when the tracker and
      the account limit have room, the forced queue is in order, every
      operation is accepted and every withdrawal is covered. */
  lemma PreparedExactly(input: BatchInput)
    requires Typed(input) && Validate(input).Ok?
    ensures Prepare(input).Ok? <==> Ready(input)
  {
    hide ApplyDeposits, ApplyForced, Baseline, Consume, ValidateOperations, ValidateForced, Operations.Covered, SubtractForced, Validate,
      ValidAccounts, CanonicalAccounts, IdSet, DepositIds, RoomFor, ValidateAccounts, HasId, DepositsTo, Holding, Total, Drained;
    ValidateUnfold(input);
    AccountsValidated(input.accounts);
    ValidMeans(input.accounts);
    DepositsConsecutive(input.deposits, input.depositCursor, input.config);
    BaselineExactly(input);
    if Funded(input) {
      FundedDeposits(input);
      if ApplyDeposits(input.accounts, input.deposits).Ok? {
        var deposited := ApplyDeposits(input.accounts, input.deposits).value;
        DrainedAccounts(input, deposited);
        ReadyFromDrained(input, deposited);
      }
    }
  }

  lemma ValidMeans(accounts: seq<Account>)
    ensures ValidAccounts(accounts) ==> CanonicalAccounts(accounts)
  {
  }

  lemma ReadyFromDrained(input: BatchInput, deposited: seq<Account>)
    requires Validate(input).Ok? && Funded(input) && CanonicalAccounts(input.accounts)
    requires forall i :: 0 <= i < |input.deposits| ==> input.deposits[i].amount > 0
    requires ApplyDeposits(input.accounts, input.deposits) == Ok(deposited) && ApplyForced(deposited, input.forced).Ok?
    requires RoomFor(IdSet(input.accounts), DepositIds(input.deposits))
    requires var (drained, executed) := ApplyForced(deposited, input.forced).value;
             && ValidAccounts(drained) && NoncesFit(drained)
             && (forall a :: Total(drained, a) == Total(input.accounts, a) + DepositedTotal(input.deposits, a) - DrainedTotal(executed, a))
    ensures Prepare(input).Ok? <==> Ready(input)
  {
    hide ApplyDeposits, ApplyForced, Baseline, Consume, ValidateOperations, ValidateForced, Operations.Covered, SubtractForced, Validate,
      ValidAccounts, CanonicalAccounts, IdSet, DepositIds, RoomFor, Total, NoncesFit, Funded, DepositedTotal, DrainedTotal;
    var (drained, executed) := ApplyForced(deposited, input.forced).value;
    BaselineExactly(input);
    if ValidateOperations(input, drained).Pass? {
      ConsumeExactly(input, drained);
    }
    if Baseline(input).Ok? {
      var baseline := Baseline(input).value;
      BaselineTracks(input, baseline);
      ForcedTracked(baseline, executed);
    }
    if Ready(input) {
      forall a ensures WithdrawnTotal(input.withdrawals, a) + DrainedTotal(executed, a)
                         <= Total(input.accounts, a) + DepositedTotal(input.deposits, a)
      {
        assert WithdrawnTotal(input.withdrawals, a) <= Total(drained, a);
      }
    }
  }

  /** Matching itself goes through. */
  predicate Clears(input: BatchInput)
    requires Prepare(input).Ok?
  {
    StagesSplit(input);
    Clear(input, Prepare(input).value).Ok?
  }

  /** What preparation leaves every account, and in all. */
  lemma PreparedHoldings(input: BatchInput)
    requires Typed(input) && Prepare(input).Ok?
    ensures ApplyDeposits(input.accounts, input.deposits).Ok?
    ensures ApplyForced(ApplyDeposits(input.accounts, input.deposits).value, input.forced).Ok?
    ensures ValidAccounts(Prepare(input).value)
    ensures forall k :: HasId(Prepare(input).value, k) <==> HasId(input.accounts, k) || DepositsTo(input.deposits, k)
    ensures var executed := ApplyForced(ApplyDeposits(input.accounts, input.deposits).value, input.forced).value.1;
            forall id, a :: Holding(Prepare(input).value, id, a) == Holding(input.accounts, id, a) + Deposited(input.deposits, id, a)
              - Drained(executed, id, a) - Withdrawn(input.withdrawals, id, a)
    ensures forall a :: Total(Prepare(input).value, a) <= U128_MAX
  {
    hide Validate, Baseline, Admit, ValidateOperations, Consume, ApplyDeposits, ApplyForced, HasId, DepositsTo, Drained, Withdrawn,
      Deposited, Holding, Total, ConsumesRuns, Pairs, ValidateForced, SubtractForced, NoncesFit, CanonicalAccounts, DepositedTotal,
      DrainedTotal, WithdrawnTotal;
    ValidateUnfold(input);
    AccountsValidated(input.accounts);
    ValidMeans(input.accounts);
    DepositsConsecutive(input.deposits, input.depositCursor, input.config);
    BaselineExactly(input);
    var baseline := Baseline(input).value;
    var admitted := Admit(input, baseline).value.0;
    var deposited := AdmitUnfold(input, baseline);
    DrainedAccounts(input, deposited);
    ConsumeConserves(input, admitted, Prepare(input).value);
    SameIdsHasId(admitted, Prepare(input).value);
    forall a ensures Total(Prepare(input).value, a) <= U128_MAX {
      assert Total(input.accounts, a) + DepositedTotal(input.deposits, a) <= U128_MAX;
    }
  }

  /** Without orders there is nothing to match. */
  lemma IdleMatching(input: BatchInput, accounts: seq<Account>)
    requires input.orders == [] && input.books == [] && ScalesPositive(input.config)
    requires SortedById(accounts) && HasId(accounts, input.config.fees.recipient)
    ensures OrdersAt(accounts, input.orders) && Clear(input, accounts) == Ok((accounts, []))
  {
    assert BuildValidatedBooks(input.orders, input.books, input.config) == Ok([]);
    SearchFinds(accounts, input.config.fees.recipient);
  }

  lemma IdleClears(input: BatchInput)
    requires Typed(input) && Prepare(input).Ok? && input.orders == [] && input.books == []
    requires HasId(input.accounts, input.config.fees.recipient)
    ensures Clears(input)
  {
    hide Prepare, Clear, HasId;
    StagesSplit(input);
    PreparedHoldings(input);
    IdleMatching(input, Prepare(input).value);
  }
}
