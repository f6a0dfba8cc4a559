/** What a settled batch guarantees: conservation, exact nonce use and a final
    tracker check that cannot fail. */
module SettlementTheorems {
  import opened Keys
  import opened Results
  import opened Types
  import opened Ledger
  import opened Operations
  import opened Validation
  import opened Nonces
  import opened Books
  import opened Matching
  import opened Trades
  import opened Tracker
  import opened Patricia
  import opened Settlement

  // ----- stage by stage

  lemma BaselineTracks(input: BatchInput, baseline: Totals)
    requires CanonicalAccounts(input.accounts)
    requires forall i :: 0 <= i < |input.deposits| ==> input.deposits[i].amount > 0
    requires Baseline(input) == Ok(baseline)
    ensures NoZero(baseline)
    ensures forall a :: Tracked(baseline, a) == Total(input.accounts, a) + DepositedTotal(input.deposits, a)
                                                - WithdrawnTotal(input.withdrawals, a)
  {
    hide Tracked, CanonicalAccounts;
    EmptyTracks();
    AccountsAddExactly(map[], input.accounts);
    var held := AddAccounts(map[], input.accounts).value;
    DepositsAddExactly(held, input.deposits);
    var funded := AddDeposits(held, input.deposits).value;
    WithdrawalsTracked(funded, input.withdrawals);
  }

  lemma EmptyTracks()
    ensures forall a :: Tracked(map[], a) == 0
  {
  }

  lemma AdmitUnfold(input: BatchInput, baseline: Totals) returns (deposited: seq<Account>)
    requires Admit(input, baseline).Ok?
    ensures ApplyDeposits(input.accounts, input.deposits) == Ok(deposited)
    ensures ValidateForced(input.forced, input.forcedCursor).Pass?
    ensures ApplyForced(deposited, input.forced).Ok?
    ensures var (accounts, executed, totals) := Admit(input, baseline).value;
            && ApplyForced(deposited, input.forced) == Ok((accounts, executed))
            && SubtractForced(baseline, executed) == Ok(totals)
  {
    hide ApplyDeposits, ApplyForced, SubtractForced, ValidateForced;
    deposited := ApplyDeposits(input.accounts, input.deposits).value;
  }

  /** Deposits and drains, by account, in total and in the tracker. */
  lemma AdmitConserves(input: BatchInput, baseline: Totals, accounts: seq<Account>, executed: seq<ForcedWithdrawal>, totals: Totals)
    requires ValidAccounts(input.accounts) && DepositsFit(input.deposits) && NoZero(baseline)
    requires Admit(input, baseline) == Ok((accounts, executed, totals))
    ensures ValidAccounts(accounts) && NoZero(totals)
    ensures forall id :: HasId(accounts, id) <==> HasId(input.accounts, id) || DepositsTo(input.deposits, id)
    ensures forall id :: NextNonce(accounts, id) == NextNonce(input.accounts, id)
    ensures forall a :: Total(accounts, a) == Total(input.accounts, a) + DepositedTotal(input.deposits, a) - DrainedTotal(executed, a)
    ensures forall a :: Tracked(totals, a) == Tracked(baseline, a) - DrainedTotal(executed, a)
    ensures forall id, a :: Holding(accounts, id, a) ==
              Holding(input.accounts, id, a) + Deposited(input.deposits, id, a) - Drained(executed, id, a)
    ensures |executed| == |input.forced|
  {
    var deposited := AdmitUnfold(input, baseline);
    hide Admit, Tracked, ApplyDeposits, SubtractForced;
    DepositsRefineAddition(input.accounts, input.deposits, deposited);
    ForcedDrainsExactly(deposited, input.forced);
    ForcedTracked(baseline, executed);
    SameIdsHasId(deposited, accounts);
  }

  /** Forced request `i` of a batch is executed for the smaller of the amount
      asked for and what its account held and was deposited, less what the
      requests before it took; for zero when its hint is not the account's
      position. */
  ghost predicate DrainedAt(input: BatchInput, accounts: seq<Account>, executed: seq<ForcedWithdrawal>, i: nat)
    requires i < |input.forced| == |executed|
  {
    var f := input.forced[i];
    var left := Holding(input.accounts, f.account, f.asset) + Deposited(input.deposits, f.account, f.asset)
                - Drained(executed[..i], f.account, f.asset);
    && left >= 0
    && executed[i] == f.(amount := if HintMatches(accounts, f) then Min(f.amount, left) else 0)
  }

  lemma DepositedDrains(input: BatchInput, deposited: seq<Account>)
    requires ValidAccounts(input.accounts) && DepositsFit(input.deposits)
    requires ApplyDeposits(input.accounts, input.deposits) == Ok(deposited) && ApplyForced(deposited, input.forced).Ok?
    ensures var (drained, executed) := ApplyForced(deposited, input.forced).value;
            |executed| == |input.forced| && forall i :: 0 <= i < |input.forced| ==> DrainedAt(input, drained, executed, i)
  {
    var (drained, executed) := ApplyForced(deposited, input.forced).value;
    hide ApplyDeposits, ApplyForced;
    DepositsRefineAddition(input.accounts, input.deposits, deposited);
    ForcedDrainsExactly(deposited, input.forced);
    forall i | 0 <= i < |input.forced| ensures DrainedAt(input, drained, executed, i) {
      assert Granted(deposited, input.forced, executed, i);
      assert HintMatches(deposited, input.forced[i]) <==> HintMatches(drained, input.forced[i]);
    }
  }

  lemma AdmitDrains(input: BatchInput, baseline: Totals, settled: seq<Account>)
    requires ValidAccounts(input.accounts) && DepositsFit(input.deposits)
    requires Admit(input, baseline).Ok? && SameIds(Admit(input, baseline).value.0, settled)
    ensures |Admit(input, baseline).value.1| == |input.forced|
    ensures forall i :: 0 <= i < |input.forced| ==> DrainedAt(input, settled, Admit(input, baseline).value.1, i)
  {
    var deposited := AdmitUnfold(input, baseline);
    var (drained, executed, _) := Admit(input, baseline).value;
    hide Admit, ApplyDeposits, SubtractForced, ApplyForced;
    DepositedDrains(input, deposited);
    forall i | 0 <= i < |input.forced| ensures DrainedAt(input, settled, executed, i) {
      assert DrainedAt(input, drained, executed, i);
      assert HintMatches(drained, input.forced[i]) <==> HintMatches(settled, input.forced[i]);
    }
  }

  /** How much each forced request of a batch is drained. */
  lemma StagesDrain(input: BatchInput)
    requires Typed(input) && Stages(input).Ok?
    ensures var settled := Stages(input).value;
            && |settled.executed| == |input.forced|
            && forall i :: 0 <= i < |input.forced| ==> DrainedAt(input, settled.accounts, settled.executed, i)
  {
    var baseline, admitted, consumed := StagesUnfold(input);
    hide Stages, Admit, ValidateOperations, Consume, Clear, Baseline, DrainedAt;
    ValidateUnfold(input);
    hide Validate;
    AccountsValidated(input.accounts);
    AdmitDrains(input, baseline, Stages(input).value.accounts);
  }

  lemma SameIdsHasId(a: seq<Account>, b: seq<Account>)
    requires SameIds(a, b)
    ensures forall id :: HasId(a, id) <==> HasId(b, id)
  {
    forall id ensures HasId(a, id) <==> HasId(b, id) {
      if HasId(a, id) { var i :| 0 <= i < |a| && a[i].id == id; assert b[i].id == id; }
      if HasId(b, id) { var i :| 0 <= i < |b| && b[i].id == id; assert a[i].id == id; }
    }
  }

  /** A nonce bound on every account, read through ids. */
  lemma NoncesFitById(a: seq<Account>, b: seq<Account>)
    requires NoncesFit(a) && ValidAccounts(b)
    requires forall id :: NextNonce(b, id) == NextNonce(a, id)
    ensures NoncesFit(b)
  {
    forall i | 0 <= i < |b| ensures b[i].nextNonce <= U64_MAX {
      LookupAt(b, i);
      NextNonceFits(a, b[i].id);
    }
  }

  lemma {:induction false} NextNonceFits(accounts: seq<Account>, id: AccountId)
    requires NoncesFit(accounts)
    ensures NextNonce(accounts, id) <= U64_MAX
  {
    if accounts != [] {
      NextNonceFits(accounts[1..], id);
    }
  }

  // ----- nonces by account

  /** Every (account, nonce) pair the batch consumes. */
  function Pairs(orders: seq<Order>, withdrawals: seq<Withdrawal>): (r: seq<(AccountId, nat)>)
    ensures |r| == |orders| + |withdrawals|
    ensures forall k :: 0 <= k < |r| ==>
              r[k] == if k < |orders| then (orders[k].trader, orders[k].nonce)
                      else (withdrawals[k - |orders|].account, withdrawals[k - |orders|].nonce)
  {
    seq(|orders| + |withdrawals|, k requires 0 <= k < |orders| + |withdrawals| =>
      if k < |orders| then (orders[k].trader, orders[k].nonce)
      else (withdrawals[k - |orders|].account, withdrawals[k - |orders|].nonce))
  }

  ghost predicate PairsMatch(pairs: seq<(AccountId, nat)>, uses: seq<Use>, accounts: seq<Account>) {
    && |pairs| == |uses|
    && forall k :: 0 <= k < |uses| ==>
         uses[k].index < |accounts| && pairs[k] == (accounts[uses[k].index].id, uses[k].nonce)
  }

  lemma CountHead<T>(s: seq<T>, x: T)
    requires s != []
    ensures multiset(s)[x] == (if s[0] == x then 1 else 0) + multiset(s[1..])[x]
  {
    assert s == [s[0]] + s[1..];
  }

  lemma PairsTail(pairs: seq<(AccountId, nat)>, uses: seq<Use>, accounts: seq<Account>)
    requires PairsMatch(pairs, uses, accounts) && pairs != []
    ensures uses != [] && uses[0].index < |accounts| && pairs[0] == (accounts[uses[0].index].id, uses[0].nonce)
    ensures PairsMatch(pairs[1..], uses[1..], accounts)
  {
  }

  lemma {:induction false} PairsCountUses(pairs: seq<(AccountId, nat)>, uses: seq<Use>, accounts: seq<Account>, i: nat, v: nat)
    requires PairsMatch(pairs, uses, accounts) && DistinctIds(accounts) && i < |accounts|
    ensures multiset(pairs)[(accounts[i].id, v)] == multiset(uses)[Use(i, v)]
    decreases |pairs|
  {
    if pairs == [] {
      assert uses == [];
    } else {
      hide PairsMatch;
      PairsTail(pairs, uses, accounts);
      PairsCountUses(pairs[1..], uses[1..], accounts, i, v);
      CountHead(pairs, (accounts[i].id, v));
      CountHead(uses, Use(i, v));
    }
  }

  lemma {:induction false} PairsOfAccounts(pairs: seq<(AccountId, nat)>, uses: seq<Use>, accounts: seq<Account>, id: AccountId, v: nat)
    requires PairsMatch(pairs, uses, accounts) && !HasId(accounts, id)
    ensures multiset(pairs)[(id, v)] == 0
    decreases |pairs|
  {
    if pairs != [] {
      PairsTail(pairs, uses, accounts);
      PairsOfAccounts(pairs[1..], uses[1..], accounts, id, v);
      CountHead(pairs, (id, v));
      assert accounts[uses[0].index].id != id;
    }
  }

  lemma PairsFit(orders: seq<Order>, withdrawals: seq<Withdrawal>, accounts: seq<Account>)
    requires OrdersAt(accounts, orders) && WithdrawalsResolved(withdrawals, accounts)
    ensures PairsMatch(Pairs(orders, withdrawals), Uses(orders, withdrawals), accounts)
  {
  }

  /** The batch consumes exactly the nonces between the old and the new next
      nonce of every account, each once. */
  ghost predicate ConsumesRuns(before: seq<Account>, after: seq<Account>, pairs: seq<(AccountId, nat)>) {
    forall id: AccountId, v: nat :: multiset(pairs)[(id, v)] == if NextNonce(before, id) <= v < NextNonce(after, id) then 1 else 0
  }

  lemma ConsumedRun(orders: seq<Order>, withdrawals: seq<Withdrawal>, before: seq<Account>, after: seq<Account>, id: AccountId, v: nat)
    requires ValidAccounts(before) && ValidAccounts(after) && SameIds(before, after)
    requires OrdersAt(before, orders) && WithdrawalsResolved(withdrawals, before)
    requires UsesResolved(Uses(orders, withdrawals), before)
    requires ValidateNonces(orders, withdrawals, before).Pass?
    requires forall i :: 0 <= i < |before| ==>
               after[i].nextNonce == before[i].nextNonce + CountUses(Uses(orders, withdrawals), i)
    ensures multiset(Pairs(orders, withdrawals))[(id, v)] == if NextNonce(before, id) <= v < NextNonce(after, id) then 1 else 0
    ensures NextNonce(before, id) <= NextNonce(after, id)
  {
    hide ValidateNonces;
    var uses := Uses(orders, withdrawals);
    PairsFit(orders, withdrawals, before);
    if HasId(before, id) {
      var i :| 0 <= i < |before| && before[i].id == id;
      PairsCountUses(Pairs(orders, withdrawals), uses, before, i, v);
      NoncesFormRuns(orders, withdrawals, before);
      assert ExactRun(uses, i, before[i].nextNonce);
      LookupAt(before, i);
      LookupAt(after, i);
    } else {
      PairsOfAccounts(Pairs(orders, withdrawals), uses, before, id, v);
      LookupAbsent(before, id);
      LookupAbsent(after, id);
    }
  }

  lemma ConsumedRuns(orders: seq<Order>, withdrawals: seq<Withdrawal>, before: seq<Account>, after: seq<Account>)
    requires ValidAccounts(before) && ValidAccounts(after) && SameIds(before, after)
    requires OrdersAt(before, orders) && WithdrawalsResolved(withdrawals, before)
    requires UsesResolved(Uses(orders, withdrawals), before)
    requires ValidateNonces(orders, withdrawals, before).Pass?
    requires forall i :: 0 <= i < |before| ==>
               after[i].nextNonce == before[i].nextNonce + CountUses(Uses(orders, withdrawals), i)
    ensures ConsumesRuns(before, after, Pairs(orders, withdrawals))
    ensures forall id :: NextNonce(before, id) <= NextNonce(after, id)
  {
    hide ValidateNonces, Pairs, Uses, ValidAccounts, SameIds, OrdersAt, WithdrawalsResolved;
    forall id: AccountId, v: nat
      ensures multiset(Pairs(orders, withdrawals))[(id, v)] == if NextNonce(before, id) <= v < NextNonce(after, id) then 1 else 0
    {
      ConsumedRun(orders, withdrawals, before, after, id, v);
    }
    forall id ensures NextNonce(before, id) <= NextNonce(after, id) {
      ConsumedRun(orders, withdrawals, before, after, id, 0);
    }
  }

  /** Withdrawals and nonces: what they take, and that nothing overflows. */
  lemma ConsumeConserves(input: BatchInput, accounts: seq<Account>, r: seq<Account>)
    requires ValidAccounts(accounts) && NoncesFit(accounts)
    requires ValidateOperations(input, accounts).Pass?
    requires Consume(input, accounts) == Ok(r)
    ensures ValidAccounts(r) && SameIds(accounts, r) && NoncesFit(r)
    ensures forall a :: Total(r, a) == Total(accounts, a) - WithdrawnTotal(input.withdrawals, a)
    ensures forall id, a :: Holding(r, id, a) == Holding(accounts, id, a) - Withdrawn(input.withdrawals, id, a)
    ensures ConsumesRuns(accounts, r, Pairs(input.orders, input.withdrawals))
    ensures forall id :: NextNonce(accounts, id) <= NextNonce(r, id)
  {
    var orders, withdrawals := input.orders, input.withdrawals;
    OperationsUnfold(input, accounts);
    AcceptedResolved(input, accounts);
    var paid := ConsumeUnfold(input, accounts);
    hide ValidateOperations, Consume, ValidateNonces, ApplyWithdrawals, ConsumeNonces, ValidateOrders;
    WithdrawalsPositive(input, accounts);
    WithdrawalsAreExact(accounts, withdrawals);
    NoncesFitById(accounts, paid);
    NoncesSurvive(orders, withdrawals, accounts, paid);
    ConsumptionAdvances(orders, withdrawals, paid);
    ConsumedRuns(orders, withdrawals, paid, r);
    forall id: AccountId ensures NextNonce(accounts, id) == NextNonce(paid, id) {
    }
  }

  lemma WithdrawalsPositive(input: BatchInput, accounts: seq<Account>)
    requires ValidateWithdrawals(input.withdrawals, accounts, input.config).Pass?
    ensures forall i :: 0 <= i < |input.withdrawals| ==> input.withdrawals[i].amount > 0
  {
    WithdrawalsAccepted(input.withdrawals, accounts, input.config);
    forall i | 0 <= i < |input.withdrawals| ensures input.withdrawals[i].amount > 0 {
      assert WithdrawalAccepted(input.withdrawals[i], accounts, input.config);
    }
  }

  lemma ConsumeUnfold(input: BatchInput, accounts: seq<Account>) returns (paid: seq<Account>)
    requires ValidateOperations(input, accounts).Pass? && Consume(input, accounts).Ok?
    ensures WithdrawalsResolved(input.withdrawals, accounts)
    ensures ApplyWithdrawals(accounts, input.withdrawals) == Ok(paid)
    ensures SameIds(accounts, paid)
    ensures ConsumeNonces(paid, input.orders, input.withdrawals) == Consume(input, accounts)
  {
    OperationsUnfold(input, accounts);
    AcceptedResolved(input, accounts);
    hide ValidateOperations, ConsumeNonces;
    paid := ApplyWithdrawals(accounts, input.withdrawals).value;
  }

  /** Paying withdrawals leaves the nonce check as it was. */
  lemma NoncesSurvive(orders: seq<Order>, withdrawals: seq<Withdrawal>, accounts: seq<Account>, paid: seq<Account>)
    requires ValidAccounts(accounts) && ValidAccounts(paid) && SameIds(accounts, paid)
    requires forall id :: NextNonce(paid, id) == NextNonce(accounts, id)
    requires OrdersAt(accounts, orders) && WithdrawalsResolved(withdrawals, accounts)
    requires UsesResolved(Uses(orders, withdrawals), accounts)
    requires ValidateNonces(orders, withdrawals, accounts).Pass?
    ensures OrdersAt(paid, orders) && WithdrawalsResolved(withdrawals, paid)
    ensures UsesResolved(Uses(orders, withdrawals), paid)
    ensures ValidateNonces(orders, withdrawals, paid).Pass?
  {
    hide ValidateNonces;
    NoncesFormRuns(orders, withdrawals, accounts);
    NoncesFormRuns(orders, withdrawals, paid);
    forall x | 0 <= x < |paid| ensures ExactRun(Uses(orders, withdrawals), x, paid[x].nextNonce) {
      LookupAt(accounts, x);
      LookupAt(paid, x);
      assert ExactRun(Uses(orders, withdrawals), x, accounts[x].nextNonce);
    }
  }

  /** Matching moves balances between accounts and nothing else. */
  lemma ClearConserves(input: BatchInput, accounts: seq<Account>)
    requires ValidAccounts(accounts) && QuantitiesFit(input.orders)
    requires ScalesPositive(input.config) && OrdersAt(accounts, input.orders)
    requires Clear(input, accounts).Ok?
    ensures var (r, trades) := Clear(input, accounts).value;
            && Moves(accounts, r)
            && forall id, a :: Holding(r, id, a) == Holding(accounts, id, a) + BatchNet(trades, input.config, id, a)
  {
    var books := ClearUnfold(input, accounts);
    hide Clear;
    BooksConserve(accounts, books, input.config, SearchId(accounts, input.config.fees.recipient).index);
  }

  lemma ClearUnfold(input: BatchInput, accounts: seq<Account>) returns (books: seq<ValidatedBook>)
    requires QuantitiesFit(input.orders) && ScalesPositive(input.config) && OrdersAt(accounts, input.orders)
    requires Clear(input, accounts).Ok?
    ensures BuildValidatedBooks(input.orders, input.books, input.config) == Ok(books)
    ensures BooksBound(books, |accounts|) && BooksReady(accounts, books) && BooksListed(books, input.config)
    ensures SearchId(accounts, input.config.fees.recipient).Found?
    ensures var feeIndex := SearchId(accounts, input.config.fees.recipient).index;
            && IndexMatches(feeIndex, accounts, input.config.fees.recipient)
            && MatchBooks(accounts, books, input.config.fees, feeIndex) == Clear(input, accounts)
  {
    books := BuildValidatedBooks(input.orders, input.books, input.config).value;
    BooksAcceptedExactly(input.orders, input.books, input.config);
    ResolvedReady(input.orders, input.books, input.config, books, accounts);
  }

  // ----- the whole batch

  /** What the stages before the final check establish together. */
  lemma StagesConserve(input: BatchInput)
    requires Typed(input) && Stages(input).Ok?
    ensures var settled := Stages(input).value;
            && ValidAccounts(input.accounts) && ValidAccounts(settled.accounts) && NoZero(settled.totals)
            && (forall a :: Total(settled.accounts, a) == Total(input.accounts, a) + DepositedTotal(input.deposits, a)
                  - WithdrawnTotal(input.withdrawals, a) - DrainedTotal(settled.executed, a))
            && (forall a :: Tracked(settled.totals, a) == Total(settled.accounts, a))
            && (forall id, a :: Holding(settled.accounts, id, a) == Holding(input.accounts, id, a) + Deposited(input.deposits, id, a)
                  - Drained(settled.executed, id, a) - Withdrawn(input.withdrawals, id, a) + BatchNet(settled.trades, input.config, id, a))
            && (forall id :: HasId(settled.accounts, id) <==> HasId(input.accounts, id) || DepositsTo(input.deposits, id))
            && ConsumesRuns(input.accounts, settled.accounts, Pairs(input.orders, input.withdrawals))
            && (forall id :: NextNonce(input.accounts, id) <= NextNonce(settled.accounts, id))
            && NoncesFit(settled.accounts) && |settled.executed| == |input.forced|
  {
    hide Stages, Admit, ValidateOperations, Consume, Clear, Tracked, Baseline, Validate, ConsumesRuns, Pairs, SameIds,
      NoncesFit, BatchNet, ValidateConfig, ValidateDeposits;
    var baseline, admitted, consumed := StagesUnfold(input);
    var settled := Stages(input).value;
    ValidateUnfold(input);
    AccountsValidated(input.accounts);
    DepositsConsecutive(input.deposits, input.depositCursor, input.config);
    BaselineTracks(input, baseline);
    AdmitConserves(input, baseline, admitted, settled.executed, settled.totals);
    NoncesFitById(input.accounts, admitted);
    ConsumeConserves(input, admitted, consumed);
    ClearConserves(input, consumed);
    SameIdsHasId(admitted, consumed);
    SameIdsHasId(consumed, settled.accounts);
    RunsShift(input.accounts, admitted, consumed, settled.accounts, Pairs(input.orders, input.withdrawals));
    NoncesFitById(consumed, settled.accounts);
  }

  /** Stages that leave the nonces alone do not matter to what is consumed. */
  lemma RunsShift(before: seq<Account>, admitted: seq<Account>, consumed: seq<Account>, after: seq<Account>,
                  pairs: seq<(AccountId, nat)>)
    requires ConsumesRuns(admitted, consumed, pairs) && forall id :: NextNonce(admitted, id) <= NextNonce(consumed, id)
    requires forall id :: NextNonce(admitted, id) == NextNonce(before, id)
    requires forall id :: NextNonce(after, id) == NextNonce(consumed, id)
    ensures ConsumesRuns(before, after, pairs) && forall id :: NextNonce(before, id) <= NextNonce(after, id)
  {
    forall id ensures NextNonce(before, id) <= NextNonce(after, id) {
      assert NextNonce(admitted, id) <= NextNonce(consumed, id);
    }
  }

  /** THEOREM. Once every earlier stage has succeeded the final tracker check
      passes: the tracker empties exactly. */
  lemma FinalCheckNeverFails(input: BatchInput)
    requires Typed(input) && Stages(input).Ok?
    ensures SubtractAccounts(Stages(input).value.totals, Stages(input).value.accounts) == Ok(map[])
  {
    StagesConserve(input);
    var settled := Stages(input).value;
    hide Stages;
    BalancedTrackerEmpties(settled.totals, settled.accounts);
  }

  lemma OutcomeUnfold(input: BatchInput)
    requires Outcome(input).Ok?
    ensures Stages(input).Ok?
    ensures var out := Outcome(input).value;
            var settled := Stages(input).value;
            && RootFromProof(settled.accounts, input.proof) == Ok(out.public.newRoot)
            && out == BuildOutput(input, settled, out.public.newRoot)
  {
    hide Stages, SubtractAccounts, RootFromProof;
  }

  /** THEOREM. A batch settles exactly when its stages succeed and the new
      accounts still fit the proof: no conservation error is left to occur. */
  lemma SettlesExactly(input: BatchInput)
    requires Typed(input)
    ensures Outcome(input).Ok? <==> Stages(input).Ok? && RootFromProof(Stages(input).value.accounts, input.proof).Ok?
    ensures Stages(input).Ok? && Outcome(input).Err? ==> Outcome(input).error == InvalidMultiproof
  {
    if Stages(input).Ok? {
      FinalCheckNeverFails(input);
      hide Stages, SubtractAccounts;
      OnlyProofErrors(Stages(input).value.accounts, input.proof);
    }
  }

  lemma {:induction false} CombineErrors(nodes: seq<Commitment>)
    ensures Combine(nodes).Err? ==> Combine(nodes).error == InvalidMultiproof
    decreases |nodes|
  {
    if |nodes| > 1 {
      var depth := DifferingBit(nodes[0].min, nodes[|nodes| - 1].max);
      if depth < BITS {
        var split := SplitPoint(nodes, depth);
        if 0 < split < |nodes| {
          CombineErrors(nodes[..split]);
          CombineErrors(nodes[split..]);
        }
      }
    }
  }

  lemma OnlyProofErrors(values: seq<Account>, proof: Multiproof)
    ensures RootFromProof(values, proof).Err? ==> RootFromProof(values, proof).error == InvalidMultiproof
  {
    if SortAccounts(values).Ok? {
      CombineErrors(Merge(LeafNodes(SortAccounts(values).value), proof.sideNodes));
    }
  }

  /** THEOREM (conservation). Per asset a settled batch adds exactly what was
      deposited and removes exactly what was withdrawn and drained; each
      account changes by its own deposits, drains, withdrawals and trades and
      by nothing else, whatever parties coincide; each forced request drains
      exactly what its account has left, up to what it asks for. A batch loses no
      account, creates one exactly for a deposit, and consumes exactly the nonces
      between each account's old and new next nonce, each once. */
  lemma SettlementConserves(input: BatchInput, out: BatchOutput)
    requires Typed(input) && Outcome(input) == Ok(out)
    ensures forall a :: Total(out.accounts, a) + WithdrawnTotal(input.withdrawals, a) + DrainedTotal(out.forced, a)
                          == Total(input.accounts, a) + DepositedTotal(input.deposits, a)
    ensures forall id, a :: Holding(out.accounts, id, a) == Holding(input.accounts, id, a) + Deposited(input.deposits, id, a)
              - Drained(out.forced, id, a) - Withdrawn(input.withdrawals, id, a) + BatchNet(out.trades, input.config, id, a)
    ensures ValidAccounts(out.accounts) && NoncesFit(out.accounts)
    ensures forall id :: HasId(out.accounts, id) <==> HasId(input.accounts, id) || DepositsTo(input.deposits, id)
    ensures ConsumesRuns(input.accounts, out.accounts, Pairs(input.orders, input.withdrawals))
    ensures forall id :: NextNonce(input.accounts, id) <= NextNonce(out.accounts, id)
    ensures |out.forced| == |input.forced| && forall i :: 0 <= i < |input.forced| ==> DrainedAt(input, out.accounts, out.forced, i)
  {
    OutcomeUnfold(input);
    hide Outcome, Stages, DrainedAt;
    StagesConserve(input);
    StagesDrain(input);
  }

  /** What a settled batch proves about roots and queues. */
  lemma SettlementRoots(input: BatchInput, out: BatchOutput)
    requires Outcome(input) == Ok(out)
    ensures RootFromProof(input.accounts, input.proof) == Ok(out.public.oldRoot)
    ensures RootFromProof(out.accounts, input.proof) == Ok(out.public.newRoot)
    ensures out.public.oldRoot == input.expectedRoot && out.public.domain == input.domain
    ensures out.public.configHash == ConfigHash(input.config) && out.withdrawals == Executed(input.withdrawals)
    ensures out.public.tradesHash == TradesHash(out.trades)
    ensures out.public.batchHash ==
            BatchHash(DomainHash(input.domain), input.batchId, input.expectedRoot, ConfigHash(input.config), Records(input.orders))
    ensures out.public.oldDepositCursor == input.depositCursor
    ensures out.public.newDepositCursor == input.depositCursor + |input.deposits|
    ensures out.public.depositsHash == DepositsHash(DepositEntries(input.deposits))
    ensures out.public.forcedRequestsHash == ForcedWithdrawalsHash(ForcedEntries(input.forced))
    ensures out.public.withdrawalsHash == WithdrawalsHash(Executed(input.withdrawals))
    ensures out.public.forcedWithdrawalsHash == ForcedWithdrawalsHash(ForcedEntries(out.forced))
    ensures out.public.batchId == input.batchId
    ensures out.public.oldForcedCursor == input.forcedCursor
    ensures |out.forced| == |input.forced| <= MAX_FORCED_WITHDRAWALS_PER_BATCH
    ensures forall i :: 0 <= i < |input.deposits| ==> input.deposits[i].id == input.depositCursor + i
    ensures forall i :: 0 <= i < |input.forced| ==> input.forced[i].id == input.forcedCursor + i
  {
    hide Outcome, Stages, Validate, Admit, Clear, Consume, ValidateOperations, RootFromProof, Baseline, ValidateDeposits,
      DepositEntries, ForcedEntries, Executed, Records;
    OutcomeUnfold(input);
    var baseline, admitted, consumed := StagesUnfold(input);
    ValidateUnfold(input);
    DepositsConsecutive(input.deposits, input.depositCursor, input.config);
    AdmitQueue(input, baseline);
  }

  /** The terms of an order as the batch hash takes them. */
  predicate SameTerms(a: Order, b: Order) {
    && a.market == b.market && a.side == b.side && a.price == b.price && a.quantity == b.quantity
    && a.nonce == b.nonce && a.trader == b.trader && a.sequence == b.sequence
  }

  /** THEOREM (the output binds the batch). Settled batches with the same batch
      hash have the same domain, id, old root, configuration and order terms;
      those with the same trades hash made the same trades; and each queue and
      payout hash fixes the list it stands for. */
  lemma OutputBinds(a: BatchInput, x: BatchOutput, b: BatchInput, y: BatchOutput)
    requires Outcome(a) == Ok(x) && Outcome(b) == Ok(y)
    ensures x.public.batchHash == y.public.batchHash ==>
              && a.domain == b.domain && a.batchId == b.batchId && a.expectedRoot == b.expectedRoot && a.config == b.config
              && |a.orders| == |b.orders| && forall i :: 0 <= i < |a.orders| ==> SameTerms(a.orders[i], b.orders[i])
    ensures x.public.tradesHash == y.public.tradesHash ==> x.trades == y.trades
    ensures x.public.configHash == y.public.configHash ==> a.config == b.config
    ensures x.public.withdrawalsHash == y.public.withdrawalsHash ==> x.withdrawals == y.withdrawals
    ensures x.public.depositsHash == y.public.depositsHash ==> DepositEntries(a.deposits) == DepositEntries(b.deposits)
    ensures x.public.forcedRequestsHash == y.public.forcedRequestsHash ==> ForcedEntries(a.forced) == ForcedEntries(b.forced)
    ensures x.public.forcedWithdrawalsHash == y.public.forcedWithdrawalsHash ==> ForcedEntries(x.forced) == ForcedEntries(y.forced)
  {
    hide Outcome, RootFromProof, DepositEntries, ForcedEntries, Executed;
    SettlementRoots(a, x);
    SettlementRoots(b, y);
    if x.public.batchHash == y.public.batchHash {
      assert Records(a.orders) == Records(b.orders);
      forall i | 0 <= i < |a.orders| ensures SameTerms(a.orders[i], b.orders[i]) {
        assert Records(a.orders)[i] == Records(b.orders)[i];
      }
    }
  }

  lemma AdmitQueue(input: BatchInput, baseline: Totals)
    requires Admit(input, baseline).Ok?
    ensures |Admit(input, baseline).value.1| == |input.forced|
    ensures forall i :: 0 <= i < |input.forced| ==> input.forced[i].id == input.forcedCursor + i
  {
    var deposited := AdmitUnfold(input, baseline);
    ForcedConsecutive(input.forced, input.forcedCursor);
  }
}
