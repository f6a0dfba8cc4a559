/** Which calls the contract takes, exactly. */
module Acceptance {
  import opened Keys
  import opened Results
  import opened Types
  import opened Ledger
  import opened Operations
  import opened Patricia
  import opened Settlement
  import opened SettlementTheorems
  import opened Transition
  import opened Contract
  import opened Solvency
  import opened Runs
  import opened History

  // ----- the queues

  /** THEOREM (what the queues take). After any run, a deposit goes through
      exactly when its amount is positive and fits a uint128 and an id is left,
      and a token deposit if the token is not the native one, no value comes with
      it and the transfer brings in the amount; a forced request exactly when its
      amount is positive, an id is left and its deadline fits a uint64. */
  lemma QueuesTakeExactly(p: Params, w: World, calls: seq<Call>, call: Call)
    requires Initial(w) && Proper(w.now, calls) && call.now <= U64_MAX
    ensures var done, next := Successful(p, w, calls), Runs.Apply(p, Run(p, w, calls).state, call);
            match call.action
            case NativeDeposit(_, value) => next.Ok? <==> 0 < value < 0x1_0000_0000_0000_0000_0000_0000_0000_0000 && IdLeft(|DepositsMade(done)|)
            case TokenDeposit(_, token, amount, value, received) =>
              next.Ok? <==> && 0 < amount < 0x1_0000_0000_0000_0000_0000_0000_0000_0000 && IdLeft(|DepositsMade(done)|)
                            && token != 0 && value == 0 && received == Some(amount)
            case ForcedRequest(_, _, amount) =>
              next.Ok? <==> amount > 0 && IdLeft(|RequestsMade(done, p.delay)|) && call.now + p.delay < 0x1_0000_0000_0000_0000
            case _ => true
  {
    hide Run, Proper, Successful, Initial, RecordOf, RequestsMade, DepositsMade, BatchesSettled, Outcome, Settle, EscapeWithdraw, WithdrawPending,
      BatchesRecorded, EscapesRecorded;
    StateIsHistory(p, w, calls);
    QueueLengths(p, w.state, Successful(p, w, calls), Run(p, w, calls).state);
  }

  predicate IdLeft(issued: nat) {
    issued < 0xFFFF_FFFF_FFFF_FFFF
  }

  lemma QueueLengths(p: Params, first: State, done: seq<Call>, s: State)
    requires RecordOf(p, first, done, s)
    ensures s.nextDepositId == |DepositsMade(done)| && s.nextForcedId == |RequestsMade(done, p.delay)|
  {
    hide BatchesRecorded, EscapesRecorded, DepositsMade, RequestsMade, BatchesSettled;
  }

  // ----- the checks of a settlement

  /** The deposits are the queue's own, from this id on. */
  ghost predicate DepositsQueued(queue: map<nat, QueuedDeposit>, start: nat, deposits: seq<Deposit>) {
    forall i :: 0 <= i < |deposits| ==>
      DepositAt(queue, start + i) == QueueEntry(deposits[i].id, deposits[i].account, deposits[i].asset, deposits[i].amount)
  }

  ghost predicate RequestsQueued(queue: map<nat, Request>, start: nat, requests: seq<ForcedWithdrawal>) {
    forall i :: 0 <= i < |requests| ==>
      RequestAt(queue, start + i) == QueueEntry(requests[i].id, requests[i].account, requests[i].asset, requests[i].amount)
  }

  /** The batch takes the queues where the contract stands. */
  ghost predicate TakesQueues(input: BatchInput, s: State) {
    && input.depositCursor == s.nextUnprocessedDeposit && input.depositCursor + |input.deposits| <= s.nextDepositId
    && DepositsQueued(s.deposits, input.depositCursor, input.deposits)
    && input.forcedCursor == s.nextUnprocessedForced && input.forcedCursor + |input.forced| <= s.nextForcedId
    && RequestsQueued(s.requests, input.forcedCursor, input.forced)
  }

  /** The batch is the contract's next one. */
  ghost predicate NextBatch(p: Params, s: State, input: BatchInput) {
    && input.domain == SigningDomain(p.protocolVersion, p.chainId, p.exchange) && ConfigHash(input.config) == p.configHash
    && input.batchId == s.nextBatchId && input.expectedRoot == s.stateRoot
    && TakesQueues(input, s)
  }

  /** The call data names the batch's own payouts. */
  ghost predicate OwnPayouts(m: Submission, input: BatchInput, out: BatchOutput) {
    && |m.withdrawals| == |input.withdrawals| && |m.forced| == |out.forced|
    && (forall i :: 0 <= i < |m.withdrawals| ==>
          m.withdrawals[i] == ExecutedWithdrawal(input.withdrawals[i].account, input.withdrawals[i].recipient, input.withdrawals[i].asset,
                                                 input.withdrawals[i].amount, input.withdrawals[i].nonce))
    && (forall i :: 0 <= i < |m.forced| ==>
          m.forced[i] == QueueEntry(out.forced[i].id, out.forced[i].account, out.forced[i].asset, out.forced[i].amount))
  }

  lemma DepositsAre(queue: map<nat, QueuedDeposit>, start: nat, deposits: seq<Deposit>)
    ensures DepositRange(queue, start, start + |deposits|) == DepositEntries(deposits) <==> DepositsQueued(queue, start, deposits)
  {
    var range, entries := DepositRange(queue, start, start + |deposits|), DepositEntries(deposits);
    if range == entries {
      forall i | 0 <= i < |deposits|
        ensures DepositAt(queue, start + i) == QueueEntry(deposits[i].id, deposits[i].account, deposits[i].asset, deposits[i].amount)
      {
        assert range[i] == entries[i];
      }
    }
  }

  lemma RequestsAre(queue: map<nat, Request>, start: nat, requests: seq<ForcedWithdrawal>)
    ensures RequestRange(queue, start, start + |requests|) == ForcedEntries(requests) <==> RequestsQueued(queue, start, requests)
  {
    var range, entries := RequestRange(queue, start, start + |requests|), ForcedEntries(requests);
    if range == entries {
      forall i | 0 <= i < |requests|
        ensures RequestAt(queue, start + i) == QueueEntry(requests[i].id, requests[i].account, requests[i].asset, requests[i].amount)
      {
        assert range[i] == entries[i];
      }
    }
  }

  lemma OwnMeans(m: Submission, input: BatchInput, out: BatchOutput)
    requires out.withdrawals == Executed(input.withdrawals)
    ensures OwnPayouts(m, input, out) <==> m.withdrawals == out.withdrawals && m.forced == ForcedEntries(out.forced)
  {
    if OwnPayouts(m, input, out) {
      assert m.withdrawals == Executed(input.withdrawals) && m.forced == ForcedEntries(out.forced);
    }
  }

  lemma ChecksPassed(p: Params, s: State, m: Submission, input: BatchInput, out: BatchOutput)
    requires Outcome(input) == Ok(out) && m.output == out.public && CheckSettle(p, s, m).Ok?
    ensures m.verified && !s.escapeMode && NextBatch(p, s, input) && OwnPayouts(m, input, out)
  {
    hide Outcome, CheckConsumed, CheckPayouts, DepositsQueued, RequestsQueued, OwnPayouts, DepositRange, RequestRange, DepositEntries,
      ForcedEntries, RootFromProof, Executed, Records, DepositAt, RequestAt;
    var newForced := CheckSettle(p, s, m).value;
    SettleMatches(p, s, m, input, out, newForced);
    SettlementRoots(input, out);
    DepositsAre(s.deposits, s.nextUnprocessedDeposit, input.deposits);
    RequestsAre(s.requests, s.nextUnprocessedForced, input.forced);
    OwnMeans(m, input, out);
  }

  lemma ChecksPass(p: Params, s: State, m: Submission, input: BatchInput, out: BatchOutput)
    requires QueuesKept(s) && Outcome(input) == Ok(out) && m.output == out.public
    requires m.verified && !s.escapeMode && NextBatch(p, s, input) && OwnPayouts(m, input, out)
    ensures CheckSettle(p, s, m).Ok?
  {
    hide Outcome, DepositsQueued, RequestsQueued, OwnPayouts, DepositRange, RequestRange, DepositEntries, ForcedEntries, RootFromProof,
      Executed, Records, DepositAt, RequestAt;
    SettlementRoots(input, out);
    OwnMeans(m, input, out);
    DepositsAre(s.deposits, s.nextUnprocessedDeposit, input.deposits);
    RequestsAre(s.requests, s.nextUnprocessedForced, input.forced);
    var newForced := s.nextUnprocessedForced + |input.forced|;
    assert ForcedCursor(s, m.output, |m.forced|) == Ok(newForced) by {
      assert |m.forced| == |input.forced|;
    }
  }

  // ----- the payouts of a settlement

  lemma OwedInTotal(pending: Pending, account: AccountId, asset: AssetId)
    ensures Owed(pending, account, asset) <= PendingTotal(pending, asset)
  {
    if (account, asset) in pending {
      PendingRemove(pending, (account, asset), asset);
    }
  }

  /** Payouts that fit beside what is pending go through or become pending. */
  lemma PayoutGoes(holdings: Holdings, pending: Pending, recipient: AccountId, asset: AssetId, amount: nat, works: bool)
    requires PendingTotal(pending, asset) + amount <= U256_MAX
    ensures PayOrOwe(holdings, pending, recipient, asset, amount, works).Ok?
    ensures var r := PayOrOwe(holdings, pending, recipient, asset, amount, works).value;
            forall a :: PendingTotal(r.1, a) <= PendingTotal(pending, a) + (if a == asset then amount else 0)
  {
    OwedInTotal(pending, recipient, asset);
    var r := PayOrOwe(holdings, pending, recipient, asset, amount, works).value;
    forall a ensures PendingTotal(r.1, a) <= PendingTotal(pending, a) + (if a == asset then amount else 0) {
      PendingUpdate(pending, recipient, asset, Owed(pending, recipient, asset) + amount, a);
    }
  }

  lemma {:induction false} WithdrawalsGo(holdings: Holdings, pending: Pending, withdrawals: seq<ExecutedWithdrawal>, works: seq<bool>)
    requires forall a :: PendingTotal(pending, a) + ExecutedTotal(withdrawals, a) <= U256_MAX
    ensures PayWithdrawals(holdings, pending, withdrawals, works).Ok?
    ensures var r := PayWithdrawals(holdings, pending, withdrawals, works).value;
            forall a :: PendingTotal(r.1, a) <= PendingTotal(pending, a) + ExecutedTotal(withdrawals, a)
    decreases |withdrawals|
  {
    hide PayOrOwe;
    if withdrawals != [] {
      var w := withdrawals[0];
      assert PendingTotal(pending, w.asset) + ExecutedTotal(withdrawals, w.asset) <= U256_MAX;
      PayoutGoes(holdings, pending, w.recipient, w.asset, w.amount, First(works));
      var next := PayOrOwe(holdings, pending, w.recipient, w.asset, w.amount, First(works)).value;
      forall a ensures PendingTotal(next.1, a) + ExecutedTotal(withdrawals[1..], a) <= U256_MAX {
        assert PendingTotal(pending, a) + ExecutedTotal(withdrawals, a) <= U256_MAX;
      }
      WithdrawalsGo(next.0, next.1, withdrawals[1..], Rest(works));
    }
  }

  lemma {:induction false} ForcedGo(holdings: Holdings, pending: Pending, forced: seq<QueueEntry>, works: seq<bool>)
    requires forall a :: PendingTotal(pending, a) + EntriesTotal(forced, a) <= U256_MAX
    ensures PayForced(holdings, pending, forced, works).Ok?
    decreases |forced|
  {
    hide PayOrOwe;
    if forced != [] {
      var f := forced[0];
      assert PendingTotal(pending, f.asset) + EntriesTotal(forced, f.asset) <= U256_MAX;
      PayoutGoes(holdings, pending, f.account, f.asset, f.amount, First(works));
      var next := if f.amount == 0 then (holdings, pending) else PayOrOwe(holdings, pending, f.account, f.asset, f.amount, First(works)).value;
      forall a ensures PendingTotal(next.1, a) + EntriesTotal(forced[1..], a) <= U256_MAX {
        assert PendingTotal(pending, a) + EntriesTotal(forced, a) <= U256_MAX;
      }
      ForcedGo(next.0, next.1, forced[1..], Rest(works));
    }
  }

  /** A settled batch pays out no more than the committed accounts and its deposits hold. */
  lemma PaysFromBatch(accounts: seq<Account>, input: BatchInput, out: BatchOutput, asset: AssetId)
    requires Typed(input) && Outcome(input) == Ok(out)
    requires DistinctIds(accounts) && ComputeRoot(accounts) == Ok(input.expectedRoot)
    ensures ExecutedTotal(out.withdrawals, asset) + EntriesTotal(ForcedEntries(out.forced), asset)
              <= Total(accounts, asset) + DepositedTotal(input.deposits, asset)
  {
    hide Outcome, ComputeRoot, RootFromProof, Typed, Pairs, ConsumesRuns, Replaced, Executed, ForcedEntries;
    SettlementRoots(input, out);
    SettlementTransition(accounts, input, out);
    ExecutedIsWithdrawn(input.withdrawals, asset);
    EntriesAreDrained(out.forced, asset);
  }

  /** A solvent contract holds all its next batch pays out, beside what is pending. */
  lemma PayoutsHeld(p: Params, w: World, input: BatchInput, out: BatchOutput, asset: AssetId)
    requires Inv(p, w) && !w.state.escapeMode && NextBatch(p, w.state, input) && Typed(input) && Outcome(input) == Ok(out)
    ensures PendingTotal(w.state.pending, asset) + ExecutedTotal(out.withdrawals, asset) + EntriesTotal(ForcedEntries(out.forced), asset)
              <= Held(w.state.holdings, asset)
  {
    hide Outcome, ComputeRoot, Typed, DeadlinesKept, SpentOnce, Held, ForcedEntries;
    var s := w.state;
    PaysFromBatch(w.committed, input, out, asset);
    QueuedIsDeposited(s.deposits, s.nextUnprocessedDeposit, input.deposits, asset);
    QueuedSplit(s.deposits, s.nextUnprocessedDeposit, s.nextUnprocessedDeposit + |input.deposits|, s.nextDepositId, asset);
    UnescapedAll(w.committed, asset);
    assert s.escaped == {};
    assert Held(s.holdings, asset) >= Unescaped(w.committed, s.escaped, asset)
      + QueuedTotal(s.deposits, s.nextUnprocessedDeposit, s.nextDepositId, asset) + PendingTotal(s.pending, asset);
  }

  /** All a batch pays out is there, beside what is pending. */
  ghost predicate PayoutsCovered(s: State, out: BatchOutput) {
    forall a :: PendingTotal(s.pending, a) + ExecutedTotal(out.withdrawals, a) + EntriesTotal(ForcedEntries(out.forced), a) <= Held(s.holdings, a)
  }

  /** Token balances are 256-bit words. */
  ghost predicate HoldingsFit(s: State) {
    forall a :: Held(s.holdings, a) <= U256_MAX
  }

  lemma PayoutsGo(s: State, out: BatchOutput, m: Submission, newForced: nat)
    requires PayoutsCovered(s, out) && HoldingsFit(s) && m.withdrawals == out.withdrawals && m.forced == ForcedEntries(out.forced)
    ensures ApplySettlement(s, m, newForced).Ok?
  {
    hide PayWithdrawals, PayForced, Held, Owed, ForcedEntries;
    forall a ensures PendingTotal(s.pending, a) + ExecutedTotal(out.withdrawals, a) <= U256_MAX {
      assert Held(s.holdings, a) <= U256_MAX;
    }
    WithdrawalsGo(s.holdings, s.pending, m.withdrawals, m.withdrawalsWork);
    var paid := PayWithdrawals(s.holdings, s.pending, m.withdrawals, m.withdrawalsWork).value;
    forall a ensures PendingTotal(paid.1, a) + EntriesTotal(ForcedEntries(out.forced), a) <= U256_MAX {
      assert Held(s.holdings, a) <= U256_MAX;
    }
    ForcedGo(paid.0, paid.1, m.forced, m.forcedWork);
  }

  lemma SettleExactly(p: Params, w: World, m: Submission, input: BatchInput, out: BatchOutput)
    requires Inv(p, w) && HoldingsFit(w.state) && Typed(input) && Outcome(input) == Ok(out) && m.output == out.public
    ensures Settle(p, w.state, m).Ok? <==>
              m.verified && !w.state.escapeMode && NextBatch(p, w.state, input) && OwnPayouts(m, input, out)
    ensures !w.state.escapeMode && NextBatch(p, w.state, input) ==> PayoutsCovered(w.state, out)
  {
    hide Outcome, CheckSettle, ApplySettlement, Typed, NextBatch, OwnPayouts, DeadlinesKept, Solvent, SpentOnce, Committed, HoldingsFit, Held;
    if CheckSettle(p, w.state, m).Ok? {
      ChecksPassed(p, w.state, m, input, out);
    }
    if !w.state.escapeMode && NextBatch(p, w.state, input) {
      forall a ensures PendingTotal(w.state.pending, a) + ExecutedTotal(out.withdrawals, a) + EntriesTotal(ForcedEntries(out.forced), a)
                         <= Held(w.state.holdings, a)
      {
        PayoutsHeld(p, w, input, out, a);
      }
      if m.verified && OwnPayouts(m, input, out) {
        ChecksPass(p, w.state, m, input, out);
        SettlementRoots(input, out);
        OwnMeans(m, input, out);
        PayoutsGo(w.state, out, m, CheckSettle(p, w.state, m).value);
      }
    }
  }

  /** THEOREM (when a batch settles on chain). After any run, the call data of a
      settled batch goes through exactly when it is proven, escape mode is off,
      the batch is next on this contract's domain, configuration, root, cursors
      and queue entries, and the payouts named are its own. Which transfers work
      does not matter: no payee can stop a settlement by refusing payment, and the
      holdings cover every payout beside all that is already pending. */
  lemma SettlesOnChainExactly(p: Params, w: World, calls: seq<Call>, m: Submission, input: BatchInput, out: BatchOutput)
    requires Initial(w) && Proper(w.now, calls) && HoldingsFit(Run(p, w, calls).state)
    requires Typed(input) && Outcome(input) == Ok(out) && m.output == out.public
    ensures var s := Run(p, w, calls).state;
            && (Settle(p, s, m).Ok? <==> m.verified && !s.escapeMode && NextBatch(p, s, input) && OwnPayouts(m, input, out))
            && (!s.escapeMode && NextBatch(p, s, input) ==> PayoutsCovered(s, out))
  {
    hide Run, Initial, Inv, Settle, Outcome, NextBatch, Proper, HoldingsFit, PayoutsCovered, OwnPayouts, Runs.Advanced, Typed;
    InitialInv(p, w);
    RunKeeps(p, w, calls);
    SettleExactly(p, Run(p, w, calls), m, input, out);
  }
}
