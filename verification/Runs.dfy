/** Every run of the contract, beside the committed accounts its state root
    stands for: solvency, replay freedom, frozen escape mode. */
module Runs {
  import opened Keys
  import opened Results
  import opened Types
  import opened Ledger
  import opened Operations
  import opened Patricia
  import opened PatriciaTheorems
  import opened AccountProof
  import opened Settlement
  import opened SettlementTheorems
  import opened Transition
  import opened Contract
  import opened Solvency

  /** One call. A settlement names the batch its proof is about. */
  datatype Action =
    | NativeDeposit(sender: AccountId, value: nat)
    | TokenDeposit(sender: AccountId, token: AssetId, amount: nat, value: nat, received: Option<nat>)
    | ForcedRequest(sender: AccountId, asset: AssetId, amount: nat)
    | EscapeActivation
    | Escape(account: Account, sides: seq<Commitment>, works: seq<bool>)
    | Claim(claimant: AccountId, asset: AssetId, goes: bool)
    | Settlement(submission: Submission, input: BatchInput)
    | Donation(asset: AssetId, amount: nat)

  datatype Call = Call(now: nat, action: Action)

  /** The contract with the accounts behind its root and every (account, nonce)
      pair consumed so far. */
  datatype World = World(state: State, committed: seq<Account>, consumed: multiset<(AccountId, nat)>, now: nat)

  function Apply(p: Params, s: State, call: Call): Result<State> {
    match call.action
    case NativeDeposit(sender, value) => DepositNative(s, sender, value)
    case TokenDeposit(sender, token, amount, value, received) => DepositToken(s, sender, token, amount, value, received)
    case ForcedRequest(sender, asset, amount) => RequestForced(p, s, sender, asset, amount, call.now)
    case EscapeActivation => ActivateEscape(s, call.now)
    case Escape(account, sides, works) => EscapeWithdraw(s, account, sides, works)
    case Claim(claimant, asset, goes) => WithdrawPending(s, claimant, asset, goes)
    case Settlement(submission, _) => Settle(p, s, submission)
    case Donation(asset, amount) => Ok(s.(holdings := Receive(s.holdings, asset, amount)))
  }

  /** A reverted call changes nothing but the time. */
  function Step(p: Params, w: World, call: Call): World {
    match Apply(p, w.state, call)
    case Err(_) => w.(now := call.now)
    case Ok(s) =>
      if call.action.Settlement? && Outcome(call.action.input).Ok? then
        var input := call.action.input;
        World(s, Replaced(w.committed, input.proof.leafKeys, Outcome(input).value.accounts),
              w.consumed + multiset(Pairs(input.orders, input.withdrawals)), call.now)
      else
        World(s, w.committed, w.consumed, call.now)
  }

  function Run(p: Params, w: World, calls: seq<Call>): World
    decreases |calls|
  {
    if calls == [] then w else Run(p, Step(p, w, calls[0]), calls[1..])
  }

  /** The verifier accepts only outputs of settled batches. */
  ghost predicate Sound(call: Call) {
    call.action.Settlement? && call.action.submission.verified ==>
      && Typed(call.action.input) && Outcome(call.action.input).Ok?
      && Outcome(call.action.input).value.public == call.action.submission.output
  }

  /** Sound calls in time order, before a uint64 of seconds runs out. */
  ghost predicate Proper(now: nat, calls: seq<Call>)
    decreases |calls|
  {
    calls != [] ==> now <= calls[0].now <= U64_MAX && Sound(calls[0]) && Proper(calls[0].now, calls[1..])
  }

  // ----- the invariant

  /** Cursors at or below their queue ends, exactly the issued ids stored. */
  ghost predicate QueuesKept(s: State) {
    && s.nextUnprocessedDeposit <= s.nextDepositId <= U64_MAX
    && s.nextUnprocessedForced <= s.nextForcedId <= U64_MAX
    && (forall id: nat :: id in s.deposits <==> id < s.nextDepositId)
    && (forall id: nat :: id in s.requests <==> id < s.nextForcedId)
    && (s.escaped != {} ==> s.escapeMode)
  }

  /** Deadlines never decrease along the queue. */
  ghost predicate DeadlinesKept(p: Params, s: State, now: nat) {
    && (forall i: nat, j: nat :: i <= j < s.nextForcedId ==> Deadline(s.requests, i) <= Deadline(s.requests, j))
    && (forall i: nat :: i < s.nextForcedId ==> Deadline(s.requests, i) <= now + p.delay)
  }

  ghost predicate Committed(w: World) {
    DistinctIds(w.committed) && ComputeRoot(w.committed) == Ok(w.state.stateRoot)
  }

  /** Holdings cover what has not escaped, what is queued and what is pending. */
  ghost predicate Solvent(w: World) {
    forall a :: Held(w.state.holdings, a) >=
      Unescaped(w.committed, w.state.escaped, a)
      + QueuedTotal(w.state.deposits, w.state.nextUnprocessedDeposit, w.state.nextDepositId, a)
      + PendingTotal(w.state.pending, a)
  }

  /** No pair consumed twice, and none left to consume again. */
  ghost predicate SpentOnce(w: World) {
    forall id: AccountId, v: nat :: w.consumed[(id, v)] <= if v < NextNonce(w.committed, id) then 1 else 0
  }

  ghost predicate Inv(p: Params, w: World) {
    QueuesKept(w.state) && DeadlinesKept(p, w.state, w.now) && Committed(w) && Solvent(w) && SpentOnce(w)
  }

  /** A contract as deployed over a funded state. */
  ghost predicate Initial(w: World) {
    && w.state == State(w.state.stateRoot, w.state.nextBatchId, 0, 0, map[], 0, 0, map[], false, {}, map[], w.state.holdings)
    && Committed(w) && w.consumed == multiset{} && w.state.holdings.sent == map[]
    && forall a :: Held(w.state.holdings, a) >= Total(w.committed, a)
  }

  lemma InitialInv(p: Params, w: World)
    requires Initial(w)
    ensures Inv(p, w)
  {
    hide ComputeRoot;
    var s := w.state;
    forall a ensures Held(s.holdings, a) >= Unescaped(w.committed, s.escaped, a)
                       + QueuedTotal(s.deposits, s.nextUnprocessedDeposit, s.nextDepositId, a) + PendingTotal(s.pending, a)
    {
      UnescapedAll(w.committed, a);
      assert s.escaped == {} && s.pending == map[] && s.nextDepositId == 0;
    }
  }

  // ----- what never goes back

  /** Queues only grow, entries stay, nonces and consumption only advance, and
      escape mode freezes root, batch id and cursors for good. */
  ghost predicate Advanced(w: World, next: World) {
    var s, t := w.state, next.state;
    && s.nextDepositId <= t.nextDepositId && s.nextUnprocessedDeposit <= t.nextUnprocessedDeposit
    && s.nextForcedId <= t.nextForcedId && s.nextUnprocessedForced <= t.nextUnprocessedForced
    && (forall id: nat :: id in s.deposits ==> id in t.deposits && t.deposits[id] == s.deposits[id])
    && (forall id: nat :: id in s.requests ==> id in t.requests && t.requests[id] == s.requests[id])
    && s.escaped <= t.escaped
    && (s.escapeMode ==>
          && t.escapeMode && t.stateRoot == s.stateRoot && t.nextBatchId == s.nextBatchId
          && t.nextUnprocessedDeposit == s.nextUnprocessedDeposit && t.nextUnprocessedForced == s.nextUnprocessedForced
          && next.committed == w.committed)
    && (forall id :: NextNonce(w.committed, id) <= NextNonce(next.committed, id))
    && w.consumed <= next.consumed
  }

  lemma AdvancedTrans(a: World, b: World, c: World)
    requires Advanced(a, b) && Advanced(b, c)
    ensures Advanced(a, c)
  {
    forall id ensures NextNonce(a.committed, id) <= NextNonce(c.committed, id) {
      assert NextNonce(a.committed, id) <= NextNonce(b.committed, id) <= NextNonce(c.committed, id);
    }
  }

  // ----- deposits, requests and donations

  lemma DepositSolvent(w: World, account: AccountId, asset: AssetId, amount: nat, next: State)
    requires Solvent(w) && QueuesKept(w.state)
    requires QueueDeposit(w.state.(holdings := Receive(w.state.holdings, asset, amount)), account, asset, amount) == Ok(next)
    ensures Solvent(w.(state := next))
  {
    var s := w.state;
    forall a ensures Held(next.holdings, a) >= Unescaped(w.committed, next.escaped, a)
                       + QueuedTotal(next.deposits, next.nextUnprocessedDeposit, next.nextDepositId, a) + PendingTotal(next.pending, a)
    {
      QueuedFrame(s.deposits, next.deposits, s.nextUnprocessedDeposit, s.nextDepositId, a);
    }
  }

  lemma DepositStep(p: Params, w: World, account: AccountId, asset: AssetId, amount: nat, next: State, now: nat)
    requires Inv(p, w) && w.now <= now
    requires QueueDeposit(w.state.(holdings := Receive(w.state.holdings, asset, amount)), account, asset, amount) == Ok(next)
    ensures Inv(p, World(next, w.committed, w.consumed, now)) && Advanced(w, World(next, w.committed, w.consumed, now))
  {
    hide ComputeRoot;
    DepositSolvent(w, account, asset, amount, next);
    assert Solvent(World(next, w.committed, w.consumed, now)) by {
      assert Solvent(w.(state := next));
    }
  }

  lemma RequestStep(p: Params, w: World, sender: AccountId, asset: AssetId, amount: nat, next: State, now: nat)
    requires Inv(p, w) && w.now <= now <= U64_MAX
    requires RequestForced(p, w.state, sender, asset, amount, now) == Ok(next)
    ensures Inv(p, World(next, w.committed, w.consumed, now)) && Advanced(w, World(next, w.committed, w.consumed, now))
  {
    hide ComputeRoot;
    var s := w.state;
    assert forall i: nat :: i < s.nextForcedId ==> Deadline(next.requests, i) == Deadline(s.requests, i);
    assert Deadline(next.requests, s.nextForcedId) == now + p.delay;
  }

  /** Moving money, and escaping in escape mode, touches nothing else. */
  lemma MoneyStep(p: Params, w: World, next: State, now: nat)
    requires Inv(p, w) && w.now <= now && Solvent(w.(state := next))
    requires next == w.state.(escaped := next.escaped, holdings := next.holdings, pending := next.pending)
    requires w.state.escaped <= next.escaped && (next.escaped != {} ==> w.state.escapeMode)
    ensures Inv(p, World(next, w.committed, w.consumed, now)) && Advanced(w, World(next, w.committed, w.consumed, now))
  {
    hide ComputeRoot, Held;
    assert Solvent(World(next, w.committed, w.consumed, now)) by {
      assert Solvent(w.(state := next));
    }
  }

  lemma DonationStep(p: Params, w: World, asset: AssetId, amount: nat, now: nat)
    requires Inv(p, w) && w.now <= now
    ensures var next := w.state.(holdings := Receive(w.state.holdings, asset, amount));
            Inv(p, World(next, w.committed, w.consumed, now)) && Advanced(w, World(next, w.committed, w.consumed, now))
  {
    hide ComputeRoot;
    MoneyStep(p, w, w.state.(holdings := Receive(w.state.holdings, asset, amount)), now);
  }

  lemma ActivationStep(p: Params, w: World, next: State, now: nat)
    requires Inv(p, w) && w.now <= now && ActivateEscape(w.state, now) == Ok(next)
    ensures Inv(p, World(next, w.committed, w.consumed, now)) && Advanced(w, World(next, w.committed, w.consumed, now))
  {
    hide ComputeRoot;
  }

  lemma ClaimStep(p: Params, w: World, claimant: AccountId, asset: AssetId, goes: bool, next: State, now: nat)
    requires Inv(p, w) && w.now <= now && WithdrawPending(w.state, claimant, asset, goes) == Ok(next)
    ensures Inv(p, World(next, w.committed, w.consumed, now)) && Advanced(w, World(next, w.committed, w.consumed, now))
  {
    hide ComputeRoot;
    var s := w.state;
    forall a ensures Held(next.holdings, a) >= Unescaped(w.committed, next.escaped, a)
                       + QueuedTotal(next.deposits, next.nextUnprocessedDeposit, next.nextDepositId, a) + PendingTotal(next.pending, a)
    {
      PendingUpdate(s.pending, claimant, asset, 0, a);
    }
    MoneyStep(p, w, next, now);
  }

  // ----- escape

  /** THEOREM. A successful escape pays out exactly the balances of an account
      of the committed state, and only once. */
  lemma EscapeIsExact(w: World, account: Account, sides: seq<Commitment>, works: seq<bool>, next: State)
    requires Committed(w) && EscapeWithdraw(w.state, account, sides, works) == Ok(next)
    ensures account in w.committed && account.id !in w.state.escaped && next.escaped == w.state.escaped + {account.id}
    ensures forall a :: Held(next.holdings, a) == Held(w.state.holdings, a) - EntrySum(account.balances, a)
    ensures next == w.state.(escaped := next.escaped, holdings := next.holdings)
  {
    EscapeUnfold(w.state, account, sides, works);
    hide EscapeWithdraw, FoldedRoot, ComputeRoot, PayBalances;
    FoldProvesMembership(w.committed, account, sides);
    forall a ensures Held(next.holdings, a) == Held(w.state.holdings, a) - EntrySum(account.balances, a) {
      BalancesPaid(w.state.holdings, account.id, account.balances, works, a);
    }
  }

  lemma EscapeUnfold(s: State, account: Account, sides: seq<Commitment>, works: seq<bool>)
    requires EscapeWithdraw(s, account, sides, works).Ok?
    ensures s.escapeMode && account.id !in s.escaped
    ensures FoldedRoot(account, sides) == Ok(s.stateRoot)
    ensures PayBalances(s.holdings, account.id, account.balances, works).Ok?
    ensures EscapeWithdraw(s, account, sides, works) ==
            Ok(s.(escaped := s.escaped + {account.id}, holdings := PayBalances(s.holdings, account.id, account.balances, works).value))
  {
    hide FoldedRoot, PayBalances;
  }

  lemma EscapeSolvent(w: World, account: Account, next: State)
    requires Solvent(w) && DistinctIds(w.committed)
    requires account in w.committed && account.id !in w.state.escaped && next.escaped == w.state.escaped + {account.id}
    requires forall a :: Held(next.holdings, a) == Held(w.state.holdings, a) - EntrySum(account.balances, a)
    requires next == w.state.(escaped := next.escaped, holdings := next.holdings)
    ensures Solvent(w.(state := next))
  {
    forall a ensures Held(next.holdings, a) >= Unescaped(w.committed, next.escaped, a)
                       + QueuedTotal(next.deposits, next.nextUnprocessedDeposit, next.nextDepositId, a) + PendingTotal(next.pending, a)
    {
      UnescapedStep(w.committed, w.state.escaped, account, a);
    }
  }

  lemma EscapeStep(p: Params, w: World, account: Account, sides: seq<Commitment>, works: seq<bool>, next: State, now: nat)
    requires Inv(p, w) && w.now <= now && EscapeWithdraw(w.state, account, sides, works) == Ok(next)
    ensures Inv(p, World(next, w.committed, w.consumed, now)) && Advanced(w, World(next, w.committed, w.consumed, now))
  {
    EscapeUnfold(w.state, account, sides, works);
    hide EscapeWithdraw, FoldedRoot, ComputeRoot, PayBalances;
    EscapeIsExact(w, account, sides, works, next);
    EscapeSolvent(w, account, next);
    hide Inv, Advanced, Solvent;
    MoneyStep(p, w, next, now);
  }

  /** In escape mode the proof built from the committed accounts is accepted
      and the holdings cover the account's balances. */
  lemma EscapePays(p: Params, w: World, account: Account, works: seq<bool>)
    requires Inv(p, w) && w.state.escapeMode
    requires account in w.committed && account.id !in w.state.escaped
    requires |works| >= |account.balances| && forall i :: 0 <= i < |works| ==> works[i]
    ensures BuildMultiproof(w.committed, [account.id]).Ok?
    ensures EscapeWithdraw(w.state, account, BuildMultiproof(w.committed, [account.id]).value.sideNodes, works).Ok?
  {
    FoldAgrees(w.committed, account);
    hide BuildMultiproof, FoldedRoot, ComputeRoot, PayBalances;
    forall a ensures EntrySum(account.balances, a) <= Held(w.state.holdings, a) {
      UnescapedStep(w.committed, w.state.escaped, account, a);
    }
    BalancesPayable(w.state.holdings, account.id, account.balances, works);
  }

  /** What is owed to one account is part of what is pending, and held. */
  lemma ClaimPays(p: Params, w: World, claimant: AccountId, asset: AssetId)
    requires Inv(p, w) && Owed(w.state.pending, claimant, asset) > 0
    ensures WithdrawPending(w.state, claimant, asset, true).Ok?
  {
    hide ComputeRoot;
    PendingRemove(w.state.pending, (claimant, asset), asset);
    assert Held(w.state.holdings, asset) >= PendingTotal(w.state.pending, asset);
  }

  // ----- settlement

  /** What a settlement that goes through has checked, and what it leaves. */
  lemma SettleUnfold(p: Params, s: State, m: Submission) returns (paid: (Holdings, Pending), left: (Holdings, Pending), newForced: nat)
    requires Settle(p, s, m).Ok?
    ensures !s.escapeMode && m.verified && CheckOutput(p, s, m.output).Pass?
    ensures CheckSettle(p, s, m) == ForcedCursor(s, m.output, |m.forced|) == Ok(newForced)
    ensures CheckConsumed(s, m.output, newForced).Pass? && CheckPayouts(m.output, m.withdrawals, m.forced).Pass?
    ensures PayWithdrawals(s.holdings, s.pending, m.withdrawals, m.withdrawalsWork) == Ok(paid)
    ensures PayForced(paid.0, paid.1, m.forced, m.forcedWork) == Ok(left)
    ensures Settle(p, s, m) == Ok(s.(stateRoot := m.output.newRoot, nextUnprocessedDeposit := m.output.newDepositCursor,
                                     nextUnprocessedForced := newForced, nextBatchId := (s.nextBatchId + 1) % (U64_MAX + 1),
                                     holdings := left.0, pending := left.1))
  {
    hide PayWithdrawals, PayForced, CheckPayouts;
    newForced := CheckSettle(p, s, m).value;
    paid := PayWithdrawals(s.holdings, s.pending, m.withdrawals, m.withdrawalsWork).value;
    left := PayForced(paid.0, paid.1, m.forced, m.forcedWork).value;
  }

  /** The hashes tie the call data and the queues to the batch: the truncated
      count is the true one and every consumed entry is the queued one. */
  lemma SettleMatches(p: Params, s: State, m: Submission, input: BatchInput, out: BatchOutput, newForced: nat)
    requires CheckOutput(p, s, m.output).Pass? && ForcedCursor(s, m.output, |m.forced|) == Ok(newForced)
    requires CheckConsumed(s, m.output, newForced).Pass? && CheckPayouts(m.output, m.withdrawals, m.forced).Pass?
    requires Outcome(input) == Ok(out) && out.public == m.output
    ensures m.output.oldRoot == s.stateRoot
    ensures m.withdrawals == Executed(input.withdrawals) && m.forced == ForcedEntries(out.forced)
    ensures m.output.newDepositCursor == s.nextUnprocessedDeposit + |input.deposits| <= s.nextDepositId
    ensures newForced == s.nextUnprocessedForced + |input.forced| <= s.nextForcedId
    ensures DepositRange(s.deposits, s.nextUnprocessedDeposit, m.output.newDepositCursor) == DepositEntries(input.deposits)
    ensures RequestRange(s.requests, s.nextUnprocessedForced, newForced) == ForcedEntries(input.forced)
  {
    SettlementRoots(input, out);
    hide Outcome;
    var deposits := DepositRange(s.deposits, m.output.oldDepositCursor, m.output.newDepositCursor);
    var requests := RequestRange(s.requests, m.output.oldForcedCursor, newForced);
    assert DepositsHash(deposits) == DepositsHash(DepositEntries(input.deposits));
    assert ForcedWithdrawalsHash(requests) == ForcedWithdrawalsHash(ForcedEntries(input.forced));
    assert WithdrawalsHash(m.withdrawals) == WithdrawalsHash(Executed(input.withdrawals));
    assert ForcedWithdrawalsHash(m.forced) == ForcedWithdrawalsHash(ForcedEntries(out.forced));
  }

  lemma SettleSolvent(w: World, m: Submission, input: BatchInput, out: BatchOutput, committed: seq<Account>,
                      paid: (Holdings, Pending), left: (Holdings, Pending), newDeposit: nat)
    requires Solvent(w) && w.state.escaped == {}
    requires m.withdrawals == Executed(input.withdrawals) && m.forced == ForcedEntries(out.forced)
    requires newDeposit == w.state.nextUnprocessedDeposit + |input.deposits| <= w.state.nextDepositId
    requires DepositRange(w.state.deposits, w.state.nextUnprocessedDeposit, newDeposit) == DepositEntries(input.deposits)
    requires forall a :: Total(committed, a) + WithdrawnTotal(input.withdrawals, a) + DrainedTotal(out.forced, a)
                           == Total(w.committed, a) + DepositedTotal(input.deposits, a)
    requires PayWithdrawals(w.state.holdings, w.state.pending, m.withdrawals, m.withdrawalsWork) == Ok(paid)
    requires PayForced(paid.0, paid.1, m.forced, m.forcedWork) == Ok(left)
    ensures forall a :: Held(left.0, a) >= Unescaped(committed, {}, a)
              + QueuedTotal(w.state.deposits, newDeposit, w.state.nextDepositId, a) + PendingTotal(left.1, a)
  {
    hide PayWithdrawals, PayForced, Held, Executed, ForcedEntries;
    var s := w.state;
    var range := DepositRange(s.deposits, s.nextUnprocessedDeposit, newDeposit);
    forall i | 0 <= i < |input.deposits|
      ensures DepositAt(s.deposits, s.nextUnprocessedDeposit + i) ==
              QueueEntry(input.deposits[i].id, input.deposits[i].account, input.deposits[i].asset, input.deposits[i].amount)
    {
      assert range[i] == DepositEntries(input.deposits)[i];
    }
    forall a ensures Held(left.0, a) >= Unescaped(committed, {}, a)
                       + QueuedTotal(s.deposits, newDeposit, s.nextDepositId, a) + PendingTotal(left.1, a)
    {
      PayoutsFree(s, m, input, out, paid, left, a);
      QueuedSplit(s.deposits, s.nextUnprocessedDeposit, newDeposit, s.nextDepositId, a);
      QueuedIsDeposited(s.deposits, s.nextUnprocessedDeposit, input.deposits, a);
      UnescapedAll(committed, a);
      UnescapedAll(w.committed, a);
      assert Held(s.holdings, a) >= Unescaped(w.committed, s.escaped, a)
        + QueuedTotal(s.deposits, s.nextUnprocessedDeposit, s.nextDepositId, a) + PendingTotal(s.pending, a);
    }
  }

  /** What a settlement pays out or owes comes off what is free. */
  lemma PayoutsFree(s: State, m: Submission, input: BatchInput, out: BatchOutput, paid: (Holdings, Pending), left: (Holdings, Pending),
                    asset: AssetId)
    requires m.withdrawals == Executed(input.withdrawals) && m.forced == ForcedEntries(out.forced)
    requires PayWithdrawals(s.holdings, s.pending, m.withdrawals, m.withdrawalsWork) == Ok(paid)
    requires PayForced(paid.0, paid.1, m.forced, m.forcedWork) == Ok(left)
    ensures Held(left.0, asset) - PendingTotal(left.1, asset) == Held(s.holdings, asset) - PendingTotal(s.pending, asset)
              - WithdrawnTotal(input.withdrawals, asset) - DrainedTotal(out.forced, asset)
  {
    hide PayWithdrawals, PayForced, Held, Executed, ForcedEntries;
    WithdrawalsFree(s.holdings, s.pending, m.withdrawals, m.withdrawalsWork, asset);
    ForcedFree(paid.0, paid.1, m.forced, m.forcedWork, asset);
    ExecutedIsWithdrawn(input.withdrawals, asset);
    EntriesAreDrained(out.forced, asset);
  }

  /** Consuming a batch's run of every account keeps every pair single. */
  lemma SpentStep(before: seq<Account>, after: seq<Account>, consumed: multiset<(AccountId, nat)>, pairs: seq<(AccountId, nat)>)
    requires forall id: AccountId, v: nat :: consumed[(id, v)] <= if v < NextNonce(before, id) then 1 else 0
    requires ConsumesRuns(before, after, pairs)
    requires forall id :: NextNonce(before, id) <= NextNonce(after, id)
    ensures forall id: AccountId, v: nat :: (consumed + multiset(pairs))[(id, v)] <= if v < NextNonce(after, id) then 1 else 0
  {
    forall id: AccountId, v: nat ensures (consumed + multiset(pairs))[(id, v)] <= if v < NextNonce(after, id) then 1 else 0 {
      assert multiset(pairs)[(id, v)] == if NextNonce(before, id) <= v < NextNonce(after, id) then 1 else 0;
      assert consumed[(id, v)] <= if v < NextNonce(before, id) then 1 else 0;
    }
  }

  /** What a settlement that goes through makes of the world. */
  lemma SettleFacts(p: Params, w: World, m: Submission, input: BatchInput, next: State)
    requires Inv(p, w) && Settle(p, w.state, m) == Ok(next)
    requires m.verified ==> Typed(input) && Outcome(input).Ok? && Outcome(input).value.public == m.output
    ensures Outcome(input).Ok? && !w.state.escapeMode
    ensures next == w.state.(stateRoot := next.stateRoot, nextUnprocessedDeposit := next.nextUnprocessedDeposit,
                             nextUnprocessedForced := next.nextUnprocessedForced, nextBatchId := next.nextBatchId,
                             holdings := next.holdings, pending := next.pending)
    ensures w.state.nextUnprocessedDeposit <= next.nextUnprocessedDeposit <= next.nextDepositId
    ensures w.state.nextUnprocessedForced <= next.nextUnprocessedForced <= next.nextForcedId
    ensures var committed := Replaced(w.committed, input.proof.leafKeys, Outcome(input).value.accounts);
            && DistinctIds(committed) && ComputeRoot(committed) == Ok(next.stateRoot)
            && (forall a :: Held(next.holdings, a) >= Unescaped(committed, next.escaped, a)
                  + QueuedTotal(next.deposits, next.nextUnprocessedDeposit, next.nextDepositId, a) + PendingTotal(next.pending, a))
            && ConsumesRuns(w.committed, committed, Pairs(input.orders, input.withdrawals))
            && (forall id :: NextNonce(w.committed, id) <= NextNonce(committed, id))
  {
    hide Settle, Outcome, ComputeRoot, Typed, CheckConsumed, CheckPayouts, PayWithdrawals, PayForced, Pairs, Replaced,
      Executed, ForcedEntries, DeadlinesKept, ConsumesRuns, SpentOnce, DepositRange, RequestRange, DepositEntries, Held;
    var paid, left, newForced := SettleUnfold(p, w.state, m);
    var out := Outcome(input).value;
    SettleMatches(p, w.state, m, input, out, newForced);
    SettlementTransition(w.committed, input, out);
    var committed := Replaced(w.committed, input.proof.leafKeys, out.accounts);
    assert w.state.escaped == {};
    SettleSolvent(w, m, input, out, committed, paid, left, m.output.newDepositCursor);
  }

  lemma SettleStep(p: Params, w: World, m: Submission, input: BatchInput, next: State, now: nat)
    requires Inv(p, w) && w.now <= now && Settle(p, w.state, m) == Ok(next)
    requires Sound(Call(now, Settlement(m, input)))
    ensures Outcome(input).Ok?
    ensures var after := World(next, Replaced(w.committed, input.proof.leafKeys, Outcome(input).value.accounts),
                               w.consumed + multiset(Pairs(input.orders, input.withdrawals)), now);
            Inv(p, after) && Advanced(w, after)
  {
    hide Settle, Outcome, ComputeRoot, Typed, Pairs, ConsumesRuns, Replaced, Held;
    SettleFacts(p, w, m, input, next);
    var committed := Replaced(w.committed, input.proof.leafKeys, Outcome(input).value.accounts);
    SpentStep(w.committed, committed, w.consumed, Pairs(input.orders, input.withdrawals));
  }

  // ----- every step, every run

  lemma StepKeeps(p: Params, w: World, call: Call)
    requires Inv(p, w) && Sound(call) && w.now <= call.now <= U64_MAX
    ensures Inv(p, Step(p, w, call)) && Advanced(w, Step(p, w, call))
  {
    hide ComputeRoot, Outcome, Settle, EscapeWithdraw, QueueDeposit;
    if Apply(p, w.state, call).Ok? {
      var next := Apply(p, w.state, call).value;
      match call.action
      case NativeDeposit(sender, value) => DepositStep(p, w, sender, NATIVE, value, next, call.now);
      case TokenDeposit(sender, token, amount, _, _) => DepositStep(p, w, sender, token, amount, next, call.now);
      case ForcedRequest(sender, asset, amount) => RequestStep(p, w, sender, asset, amount, next, call.now);
      case EscapeActivation => ActivationStep(p, w, next, call.now);
      case Escape(account, sides, works) => EscapeStep(p, w, account, sides, works, next, call.now);
      case Claim(claimant, asset, goes) => ClaimStep(p, w, claimant, asset, goes, next, call.now);
      case Settlement(submission, input) => SettleStep(p, w, submission, input, next, call.now);
      case Donation(asset, amount) => DonationStep(p, w, asset, amount, call.now);
    }
  }

  lemma {:induction false} RunKeeps(p: Params, w: World, calls: seq<Call>)
    requires Inv(p, w) && Proper(w.now, calls)
    ensures Inv(p, Run(p, w, calls)) && Advanced(w, Run(p, w, calls))
    decreases |calls|
  {
    hide Inv, Advanced, Apply;
    if calls == [] {
      AdvancedSelf(w);
    } else {
      StepKeeps(p, w, calls[0]);
      RunKeeps(p, Step(p, w, calls[0]), calls[1..]);
      AdvancedTrans(w, Step(p, w, calls[0]), Run(p, w, calls));
    }
  }

  lemma AdvancedSelf(w: World)
    ensures Advanced(w, w)
  {
  }

  /** THEOREM (solvency). Over every run of sound calls from a funded state the
      holdings of each asset cover the committed balances that have not
      escaped, the unprocessed deposits and the pending payouts. */
  lemma RunsStaySolvent(p: Params, w: World, calls: seq<Call>)
    requires Initial(w) && Proper(w.now, calls)
    ensures var end := Run(p, w, calls);
            && Committed(end)
            && forall a :: Held(end.state.holdings, a) >=
                 Unescaped(end.committed, end.state.escaped, a)
                 + QueuedTotal(end.state.deposits, end.state.nextUnprocessedDeposit, end.state.nextDepositId, a)
                 + PendingTotal(end.state.pending, a)
  {
    InitialInv(p, w);
    hide Run, Initial;
    RunKeeps(p, w, calls);
  }

  /** THEOREM (exits). At the end of every run every committed account that has
      not escaped can escape once escape mode is set, on the proof built from
      the committed accounts and whoever escaped before, and every pending payout
      can be claimed, as far as the transfers themselves go through. */
  lemma ExitsAlwaysPay(p: Params, w: World, calls: seq<Call>)
    requires Initial(w) && Proper(w.now, calls)
    ensures var end := Run(p, w, calls);
            && (forall account, works: seq<bool> ::
                  && end.state.escapeMode && account in end.committed && account.id !in end.state.escaped
                  && |works| >= |account.balances| && (forall i :: 0 <= i < |works| ==> works[i]) ==>
                  && BuildMultiproof(end.committed, [account.id]).Ok?
                  && EscapeWithdraw(end.state, account, BuildMultiproof(end.committed, [account.id]).value.sideNodes, works).Ok?)
            && forall claimant, asset :: Owed(end.state.pending, claimant, asset) > 0 ==>
                  WithdrawPending(end.state, claimant, asset, true).Ok?
  {
    hide Run, Initial, Inv, EscapeWithdraw, WithdrawPending, BuildMultiproof, Owed;
    InitialInv(p, w);
    RunKeeps(p, w, calls);
    var end := Run(p, w, calls);
    forall account, works: seq<bool> |
      && end.state.escapeMode && account in end.committed && account.id !in end.state.escaped
      && |works| >= |account.balances| && (forall i :: 0 <= i < |works| ==> works[i])
      ensures BuildMultiproof(end.committed, [account.id]).Ok?
      ensures EscapeWithdraw(end.state, account, BuildMultiproof(end.committed, [account.id]).value.sideNodes, works).Ok?
    {
      EscapePays(p, end, account, works);
    }
    forall claimant, asset | Owed(end.state.pending, claimant, asset) > 0
      ensures WithdrawPending(end.state, claimant, asset, true).Ok?
    {
      ClaimPays(p, end, claimant, asset);
    }
  }

  /** THEOREM (what stays behind). Deposits still queued when escape mode is set
      are never paid out: from then on, over every further run, the holdings
      cover them on top of all that can still leave. */
  lemma QueuedStayBehind(p: Params, w: World, calls: seq<Call>, i: nat, asset: AssetId)
    requires Initial(w) && Proper(w.now, calls) && i <= |calls|
    ensures var mid := Run(p, w, calls[..i]);
            var end := Run(p, w, calls);
            mid.state.escapeMode ==>
              Held(end.state.holdings, asset) >=
              Unescaped(end.committed, end.state.escaped, asset) + PendingTotal(end.state.pending, asset)
              + QueuedTotal(mid.state.deposits, mid.state.nextUnprocessedDeposit, mid.state.nextDepositId, asset)
  {
    hide Run, Proper, Initial, PendingTotal, Unescaped, DeadlinesKept, ComputeRoot;
    RunsOnlyAdvance(p, w, calls, i);
    RunsStaySolvent(p, w, calls);
    var mid, end := Run(p, w, calls[..i]).state, Run(p, w, calls).state;
    if mid.escapeMode {
      QueuedFrame(mid.deposits, end.deposits, mid.nextUnprocessedDeposit, mid.nextDepositId, asset);
      QueuedSplit(end.deposits, mid.nextUnprocessedDeposit, mid.nextDepositId, end.nextDepositId, asset);
    }
  }

  /** THEOREM (replay freedom). No run consumes an (account, nonce) pair twice,
      and no pair already consumed is at or above the account's next nonce. */
  lemma NoncesNeverReused(p: Params, w: World, calls: seq<Call>)
    requires Initial(w) && Proper(w.now, calls)
    ensures var end := Run(p, w, calls);
            forall id: AccountId, v: nat :: end.consumed[(id, v)] <= 1
              && (end.consumed[(id, v)] > 0 ==> v < NextNonce(end.committed, id))
  {
    InitialInv(p, w);
    hide Run, Initial;
    RunKeeps(p, w, calls);
    hide Inv;
    var end := Run(p, w, calls);
    assert SpentOnce(end);
    forall id: AccountId, v: nat
      ensures end.consumed[(id, v)] <= 1 && (end.consumed[(id, v)] > 0 ==> v < NextNonce(end.committed, id))
    {
      assert end.consumed[(id, v)] <= if v < NextNonce(end.committed, id) then 1 else 0;
    }
  }

  /** THEOREM (queues and freezing). At any two points of a run: cursors and
      queue ends only advance and stay in order, entries never change,
      deadlines are non-decreasing in id, and once escape mode is set root,
      batch id, cursors and committed accounts never change again. */
  lemma RunsOnlyAdvance(p: Params, w: World, calls: seq<Call>, i: nat)
    requires Initial(w) && Proper(w.now, calls) && i <= |calls|
    ensures var mid := Run(p, w, calls[..i]);
            var end := Run(p, w, calls);
            Advanced(mid, end) && QueuesKept(mid.state) && DeadlinesKept(p, mid.state, mid.now)
  {
    InitialInv(p, w);
    hide Initial;
    RunSplit(p, w, calls, i);
    ProperSplit(p, w, calls, i);
    hide Run, Proper;
    RunKeeps(p, w, calls[..i]);
    RunKeeps(p, Run(p, w, calls[..i]), calls[i..]);
  }

  lemma {:induction false} RunSplit(p: Params, w: World, calls: seq<Call>, i: nat)
    requires i <= |calls|
    ensures Run(p, w, calls) == Run(p, Run(p, w, calls[..i]), calls[i..])
    decreases |calls|
  {
    hide Step;
    if i > 0 {
      RunSplit(p, Step(p, w, calls[0]), calls[1..], i - 1);
      assert calls[..i][1..] == calls[1..][..i - 1] && calls[i..] == calls[1..][i - 1..];
    } else {
      assert calls[i..] == calls && calls[..i] == [];
    }
  }

  lemma {:induction false} ProperSplit(p: Params, w: World, calls: seq<Call>, i: nat)
    requires i <= |calls| && Proper(w.now, calls)
    ensures Proper(w.now, calls[..i]) && Proper(Run(p, w, calls[..i]).now, calls[i..])
    decreases |calls|
  {
    hide Sound, Apply, Outcome;
    if i > 0 {
      ProperSplit(p, Step(p, w, calls[0]), calls[1..], i - 1);
      assert calls[..i][1..] == calls[1..][..i - 1] && calls[i..] == calls[1..][i - 1..];
    } else {
      assert calls[i..] == calls && calls[..i] == [];
    }
  }

  /** How often an account escapes in a run. */
  function Escapes(p: Params, w: World, calls: seq<Call>, id: AccountId): nat
    decreases |calls|
  {
    if calls == [] then 0
    else (if calls[0].action.Escape? && calls[0].action.account.id == id && Apply(p, w.state, calls[0]).Ok? then 1 else 0)
         + Escapes(p, Step(p, w, calls[0]), calls[1..], id)
  }

  /** THEOREM. Each account escapes at most once. */
  lemma {:induction false} EscapesAtMostOnce(p: Params, w: World, calls: seq<Call>, id: AccountId)
    ensures Escapes(p, w, calls, id) <= if id in w.state.escaped then 0 else 1
    decreases |calls|
  {
    if calls != [] {
      var next := Step(p, w, calls[0]);
      EscapesAtMostOnce(p, next, calls[1..], id);
      EscapedGrows(p, w, calls[0], id);
    }
  }

  lemma EscapedGrows(p: Params, w: World, call: Call, id: AccountId)
    ensures id in w.state.escaped ==> id in Step(p, w, call).state.escaped
    ensures call.action.Escape? && call.action.account.id == id && Apply(p, w.state, call).Ok? ==>
              id !in w.state.escaped && id in Step(p, w, call).state.escaped
  {
    hide Outcome, Settle, EscapeWithdraw, Pairs, Replaced;
    if Apply(p, w.state, call).Ok? {
      match call.action
      case Escape(account, sides, works) =>
        EscapeUnfold(w.state, account, sides, works);
      case Settlement(submission, _) =>
        var paid, left, newForced := SettleUnfold(p, w.state, submission);
      case _ =>
    }
  }
}
