/** Host, guest and contract together: a host that applies every settled batch
    stays on the contract's root, and what it builds the contract accepts. */
module Lockstep {
  import opened Keys
  import opened Results
  import opened Types
  import opened Ledger
  import opened Operations
  import opened Nonces
  import opened Patricia
  import opened PatriciaTheorems
  import opened Settlement
  import opened SettlementTheorems
  import opened Transition
  import opened Host
  import opened Builder
  import opened BuiltBatches
  import opened Contract
  import opened Solvency
  import opened Runs
  import opened Acceptance

  // ----- the host beside the contract

  /** The host applies a batch when the contract has settled it. */
  function HostStep(p: Params, w: World, call: Call, host: seq<Account>): seq<Account> {
    if call.action.Settlement? && Runs.Apply(p, w.state, call).Ok? && Outcome(call.action.input).Ok? then
      NextState(host, Outcome(call.action.input).value.accounts)
    else
      host
  }

  function FollowHost(p: Params, w: World, calls: seq<Call>, host: seq<Account>): seq<Account>
    decreases |calls|
  {
    if calls == [] then host else FollowHost(p, Step(p, w, calls[0]), calls[1..], HostStep(p, w, calls[0], host))
  }

  /** Host accounts in good form, under the contract's root. */
  ghost predicate InStep(w: World, host: seq<Account>) {
    ValidAccounts(host) && NoncesFit(host) && ComputeRoot(host) == Ok(w.state.stateRoot)
  }

  lemma SettlementKeepsStep(p: Params, w: World, m: Submission, input: BatchInput, host: seq<Account>)
    requires Inv(p, w) && InStep(w, host) && Settle(p, w.state, m).Ok?
    requires m.verified ==> Typed(input) && Outcome(input).Ok? && Outcome(input).value.public == m.output
    ensures Outcome(input).Ok?
    ensures Settle(p, w.state, m).value.stateRoot == m.output.newRoot
    ensures var after := NextState(host, Outcome(input).value.accounts);
            ValidAccounts(after) && NoncesFit(after) && ComputeRoot(after) == Ok(m.output.newRoot)
  {
    hide Settle, Outcome, ComputeRoot, Typed, CheckConsumed, CheckPayouts, PayWithdrawals, PayForced, NextState, ValidAccounts, NoncesFit,
      DeadlinesKept, Solvent, SpentOnce, RootFromProof;
    var paid, left, newForced := SettleUnfold(p, w.state, m);
    var out := Outcome(input).value;
    SettleMatches(p, w.state, m, input, out, newForced);
    SettlementRoots(input, out);
    HostFollowsGuest(host, input, out);
  }

  lemma StepKeepsStep(p: Params, w: World, call: Call, host: seq<Account>)
    requires Inv(p, w) && Sound(call) && InStep(w, host)
    ensures InStep(Step(p, w, call), HostStep(p, w, call, host))
  {
    hide Outcome, Settle, EscapeWithdraw, ComputeRoot, NextState, ValidAccounts, NoncesFit, Inv, Typed, QueueDeposit;
    match call.action
    case Settlement(submission, input) =>
      if Settle(p, w.state, submission).Ok? {
        SettlementKeepsStep(p, w, submission, input, host);
      }
    case Escape(account, sides, works) =>
      if EscapeWithdraw(w.state, account, sides, works).Ok? {
        EscapeUnfold(w.state, account, sides, works);
      }
    case NativeDeposit(_, _) => RootUnmoved(p, w, call);
    case TokenDeposit(_, _, _, _, _) => RootUnmoved(p, w, call);
    case _ =>
  }

  lemma RootUnmoved(p: Params, w: World, call: Call)
    requires call.action.NativeDeposit? || call.action.TokenDeposit?
    ensures Step(p, w, call).state.stateRoot == w.state.stateRoot
  {
  }

  lemma {:induction false} RunKeepsStep(p: Params, w: World, calls: seq<Call>, host: seq<Account>)
    requires Inv(p, w) && Proper(w.now, calls) && InStep(w, host)
    ensures InStep(Run(p, w, calls), FollowHost(p, w, calls, host))
    decreases |calls|
  {
    hide Inv, InStep, Runs.Apply, Sound, HostStep, Runs.Advanced;
    if calls != [] {
      StepKeeps(p, w, calls[0]);
      StepKeepsStep(p, w, calls[0], host);
      RunKeepsStep(p, Step(p, w, calls[0]), calls[1..], HostStep(p, w, calls[0], host));
    }
  }

  /** THEOREM (lockstep). Over every run of sound calls from a deployed
      contract, a host that starts on its root and applies every settled batch
      ends on its root, holding exactly the committed accounts, ready to build. */
  lemma HostStaysInStep(p: Params, w: World, calls: seq<Call>, host: seq<Account>)
    requires Initial(w) && Proper(w.now, calls) && InStep(w, host)
    ensures var end, last := Run(p, w, calls), FollowHost(p, w, calls, host);
            InStep(end, last) && SameAccounts(last, end.committed)
  {
    hide Run, FollowHost, ComputeRoot, Initial, DeadlinesKept, Solvent, SpentOnce, QueuesKept, Runs.Advanced, Proper;
    InitialInv(p, w);
    RunKeeps(p, w, calls);
    RunKeepsStep(p, w, calls, host);
    SortedDistinct(FollowHost(p, w, calls, host));
    RootBindsAccounts(FollowHost(p, w, calls, host), Run(p, w, calls).committed);
  }

  // ----- a batch for the contract

  /** The batch is built for this contract, on its queues where they stand. */
  ghost predicate BuiltFor(b: Batch, p: Params, s: State) {
    && b.domain == SigningDomain(p.protocolVersion, p.chainId, p.exchange) && ConfigHash(b.config) == p.configHash
    && b.batchId == s.nextBatchId
    && b.depositCursor == s.nextUnprocessedDeposit && b.depositCursor + |b.deposits| <= s.nextDepositId
    && DepositsQueued(s.deposits, b.depositCursor, b.deposits)
    && b.forcedCursor == s.nextUnprocessedForced && b.forcedCursor + |b.forced| <= s.nextForcedId
    && RequestsQueued(s.requests, b.forcedCursor, b.forced)
  }

  /** The call data for a proven output, whichever transfers go through. */
  function SubmissionOf(out: BatchOutput, withdrawalsWork: seq<bool>, forcedWork: seq<bool>): Submission {
    Submission(out.public, true, out.withdrawals, ForcedEntries(out.forced), withdrawalsWork, forcedWork)
  }

  lemma BuiltIsNext(p: Params, w: World, b: Batch, input: BatchInput)
    requires InStep(w, b.state) && BuiltFor(b, p, w.state) && Reachable(b) && BuildBatch(b) == Ok(input)
    ensures NextBatch(p, w.state, input)
  {
    hide BuildBatch, Reachable, ComputeRoot, NoncesFit, Host.Witness, SortBooks, Rank, RankOrders, RankWithdrawals, SortedById, AllSequential;
    BuildUnfold(b, input);
  }

  lemma SubmissionOwn(input: BatchInput, out: BatchOutput, withdrawalsWork: seq<bool>, forcedWork: seq<bool>)
    requires Outcome(input) == Ok(out)
    ensures OwnPayouts(SubmissionOf(out, withdrawalsWork, forcedWork), input, out)
  {
    hide Outcome;
    SettlementRoots(input, out);
  }

  /** THEOREM (progress). At the end of every run that has not entered escape
      mode, whatever batch the host builds over its state for the contract's
      queues and settles, the contract accepts, whichever of its transfers go
      through, and the holdings cover every payout beside all that is pending. */
  lemma BuiltBatchAccepted(p: Params, w: World, calls: seq<Call>, host: seq<Account>, b: Batch, input: BatchInput, out: BatchOutput,
                           withdrawalsWork: seq<bool>, forcedWork: seq<bool>)
    requires Initial(w) && Proper(w.now, calls) && InStep(w, host)
    requires !Run(p, w, calls).state.escapeMode && HoldingsFit(Run(p, w, calls).state) && b.state == FollowHost(p, w, calls, host)
    requires Reachable(b) && BuildBatch(b) == Ok(input) && Typed(input) && Outcome(input) == Ok(out)
    requires BuiltFor(b, p, Run(p, w, calls).state)
    ensures Settle(p, Run(p, w, calls).state, SubmissionOf(out, withdrawalsWork, forcedWork)).Ok?
    ensures PayoutsCovered(Run(p, w, calls).state, out)
  {
    hide Run, FollowHost, Initial, Settle, Outcome, BuildBatch, Reachable, BuiltFor, Proper, InStep, NextBatch, OwnPayouts, HoldingsFit,
      PayoutsCovered, Typed;
    HostStaysInStep(p, w, calls, host);
    BuiltIsNext(p, Run(p, w, calls), b, input);
    SubmissionOwn(input, out, withdrawalsWork, forcedWork);
    SettlesOnChainExactly(p, w, calls, SubmissionOf(out, withdrawalsWork, forcedWork), input, out);
  }
}
