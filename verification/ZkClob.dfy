/** The contract as it runs: storage fields mutated in place, loops over the
    payouts, every revert undoing the whole call (ZkClob.sol). */
module ZkClob {
  import opened Keys
  import opened Results
  import opened Types
  import opened Settlement
  import opened AccountProof
  import opened Contract

  /** A call reverts with its specified error and changes nothing, or leaves
      its specified state. */
  ghost predicate Answers(c: Check, specified: Result<State>, before: State, after: State) {
    match specified
    case Ok(state) => c.Pass? && after == state
    case Err(error) => c == Fail(error) && after == before
  }

  class ZkClob {
    const params: Params
    var stateRoot: Digest
    var nextBatchId: nat
    var nextDepositId: nat
    var nextUnprocessedDeposit: nat
    var deposits: map<nat, QueuedDeposit>
    var nextForcedId: nat
    var nextUnprocessedForced: nat
    var requests: map<nat, Request>
    var escapeMode: bool
    var escaped: set<AccountId>
    var pending: Pending
    var holdings: Holdings

    ghost function Abs(): State
      reads this
    {
      State(stateRoot, nextBatchId, nextDepositId, nextUnprocessedDeposit, deposits, nextForcedId, nextUnprocessedForced,
            requests, escapeMode, escaped, pending, holdings)
    }

    constructor (p: Params, initialRoot: Digest, initialBatchId: nat, funds: map<AssetId, nat>)
      ensures params == p
      ensures Abs() == State(initialRoot, initialBatchId, 0, 0, map[], 0, 0, map[], false, {}, map[], Holdings(funds, map[]))
    {
      params := p;
      stateRoot, nextBatchId := initialRoot, initialBatchId;
      nextDepositId, nextUnprocessedDeposit, deposits := 0, 0, map[];
      nextForcedId, nextUnprocessedForced, requests := 0, 0, map[];
      escapeMode, escaped := false, {};
      pending, holdings := map[], Holdings(funds, map[]);
    }

    /** The deployment, which a zero verifier address reverts. */
    static method Deploy(verifier: AccountId, p: Params, initialRoot: Digest, initialBatchId: nat, funds: map<AssetId, nat>)
      returns (r: Result<ZkClob>)
      ensures verifier == 0 ==> r == Err(ZeroVerifier)
      ensures verifier != 0 ==>
        && r.Ok? && fresh(r.value) && r.value.params == p
        && r.value.Abs() == State(initialRoot, initialBatchId, 0, 0, map[], 0, 0, map[], false, {}, map[], Holdings(funds, map[]))
    {
      if verifier == 0 {
        return Err(ZeroVerifier);
      }
      var contract := new ZkClob(p, initialRoot, initialBatchId, funds);
      r := Ok(contract);
    }

    method DepositNative(sender: AccountId, value: nat) returns (c: Check, depositId: nat)
      modifies this
      ensures Answers(c, Contract.DepositNative(old(Abs()), sender, value), old(Abs()), Abs())
      ensures c.Pass? ==> depositId == old(nextDepositId)
    {
      var before := holdings;
      holdings := Receive(holdings, NATIVE, value);
      c, depositId := QueueDeposit(sender, NATIVE, value);
      if c.Fail? {
        holdings := before;
      }
    }

    method DepositToken(sender: AccountId, token: AssetId, amount: nat, value: nat, received: Option<nat>)
      returns (c: Check, depositId: nat)
      modifies this
      ensures Answers(c, Contract.DepositToken(old(Abs()), sender, token, amount, value, received), old(Abs()), Abs())
      ensures c.Pass? ==> depositId == old(nextDepositId)
    {
      depositId := 0;
      if token == NATIVE {
        return Fail(InvalidToken), 0;
      }
      if value != 0 {
        return Fail(UnexpectedNativeValue), 0;
      }
      c := ValidateDepositAmount(amount);
      if c.Fail? {
        return;
      }
      if received.None? {
        return Fail(TokenTransferFailed), 0;
      }
      var before := holdings;
      holdings := Receive(holdings, token, received.value);
      if received.value != amount {
        holdings := before;
        return Fail(TokenTransferAmountMismatch), 0;
      }
      c, depositId := QueueDeposit(sender, token, amount);
      if c.Fail? {
        holdings := before;
      }
    }

    method ValidateDepositAmount(amount: nat) returns (c: Check)
      ensures c == if amount == 0 then Fail(ZeroDepositAmount) else if amount > U128_MAX then Fail(DepositAmountOverflow) else Pass
    {
      if amount == 0 {
        return Fail(ZeroDepositAmount);
      }
      if amount > U128_MAX {
        return Fail(DepositAmountOverflow);
      }
      c := Pass;
    }

    method QueueDeposit(account: AccountId, asset: AssetId, amount: nat) returns (c: Check, depositId: nat)
      modifies `nextDepositId, `deposits
      ensures Answers(c, Contract.QueueDeposit(old(Abs()), account, asset, amount), old(Abs()), Abs())
      ensures c.Pass? ==> depositId == old(nextDepositId)
    {
      depositId := nextDepositId;
      c := ValidateDepositAmount(amount);
      if c.Fail? {
        return;
      }
      if depositId + 1 > U64_MAX {
        return Fail(ArithmeticOverflow), depositId;
      }
      nextDepositId := depositId + 1;
      deposits := deposits[depositId := QueuedDeposit(account, asset, amount)];
    }

    method RequestForced(sender: AccountId, asset: AssetId, amount: nat, now: nat) returns (c: Check, requestId: nat)
      modifies this
      ensures Answers(c, Contract.RequestForced(params, old(Abs()), sender, asset, amount, now), old(Abs()), Abs())
      ensures c.Pass? ==> requestId == old(nextForcedId)
    {
      requestId := nextForcedId;
      if amount == 0 {
        return Fail(ZeroForcedWithdrawalAmount), requestId;
      }
      if requestId + 1 > U64_MAX {
        return Fail(ArithmeticOverflow), requestId;
      }
      var deadline := now % (U64_MAX + 1) + params.delay;
      if deadline > U64_MAX {
        return Fail(ArithmeticOverflow), requestId;
      }
      nextForcedId := requestId + 1;
      requests := requests[requestId := Request(sender, asset, amount, deadline)];
      c := Pass;
    }

    method ActivateEscape(now: nat) returns (c: Check)
      modifies this
      ensures Answers(c, Contract.ActivateEscape(old(Abs()), now), old(Abs()), Abs())
    {
      if nextUnprocessedForced >= nextForcedId {
        return Fail(NoPendingForcedWithdrawal);
      }
      if now < Deadline(requests, nextUnprocessedForced) {
        return Fail(ForcedWithdrawalDeadlineNotElapsed);
      }
      escapeMode := true;
      c := Pass;
    }

    /** Sends without ever failing the caller. */
    method AttemptTransfer(asset: AssetId, recipient: AccountId, amount: nat, works: bool) returns (success: bool)
      modifies `holdings
      ensures success <==> Transfer(old(holdings), asset, recipient, amount, works).Some?
      ensures holdings == if success then Transfer(old(holdings), asset, recipient, amount, works).value else old(holdings)
    {
      success := works && amount <= Held(holdings, asset);
      if success {
        holdings := Holdings(holdings.balances[asset := Held(holdings, asset) - amount],
                             holdings.sent[(recipient, asset) := Sent(holdings, recipient, asset) + amount]);
      }
    }

    method EscapeWithdraw(account: Account, sides: seq<Commitment>, works: seq<bool>) returns (c: Check)
      modifies this
      ensures Answers(c, Contract.EscapeWithdraw(old(Abs()), account, sides, works), old(Abs()), Abs())
    {
      hide Contract.PayBalances, FoldedRoot;
      if !escapeMode {
        return Fail(EscapeModeNotActive);
      }
      if account.id in escaped {
        return Fail(AlreadyEscaped);
      }
      var reconstructed := VerifyAccount(account, sides);
      if reconstructed.Err? {
        return Fail(reconstructed.error);
      }
      if reconstructed.value != stateRoot {
        return Fail(InvalidEscapeProof);
      }
      var before := escaped;
      escaped := escaped + {account.id};
      c := ExecuteEscape(account.id, account.balances, works);
      if c.Fail? {
        escaped := before;
      }
    }

    method ExecuteEscape(id: AccountId, balances: seq<AssetBalance>, works: seq<bool>) returns (c: Check)
      modifies `holdings
      ensures match PayBalances(old(holdings), id, balances, works)
              case Ok(left) => c.Pass? && holdings == left
              case Err(e) => c == Fail(e) && holdings == old(holdings)
    {
      var before := holdings;
      var outcomes := works;
      for i := 0 to |balances|
        invariant PayBalances(before, id, balances, works) == PayBalances(holdings, id, balances[i..], outcomes)
      {
        assert balances[i..][0] == balances[i] && balances[i..][1..] == balances[i + 1..];
        if balances[i].available != 0 {
          var success := AttemptTransfer(balances[i].asset, id, balances[i].available, First(outcomes));
          if !success {
            holdings := before;
            return Fail(if balances[i].asset == NATIVE then NativeEscapeWithdrawalFailed else TokenTransferFailed);
          }
        }
        outcomes := Rest(outcomes);
      }
      c := Pass;
    }

    method WithdrawPending(account: AccountId, asset: AssetId, works: bool) returns (c: Check)
      modifies this
      ensures Answers(c, Contract.WithdrawPending(old(Abs()), account, asset, works), old(Abs()), Abs())
    {
      var amount := Owed(pending, account, asset);
      if amount == 0 {
        return Fail(NoPendingWithdrawal);
      }
      var before := pending;
      pending := pending[(account, asset) := 0];
      var success := AttemptTransfer(asset, account, amount, works);
      if !success {
        pending := before;
        return Fail(PendingWithdrawalTransferFailed);
      }
      c := Pass;
    }

    method Settle(m: Submission) returns (c: Check)
      modifies this
      ensures Answers(c, Contract.Settle(params, old(Abs()), m), old(Abs()), Abs())
    {
      hide CheckOutput, ForcedCursor, CheckConsumed, CheckPayouts, Contract.ApplySettlement;
      if escapeMode {
        return Fail(EscapeModeActive);
      }
      c := ValidateOutput(m.output);
      if c.Fail? {
        return;
      }
      CheckedCursors(params, Abs(), m.output);
      var newForced := ValidateForcedCursor(m.output, |m.forced|);
      if newForced.Err? {
        return Fail(newForced.error);
      }
      c := ValidateConsumed(m.output, newForced.value);
      if c.Fail? {
        return;
      }
      c := CheckPayouts(m.output, m.withdrawals, m.forced);
      if c.Fail? {
        return;
      }
      if !m.verified {
        return Fail(ProofRejected);
      }
      c := ApplySettlement(m, newForced.value);
    }

    /** Hashes the queued entries one id at a time. */
    method HashDeposits(start: nat, end: nat) returns (digest: Digest)
      requires start <= end
      ensures digest == DepositsHash(DepositRange(deposits, start, end))
    {
      var entries: seq<QueueEntry> := [];
      for id := start to end
        invariant entries == DepositRange(deposits, start, id)
      {
        entries := entries + [DepositAt(deposits, id)];
      }
      digest := DepositsHash(entries);
    }

    method HashRequests(start: nat, end: nat) returns (digest: Digest)
      requires start <= end
      ensures digest == ForcedWithdrawalsHash(RequestRange(requests, start, end))
    {
      var entries: seq<QueueEntry> := [];
      for id := start to end
        invariant entries == RequestRange(requests, start, id)
      {
        entries := entries + [RequestAt(requests, id)];
      }
      digest := ForcedWithdrawalsHash(entries);
    }

    method ValidateConsumed(output: PublicOutput, newForced: nat) returns (c: Check)
      requires output.oldDepositCursor <= output.newDepositCursor && output.oldForcedCursor <= newForced
      ensures c == CheckConsumed(Abs(), output, newForced)
    {
      var actual := HashDeposits(output.oldDepositCursor, output.newDepositCursor);
      if actual != output.depositsHash {
        return Fail(ConsumedDepositsHashMismatch);
      }
      actual := HashRequests(output.oldForcedCursor, newForced);
      if actual != output.forcedRequestsHash {
        return Fail(ConsumedForcedWithdrawalsHashMismatch);
      }
      c := Pass;
    }

    method ValidateOutput(output: PublicOutput) returns (c: Check)
      ensures c == CheckOutput(params, Abs(), output)
    {
      if output.domain.protocolVersion != params.protocolVersion {
        return Fail(WrongProtocolVersion);
      }
      if output.domain.chainId != params.chainId {
        return Fail(WrongChain);
      }
      if output.domain.exchange != params.exchange {
        return Fail(WrongExchange);
      }
      if output.configHash != params.configHash {
        return Fail(WrongConfig);
      }
      if output.batchId != nextBatchId {
        return Fail(WrongBatchId);
      }
      if output.oldRoot != stateRoot {
        return Fail(StaleStateRoot);
      }
      if output.oldDepositCursor != nextUnprocessedDeposit {
        return Fail(WrongDepositCursor);
      }
      if output.newDepositCursor < output.oldDepositCursor || output.newDepositCursor > nextDepositId {
        return Fail(InvalidDepositCursorAdvance);
      }
      if output.oldForcedCursor != nextUnprocessedForced {
        return Fail(WrongForcedWithdrawalCursor);
      }
      c := Pass;
    }

    method ValidateForcedCursor(output: PublicOutput, count: nat) returns (r: Result<nat>)
      ensures r == ForcedCursor(Abs(), output, count)
    {
      var next := output.oldForcedCursor + count % (U64_MAX + 1);
      if next > U64_MAX {
        return Err(ArithmeticOverflow);
      }
      if next > nextForcedId {
        return Err(InvalidForcedWithdrawalCursorAdvance);
      }
      r := Ok(next);
    }

    method ApplySettlement(m: Submission, newForced: nat) returns (c: Check)
      modifies this
      ensures Answers(c, Contract.ApplySettlement(old(Abs()), m, newForced), old(Abs()), Abs())
    {
      hide Contract.PayWithdrawals, Contract.PayForced;
      var root, deposit, forced, batch := stateRoot, nextUnprocessedDeposit, nextUnprocessedForced, nextBatchId;
      var held, owed := holdings, pending;
      stateRoot := m.output.newRoot;
      nextUnprocessedDeposit := m.output.newDepositCursor;
      nextUnprocessedForced := newForced;
      nextBatchId := (nextBatchId + 1) % (U64_MAX + 1);
      c := ExecuteWithdrawals(m.withdrawals, m.withdrawalsWork);
      if c.Pass? {
        c := ExecuteForced(m.forced, m.forcedWork);
      }
      if c.Fail? {
        stateRoot, nextUnprocessedDeposit, nextUnprocessedForced, nextBatchId := root, deposit, forced, batch;
        holdings, pending := held, owed;
      }
    }

    /** Sends, or credits the recipient when the transfer does not go through. */
    method PayOrOwe(recipient: AccountId, asset: AssetId, amount: nat, works: bool) returns (c: Check)
      modifies `holdings, `pending
      ensures match Contract.PayOrOwe(old(holdings), old(pending), recipient, asset, amount, works)
              case Ok(p) => c.Pass? && holdings == p.0 && pending == p.1
              case Err(e) => c == Fail(e)
    {
      var success := AttemptTransfer(asset, recipient, amount, works);
      if !success {
        if Owed(pending, recipient, asset) + amount > U256_MAX {
          return Fail(ArithmeticOverflow);
        }
        pending := pending[(recipient, asset) := Owed(pending, recipient, asset) + amount];
      }
      c := Pass;
    }

    method ExecuteWithdrawals(withdrawals: seq<ExecutedWithdrawal>, works: seq<bool>) returns (c: Check)
      modifies `holdings, `pending
      ensures match PayWithdrawals(old(holdings), old(pending), withdrawals, works)
              case Ok(p) => c.Pass? && holdings == p.0 && pending == p.1
              case Err(e) => c == Fail(e)
    {
      hide Contract.PayOrOwe;
      var outcomes := works;
      for i := 0 to |withdrawals|
        invariant PayWithdrawals(old(holdings), old(pending), withdrawals, works) ==
                  PayWithdrawals(holdings, pending, withdrawals[i..], outcomes)
      {
        assert withdrawals[i..][0] == withdrawals[i] && withdrawals[i..][1..] == withdrawals[i + 1..];
        c := PayOrOwe(withdrawals[i].recipient, withdrawals[i].asset, withdrawals[i].amount, First(outcomes));
        if c.Fail? {
          return;
        }
        outcomes := Rest(outcomes);
      }
      c := Pass;
    }

    method ExecuteForced(forced: seq<QueueEntry>, works: seq<bool>) returns (c: Check)
      modifies `holdings, `pending
      ensures match PayForced(old(holdings), old(pending), forced, works)
              case Ok(p) => c.Pass? && holdings == p.0 && pending == p.1
              case Err(e) => c == Fail(e)
    {
      hide Contract.PayOrOwe;
      var outcomes := works;
      for i := 0 to |forced|
        invariant PayForced(old(holdings), old(pending), forced, works) == PayForced(holdings, pending, forced[i..], outcomes)
      {
        assert forced[i..][0] == forced[i] && forced[i..][1..] == forced[i + 1..];
        if forced[i].amount != 0 {
          c := PayOrOwe(forced[i].account, forced[i].asset, forced[i].amount, First(outcomes));
          if c.Fail? {
            return;
          }
        }
        outcomes := Rest(outcomes);
      }
      c := Pass;
    }
  }

  lemma CheckedCursors(p: Params, s: State, output: PublicOutput)
    requires CheckOutput(p, s, output).Pass?
    ensures output.oldDepositCursor <= output.newDepositCursor
  {
  }
}
