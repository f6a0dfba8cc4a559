/** The settlement contract (ZkClob.sol) as a state and one function per entry
    point. A call that reverts leaves the state alone. Whether a transfer goes
    through is a parameter; one that does moves the exact amount. */
module Contract {
  import opened Keys
  import opened Results
  import opened Types
  import opened Settlement
  import opened AccountProof

  const NATIVE: AssetId := 0
  const U256_MAX: nat := Pow2(256) - 1

  /** Set once by the constructor. */
  datatype Params = Params(protocolVersion: nat, chainId: nat, exchange: nat, configHash: Digest, delay: nat)

  datatype QueuedDeposit = QueuedDeposit(account: AccountId, asset: AssetId, amount: nat)
  datatype Request = Request(account: AccountId, asset: AssetId, amount: nat, deadline: nat)

  type Payees = map<(AccountId, AssetId), nat>
  type Pending = Payees

  /** What the contract holds of each asset, and what it has sent to whom. */
  datatype Holdings = Holdings(balances: map<AssetId, nat>, sent: Payees)

  datatype State = State(stateRoot: Digest, nextBatchId: nat,
                         nextDepositId: nat, nextUnprocessedDeposit: nat, deposits: map<nat, QueuedDeposit>,
                         nextForcedId: nat, nextUnprocessedForced: nat, requests: map<nat, Request>,
                         escapeMode: bool, escaped: set<AccountId>, pending: Pending, holdings: Holdings)

  // ----- mappings read zero where nothing was written

  function Held(holdings: Holdings, asset: AssetId): nat {
    if asset in holdings.balances then holdings.balances[asset] else 0
  }

  function Sent(holdings: Holdings, payee: AccountId, asset: AssetId): nat {
    if (payee, asset) in holdings.sent then holdings.sent[(payee, asset)] else 0
  }

  function Owed(pending: Pending, account: AccountId, asset: AssetId): nat {
    if (account, asset) in pending then pending[(account, asset)] else 0
  }

  function DepositAt(deposits: map<nat, QueuedDeposit>, id: nat): QueueEntry {
    if id in deposits then QueueEntry(id, deposits[id].account, deposits[id].asset, deposits[id].amount)
    else QueueEntry(id, 0, NATIVE, 0)
  }

  function RequestAt(requests: map<nat, Request>, id: nat): QueueEntry {
    if id in requests then QueueEntry(id, requests[id].account, requests[id].asset, requests[id].amount)
    else QueueEntry(id, 0, NATIVE, 0)
  }

  function Deadline(requests: map<nat, Request>, id: nat): nat {
    if id in requests then requests[id].deadline else 0
  }

  // ----- transfers

  function Receive(holdings: Holdings, asset: AssetId, amount: nat): Holdings {
    holdings.(balances := holdings.balances[asset := Held(holdings, asset) + amount])
  }

  function Transfer(holdings: Holdings, asset: AssetId, payee: AccountId, amount: nat, works: bool): Option<Holdings> {
    if works && amount <= Held(holdings, asset) then
      Some(Holdings(holdings.balances[asset := Held(holdings, asset) - amount],
                    holdings.sent[(payee, asset) := Sent(holdings, payee, asset) + amount]))
    else None
  }

  predicate First(works: seq<bool>) {
    works != [] && works[0]
  }

  function Rest(works: seq<bool>): seq<bool> {
    if works == [] then [] else works[1..]
  }

  // ----- deposits

  function QueueDeposit(s: State, account: AccountId, asset: AssetId, amount: nat): Result<State> {
    if amount == 0 then Err(ZeroDepositAmount)
    else if amount > U128_MAX then Err(DepositAmountOverflow)
    else if s.nextDepositId + 1 > U64_MAX then Err(ArithmeticOverflow)
    else Ok(s.(nextDepositId := s.nextDepositId + 1,
               deposits := s.deposits[s.nextDepositId := QueuedDeposit(account, asset, amount)]))
  }

  function DepositNative(s: State, sender: AccountId, value: nat): Result<State> {
    QueueDeposit(s.(holdings := Receive(s.holdings, NATIVE, value)), sender, NATIVE, value)
  }

  /** `received` is what the transfer brought in, none when it reverts. */
  function DepositToken(s: State, sender: AccountId, token: AssetId, amount: nat, value: nat, received: Option<nat>): Result<State> {
    if token == NATIVE then Err(InvalidToken)
    else if value != 0 then Err(UnexpectedNativeValue)
    else if amount == 0 then Err(ZeroDepositAmount)
    else if amount > U128_MAX then Err(DepositAmountOverflow)
    else if received.None? then Err(TokenTransferFailed)
    else if received.value != amount then Err(TokenTransferAmountMismatch)
    else QueueDeposit(s.(holdings := Receive(s.holdings, token, received.value)), sender, token, amount)
  }

  // ----- forced withdrawals and escape

  function RequestForced(p: Params, s: State, sender: AccountId, asset: AssetId, amount: nat, now: nat): Result<State> {
    var deadline := now % (U64_MAX + 1) + p.delay;
    if amount == 0 then Err(ZeroForcedWithdrawalAmount)
    else if s.nextForcedId + 1 > U64_MAX || deadline > U64_MAX then Err(ArithmeticOverflow)
    else Ok(s.(nextForcedId := s.nextForcedId + 1,
               requests := s.requests[s.nextForcedId := Request(sender, asset, amount, deadline)]))
  }

  function ActivateEscape(s: State, now: nat): Result<State> {
    if s.nextUnprocessedForced >= s.nextForcedId then Err(NoPendingForcedWithdrawal)
    else if now < Deadline(s.requests, s.nextUnprocessedForced) then Err(ForcedWithdrawalDeadlineNotElapsed)
    else Ok(s.(escapeMode := true))
  }

  /** Pays an account every non-zero balance; any failure undoes the whole call. */
  function PayBalances(holdings: Holdings, payee: AccountId, balances: seq<AssetBalance>, works: seq<bool>): Result<Holdings>
    decreases |balances|
  {
    if balances == [] then Ok(holdings)
    else if balances[0].available == 0 then PayBalances(holdings, payee, balances[1..], Rest(works))
    else
      var sent := Transfer(holdings, balances[0].asset, payee, balances[0].available, First(works));
      if sent.None? then Err(if balances[0].asset == NATIVE then NativeEscapeWithdrawalFailed else TokenTransferFailed)
      else PayBalances(sent.value, payee, balances[1..], Rest(works))
  }

  function EscapeWithdraw(s: State, account: Account, sides: seq<Commitment>, works: seq<bool>): Result<State> {
    if !s.escapeMode then Err(EscapeModeNotActive)
    else if account.id in s.escaped then Err(AlreadyEscaped)
    else
      var root :- FoldedRoot(account, sides);
      if root != s.stateRoot then Err(InvalidEscapeProof)
      else
        var holdings :- PayBalances(s.holdings, account.id, account.balances, works);
        Ok(s.(escaped := s.escaped + {account.id}, holdings := holdings))
  }

  function WithdrawPending(s: State, account: AccountId, asset: AssetId, works: bool): Result<State> {
    var amount := Owed(s.pending, account, asset);
    if amount == 0 then Err(NoPendingWithdrawal)
    else
      var sent := Transfer(s.holdings, asset, account, amount, works);
      if sent.None? then Err(PendingWithdrawalTransferFailed)
      else Ok(s.(pending := s.pending[(account, asset) := 0], holdings := sent.value))
  }

  // ----- settlement

  function CheckOutput(p: Params, s: State, output: PublicOutput): Check {
    if output.domain.protocolVersion != p.protocolVersion then Fail(WrongProtocolVersion)
    else if output.domain.chainId != p.chainId then Fail(WrongChain)
    else if output.domain.exchange != p.exchange then Fail(WrongExchange)
    else if output.configHash != p.configHash then Fail(WrongConfig)
    else if output.batchId != s.nextBatchId then Fail(WrongBatchId)
    else if output.oldRoot != s.stateRoot then Fail(StaleStateRoot)
    else if output.oldDepositCursor != s.nextUnprocessedDeposit then Fail(WrongDepositCursor)
    else if output.newDepositCursor < output.oldDepositCursor || output.newDepositCursor > s.nextDepositId then
      Fail(InvalidDepositCursorAdvance)
    else if output.oldForcedCursor != s.nextUnprocessedForced then Fail(WrongForcedWithdrawalCursor)
    else Pass
  }

  /** The new forced-withdrawal cursor; the count is cast to a uint64. */
  function ForcedCursor(s: State, output: PublicOutput, count: nat): (r: Result<nat>)
    ensures r.Ok? ==> output.oldForcedCursor <= r.value <= s.nextForcedId
  {
    var next := output.oldForcedCursor + count % (U64_MAX + 1);
    if next > U64_MAX then Err(ArithmeticOverflow)
    else if next > s.nextForcedId then Err(InvalidForcedWithdrawalCursorAdvance)
    else Ok(next)
  }

  function DepositRange(deposits: map<nat, QueuedDeposit>, start: nat, end: nat): (r: seq<QueueEntry>)
    requires start <= end
    ensures |r| == end - start && forall i :: 0 <= i < |r| ==> r[i] == DepositAt(deposits, start + i)
  {
    seq(end - start, i requires 0 <= i < end - start => DepositAt(deposits, start + i))
  }

  function RequestRange(requests: map<nat, Request>, start: nat, end: nat): (r: seq<QueueEntry>)
    requires start <= end
    ensures |r| == end - start && forall i :: 0 <= i < |r| ==> r[i] == RequestAt(requests, start + i)
  {
    seq(end - start, i requires 0 <= i < end - start => RequestAt(requests, start + i))
  }

  function CheckConsumed(s: State, output: PublicOutput, newForced: nat): Check
    requires output.oldDepositCursor <= output.newDepositCursor && output.oldForcedCursor <= newForced
  {
    if DepositsHash(DepositRange(s.deposits, output.oldDepositCursor, output.newDepositCursor)) != output.depositsHash then
      Fail(ConsumedDepositsHashMismatch)
    else if ForcedWithdrawalsHash(RequestRange(s.requests, output.oldForcedCursor, newForced)) != output.forcedRequestsHash then
      Fail(ConsumedForcedWithdrawalsHashMismatch)
    else Pass
  }

  function CheckPayouts(output: PublicOutput, withdrawals: seq<ExecutedWithdrawal>, forced: seq<QueueEntry>): Check {
    if WithdrawalsHash(withdrawals) != output.withdrawalsHash then Fail(WithdrawalsHashMismatch)
    else if ForcedWithdrawalsHash(forced) != output.forcedWithdrawalsHash then Fail(ForcedWithdrawalsHashMismatch)
    else Pass
  }

  /** Sends, or credits the recipient when the transfer does not go through. */
  function PayOrOwe(holdings: Holdings, pending: Pending, recipient: AccountId, asset: AssetId, amount: nat, works: bool)
    : Result<(Holdings, Pending)>
  {
    var sent := Transfer(holdings, asset, recipient, amount, works);
    if sent.Some? then Ok((sent.value, pending))
    else if Owed(pending, recipient, asset) + amount > U256_MAX then Err(ArithmeticOverflow)
    else Ok((holdings, pending[(recipient, asset) := Owed(pending, recipient, asset) + amount]))
  }

  function PayWithdrawals(holdings: Holdings, pending: Pending, withdrawals: seq<ExecutedWithdrawal>, works: seq<bool>)
    : Result<(Holdings, Pending)>
    decreases |withdrawals|
  {
    if withdrawals == [] then Ok((holdings, pending))
    else
      var w := withdrawals[0];
      var next :- PayOrOwe(holdings, pending, w.recipient, w.asset, w.amount, First(works));
      PayWithdrawals(next.0, next.1, withdrawals[1..], Rest(works))
  }

  function PayForced(holdings: Holdings, pending: Pending, forced: seq<QueueEntry>, works: seq<bool>)
    : Result<(Holdings, Pending)>
    decreases |forced|
  {
    if forced == [] then Ok((holdings, pending))
    else if forced[0].amount == 0 then PayForced(holdings, pending, forced[1..], Rest(works))
    else
      var f := forced[0];
      var next :- PayOrOwe(holdings, pending, f.account, f.asset, f.amount, First(works));
      PayForced(next.0, next.1, forced[1..], Rest(works))
  }

  /** The call data of `settle`; `verified` is the verifier's answer and the
      `works` lists say which payouts go through. */
  datatype Submission = Submission(output: PublicOutput, verified: bool,
                                   withdrawals: seq<ExecutedWithdrawal>, forced: seq<QueueEntry>,
                                   withdrawalsWork: seq<bool>, forcedWork: seq<bool>)

  function CheckSettle(p: Params, s: State, m: Submission): Result<nat> {
    var output := CheckOutput(p, s, m.output);
    if s.escapeMode then Err(EscapeModeActive)
    else if output.Fail? then Err(output.error)
    else
      var newForced :- ForcedCursor(s, m.output, |m.forced|);
      var consumed := CheckConsumed(s, m.output, newForced);
      if consumed.Fail? then Err(consumed.error)
      else
        var payouts := CheckPayouts(m.output, m.withdrawals, m.forced);
        if payouts.Fail? then Err(payouts.error)
        else if !m.verified then Err(ProofRejected)
        else Ok(newForced)
  }

  function ApplySettlement(s: State, m: Submission, newForced: nat): Result<State> {
    var paid :- PayWithdrawals(s.holdings, s.pending, m.withdrawals, m.withdrawalsWork);
    var forced :- PayForced(paid.0, paid.1, m.forced, m.forcedWork);
    Ok(s.(stateRoot := m.output.newRoot, nextUnprocessedDeposit := m.output.newDepositCursor,
          nextUnprocessedForced := newForced, nextBatchId := (s.nextBatchId + 1) % (U64_MAX + 1),
          holdings := forced.0, pending := forced.1))
  }

  function Settle(p: Params, s: State, m: Submission): Result<State> {
    var newForced :- CheckSettle(p, s, m);
    ApplySettlement(s, m, newForced)
  }
}
