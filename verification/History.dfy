/** The contract's queues, cursors and modes as the record of the calls that
    went through. */
module History {
  import opened Keys
  import opened Results
  import opened Sorting
  import opened Types
  import opened Settlement
  import opened SettlementTheorems
  import opened Contract
  import opened Runs

  /** The calls of a run that do not revert, in order. */
  function Successful(p: Params, w: World, calls: seq<Call>): seq<Call>
    decreases |calls|
  {
    if calls == [] then []
    else (if Runs.Apply(p, w.state, calls[0]).Ok? then [calls[0]] else []) + Successful(p, Step(p, w, calls[0]), calls[1..])
  }

  // ----- what a list of successful calls asks the contract to record

  /** A deposit belongs to the caller who paid it, in the asset and amount paid. */
  function DepositBy(call: Call): seq<QueuedDeposit> {
    match call.action
    case NativeDeposit(sender, value) => [QueuedDeposit(sender, 0, value)]
    case TokenDeposit(sender, token, amount, _, _) => [QueuedDeposit(sender, token, amount)]
    case _ => []
  }

  /** A request belongs to its caller and falls due one delay after its call. */
  function RequestBy(call: Call, delay: nat): seq<Request> {
    match call.action
    case ForcedRequest(sender, asset, amount) => [Request(sender, asset, amount, call.now + delay)]
    case _ => []
  }

  function BatchBy(call: Call): seq<BatchInput> {
    if call.action.Settlement? then [call.action.input] else []
  }

  function EscapeBy(call: Call): seq<AccountId> {
    if call.action.Escape? then [call.action.account.id] else []
  }

  function DepositsMade(done: seq<Call>): seq<QueuedDeposit> {
    Collect(done, DepositBy)
  }

  function Requesting(delay: nat): Call -> seq<Request> {
    (call: Call) => RequestBy(call, delay)
  }

  function RequestsMade(done: seq<Call>, delay: nat): seq<Request> {
    Collect(done, Requesting(delay))
  }

  function BatchesSettled(done: seq<Call>): seq<BatchInput> {
    Collect(done, BatchBy)
  }

  function Escaped(done: seq<Call>): set<AccountId> {
    set id | id in Collect(done, EscapeBy)
  }

  predicate Activated(done: seq<Call>) {
    exists i :: 0 <= i < |done| && done[i].action.EscapeActivation?
  }

  function DepositsTaken(batches: seq<BatchInput>): nat {
    if batches == [] then 0 else |batches[0].deposits| + DepositsTaken(batches[1..])
  }

  function RequestsTaken(batches: seq<BatchInput>): nat {
    if batches == [] then 0 else |batches[0].forced| + RequestsTaken(batches[1..])
  }

  /** The batch id after `n` settlements, in 64 bits. */
  function BatchIdAfter(first: nat, n: nat): nat {
    if n == 0 then first else (first + n) % 0x1_0000_0000_0000_0000
  }

  /** Batch `k` settled on this contract's domain and configuration, under the
      next batch id, on the root and at the cursors the batches before it left. */
  ghost predicate SettledInTurn(p: Params, first: State, batches: seq<BatchInput>, k: nat)
    requires k < |batches|
  {
    var b := batches[k];
    && b.domain == SigningDomain(p.protocolVersion, p.chainId, p.exchange) && ConfigHash(b.config) == p.configHash
    && b.batchId == BatchIdAfter(first.nextBatchId, k)
    && b.expectedRoot == RootAfter(first.stateRoot, batches[..k])
    && b.depositCursor == DepositsTaken(batches[..k]) && b.forcedCursor == RequestsTaken(batches[..k])
    && Outcome(b).Ok?
  }

  function RootAfter(first: Digest, batches: seq<BatchInput>): Digest {
    if batches == [] then first
    else
      var last := Outcome(batches[|batches| - 1]);
      if last.Ok? then last.value.public.newRoot else first
  }

  ghost predicate DepositsRecorded(done: seq<Call>, s: State) {
    && s.nextDepositId == |DepositsMade(done)|
    && forall id: nat :: id < s.nextDepositId ==> id in s.deposits && s.deposits[id] == DepositsMade(done)[id]
  }

  ghost predicate RequestsRecorded(p: Params, done: seq<Call>, s: State) {
    && s.nextForcedId == |RequestsMade(done, p.delay)|
    && forall id: nat :: id < s.nextForcedId ==> id in s.requests && s.requests[id] == RequestsMade(done, p.delay)[id]
  }

  ghost predicate BatchesRecorded(p: Params, first: State, batches: seq<BatchInput>, s: State) {
    && s.nextUnprocessedDeposit == DepositsTaken(batches) && s.nextUnprocessedForced == RequestsTaken(batches)
    && s.nextBatchId == BatchIdAfter(first.nextBatchId, |batches|) && s.stateRoot == RootAfter(first.stateRoot, batches)
    && forall k :: 0 <= k < |batches| ==> SettledInTurn(p, first, batches, k)
  }

  ghost predicate EscapesRecorded(done: seq<Call>, s: State) {
    (s.escapeMode <==> Activated(done)) && s.escaped == Escaped(done)
  }

  /** The contract's state as the record of its successful calls. */
  ghost predicate RecordOf(p: Params, first: State, done: seq<Call>, s: State) {
    && DepositsRecorded(done, s) && RequestsRecorded(p, done, s)
    && BatchesRecorded(p, first, BatchesSettled(done), s) && EscapesRecorded(done, s)
  }

  // ----- one call more

  lemma {:induction false} TakenAppend(a: seq<BatchInput>, b: BatchInput)
    ensures DepositsTaken(a + [b]) == DepositsTaken(a) + |b.deposits|
    ensures RequestsTaken(a + [b]) == RequestsTaken(a) + |b.forced|
  {
    if a == [] {
      assert (a + [b])[1..] == [];
    } else {
      TakenAppend(a[1..], b);
      assert (a + [b])[0] == a[0] && (a + [b])[1..] == a[1..] + [b];
    }
  }

  /** What one more call adds to each list. */
  lemma OneMore(done: seq<Call>, call: Call, delay: nat)
    ensures DepositsMade(done + [call]) == DepositsMade(done) + DepositBy(call)
    ensures RequestsMade(done + [call], delay) == RequestsMade(done, delay) + RequestBy(call, delay)
    ensures BatchesSettled(done + [call]) == BatchesSettled(done) + BatchBy(call)
    ensures Escaped(done + [call]) == Escaped(done) + (if call.action.Escape? then {call.action.account.id} else {})
    ensures Activated(done + [call]) <==> Activated(done) || call.action.EscapeActivation?
  {
    hide DepositBy, RequestBy, BatchBy;
    CollectLast(done, call, DepositBy);
    CollectLast(done, call, Requesting(delay));
    CollectLast(done, call, BatchBy);
    CollectLast(done, call, EscapeBy);
    assert (done + [call])[|done|] == call;
    if Activated(done) {
      var i :| 0 <= i < |done| && done[i].action.EscapeActivation?;
      assert (done + [call])[i] == done[i];
    }
  }

  /** Calls of other kinds leave a record as it was. */
  lemma OthersKeep(p: Params, first: State, done: seq<Call>, s: State, call: Call, next: State)
    requires RecordOf(p, first, done, s)
    ensures DepositBy(call) == [] && next.nextDepositId == s.nextDepositId && next.deposits == s.deposits ==>
              DepositsRecorded(done + [call], next)
    ensures RequestBy(call, p.delay) == [] && next.nextForcedId == s.nextForcedId && next.requests == s.requests ==>
              RequestsRecorded(p, done + [call], next)
    ensures !call.action.Settlement? && next.nextUnprocessedDeposit == s.nextUnprocessedDeposit
              && next.nextUnprocessedForced == s.nextUnprocessedForced && next.nextBatchId == s.nextBatchId && next.stateRoot == s.stateRoot ==>
              BatchesRecorded(p, first, BatchesSettled(done + [call]), next)
    ensures !call.action.EscapeActivation? && !call.action.Escape? && next.escapeMode == s.escapeMode && next.escaped == s.escaped ==>
              EscapesRecorded(done + [call], next)
  {
    hide DepositBy, RequestBy, SettledInTurn, DepositsMade, RequestsMade, BatchesSettled, Escaped, Activated, RootAfter;
    OneMore(done, call, p.delay);
    assert DepositsMade(done) + [] == DepositsMade(done) && RequestsMade(done, p.delay) + [] == RequestsMade(done, p.delay);
    assert BatchesSettled(done) + [] == BatchesSettled(done) && Escaped(done) + {} == Escaped(done);
  }

  lemma DepositRecorded(done: seq<Call>, s: State, call: Call, account: AccountId, asset: AssetId, amount: nat, next: State, delay: nat)
    requires DepositsRecorded(done, s) && DepositBy(call) == [QueuedDeposit(account, asset, amount)]
    requires next.nextDepositId == s.nextDepositId + 1
    requires next.deposits == s.deposits[s.nextDepositId := QueuedDeposit(account, asset, amount)]
    ensures DepositsRecorded(done + [call], next)
  {
    hide DepositBy, RequestBy, DepositsMade, RequestsMade, BatchesSettled, Escaped, Activated;
    OneMore(done, call, delay);
  }

  lemma RequestRecorded(p: Params, done: seq<Call>, s: State, call: Call, request: Request, next: State)
    requires RequestsRecorded(p, done, s) && RequestBy(call, p.delay) == [request]
    requires next.nextForcedId == s.nextForcedId + 1 && next.requests == s.requests[s.nextForcedId := request]
    ensures RequestsRecorded(p, done + [call], next)
  {
    hide DepositBy, RequestBy, DepositsMade, RequestsMade, BatchesSettled, Escaped, Activated;
    OneMore(done, call, p.delay);
  }

  lemma EscapeRecorded(done: seq<Call>, s: State, call: Call, next: State)
    requires EscapesRecorded(done, s)
    requires if call.action.Escape? then next.escapeMode == s.escapeMode && next.escaped == s.escaped + {call.action.account.id}
             else call.action.EscapeActivation? && next.escapeMode && next.escaped == s.escaped
    ensures EscapesRecorded(done + [call], next)
  {
    hide DepositBy, RequestBy, DepositsMade, RequestsMade, BatchesSettled, Escaped, Activated;
    OneMore(done, call, 0);
    assert Escaped(done) + {} == Escaped(done);
  }

  /** One batch more, settled in its turn. */
  lemma BatchRecorded(p: Params, first: State, batches: seq<BatchInput>, s: State, b: BatchInput, next: State)
    requires BatchesRecorded(p, first, batches, s) && Outcome(b).Ok?
    requires b.domain == SigningDomain(p.protocolVersion, p.chainId, p.exchange) && ConfigHash(b.config) == p.configHash
    requires b.batchId == s.nextBatchId && b.expectedRoot == s.stateRoot
    requires b.depositCursor == s.nextUnprocessedDeposit && b.forcedCursor == s.nextUnprocessedForced
    requires next.nextUnprocessedDeposit == s.nextUnprocessedDeposit + |b.deposits|
    requires next.nextUnprocessedForced == s.nextUnprocessedForced + |b.forced|
    requires next.nextBatchId == (s.nextBatchId + 1) % 0x1_0000_0000_0000_0000
    requires next.stateRoot == Outcome(b).value.public.newRoot
    ensures BatchesRecorded(p, first, batches + [b], next)
  {
    hide Outcome;
    var all := batches + [b];
    TakenAppend(batches, b);
    BatchIdStep(first.nextBatchId, |batches|);
    forall k | 0 <= k < |all| ensures SettledInTurn(p, first, all, k) {
      if k < |batches| {
        assert SettledInTurn(p, first, batches, k);
        assert all[..k] == batches[..k];
      } else {
        assert all[..k] == batches;
      }
    }
  }

  lemma BatchIdStep(first: nat, n: nat)
    ensures BatchIdAfter(first, n + 1) == (BatchIdAfter(first, n) + 1) % 0x1_0000_0000_0000_0000
  {
  }

  lemma SettlementRecorded(p: Params, first: State, done: seq<Call>, s: State, call: Call, m: Submission, input: BatchInput, next: State)
    requires RecordOf(p, first, done, s) && Settle(p, s, m) == Ok(next) && call.action == Settlement(m, input)
    requires m.verified ==> Typed(input) && Outcome(input).Ok? && Outcome(input).value.public == m.output
    ensures RecordOf(p, first, done + [call], next)
  {
    hide PayWithdrawals, PayForced, CheckPayouts, CheckConsumed, Settle, Outcome, Typed, BatchesRecorded, DepositsRecorded, RequestsRecorded,
      EscapesRecorded, BatchesSettled;
    var paid, left, newForced := SettleUnfold(p, s, m);
    var out := Outcome(input).value;
    SettleMatches(p, s, m, input, out, newForced);
    SettlementRoots(input, out);
    BatchRecorded(p, first, BatchesSettled(done), s, input, next);
    OneMore(done, call, p.delay);
    OthersKeep(p, first, done, s, call, next);
  }

  /** A call that goes through adds itself to the record. */
  lemma CallRecorded(p: Params, first: State, done: seq<Call>, w: World, call: Call)
    requires RecordOf(p, first, done, w.state) && Sound(call) && call.now <= U64_MAX
    requires Runs.Apply(p, w.state, call).Ok?
    ensures RecordOf(p, first, done + [call], Runs.Apply(p, w.state, call).value)
  {
    hide Outcome, Settle, EscapeWithdraw, Typed, BatchesRecorded, DepositsRecorded, RequestsRecorded, EscapesRecorded;
    var s, next := w.state, Runs.Apply(p, w.state, call).value;
    OthersKeep(p, first, done, s, call, next);
    match call.action
    case NativeDeposit(sender, value) => DepositRecorded(done, s, call, sender, NATIVE, value, next, p.delay);
    case TokenDeposit(sender, token, amount, _, _) => DepositRecorded(done, s, call, sender, token, amount, next, p.delay);
    case ForcedRequest(sender, asset, amount) =>
      RequestRecorded(p, done, s, call, Request(sender, asset, amount, call.now + p.delay), next);
    case EscapeActivation => EscapeRecorded(done, s, call, next);
    case Escape(account, sides, works) =>
      EscapeUnfold(s, account, sides, works);
      EscapeRecorded(done, s, call, next);
    case Settlement(m, input) => SettlementRecorded(p, first, done, s, call, m, input, next);
    case _ =>
  }

  lemma {:induction false} RunRecorded(p: Params, first: State, done: seq<Call>, w: World, calls: seq<Call>)
    requires RecordOf(p, first, done, w.state) && Proper(w.now, calls)
    ensures RecordOf(p, first, done + Successful(p, w, calls), Run(p, w, calls).state)
    decreases |calls|
  {
    hide RecordOf, Runs.Apply, Sound, Step, Outcome;
    if calls == [] {
      assert done + Successful(p, w, calls) == done;
    } else {
      var next, rest := Step(p, w, calls[0]), Successful(p, Step(p, w, calls[0]), calls[1..]);
      StepIs(p, w, calls[0]);
      if Runs.Apply(p, w.state, calls[0]).Ok? {
        CallRecorded(p, first, done, w, calls[0]);
        RunRecorded(p, first, done + [calls[0]], next, calls[1..]);
        Regroup(done, [calls[0]], rest);
      } else {
        RunRecorded(p, first, done, next, calls[1..]);
        assert [] + rest == rest;
      }
    }
  }

  lemma Regroup(a: seq<Call>, b: seq<Call>, c: seq<Call>)
    ensures (a + b) + c == a + (b + c)
  {
  }

  lemma StepIs(p: Params, w: World, call: Call)
    ensures Step(p, w, call).now == call.now
    ensures Step(p, w, call).state == if Runs.Apply(p, w.state, call).Ok? then Runs.Apply(p, w.state, call).value else w.state
  {
    hide Runs.Apply, Outcome;
  }

  /** THEOREM (the state is the history). Over every run of sound calls from a
      deployed contract: the deposit queue holds, id by id, exactly the deposits
      of the successful calls, each under its caller in the asset and amount
      paid; the forced queue exactly their requests, each under its caller and due
      one delay after its call; the cursors count what the settled batches took;
      each batch settled on this contract's domain and configuration, under the
      next id and on the root and cursors the one before it left; escape mode is
      set exactly when an activation went through, and exactly the accounts that
      escaped are marked. */
  lemma StateIsHistory(p: Params, w: World, calls: seq<Call>)
    requires Initial(w) && Proper(w.now, calls)
    ensures RecordOf(p, w.state, Successful(p, w, calls), Run(p, w, calls).state)
  {
    hide Run, Proper, Successful, RecordOf, Committed, Held, Outcome;
    var none: seq<Call> := [];
    NothingRecorded(p, w.state);
    RunRecorded(p, w.state, none, w, calls);
    assert none + Successful(p, w, calls) == Successful(p, w, calls);
  }

  lemma NothingRecorded(p: Params, s: State)
    requires s.nextDepositId == 0 && s.nextForcedId == 0 && s.nextUnprocessedDeposit == 0 && s.nextUnprocessedForced == 0
    requires !s.escapeMode && s.escaped == {}
    ensures RecordOf(p, s, [], s)
  {
    hide SettledInTurn;
  }

  /** The requests of a run that settlement has not taken yet. */
  function OpenRequests(p: Params, w: World, calls: seq<Call>): seq<Request> {
    var done := Successful(p, w, calls);
    var requests, taken := RequestsMade(done, p.delay), RequestsTaken(BatchesSettled(done));
    if taken <= |requests| then requests[taken..] else []
  }

  /** THEOREM (when escape mode starts). At any point of any run an activation
      goes through exactly when a forced request is still open and the oldest open
      one was made, by the caller it names, at least the delay ago. */
  lemma ActivatesExactly(p: Params, w: World, calls: seq<Call>, now: nat)
    requires Initial(w) && Proper(w.now, calls)
    ensures ActivateEscape(Run(p, w, calls).state, now).Ok? <==>
              OpenRequests(p, w, calls) != [] && OpenRequests(p, w, calls)[0].deadline <= now
    ensures forall r :: r in OpenRequests(p, w, calls) ==>
              exists c :: c in calls && c.action == ForcedRequest(r.account, r.asset, r.amount) && r.deadline == c.now + p.delay
  {
    hide Run, Proper, Successful, Initial, RecordOf, RequestsMade, BatchesSettled, Outcome;
    StateIsHistory(p, w, calls);
    HeadOfQueue(p, w.state, Successful(p, w, calls), Run(p, w, calls).state, now);
    forall r | r in OpenRequests(p, w, calls)
      ensures exists c :: c in calls && c.action == ForcedRequest(r.account, r.asset, r.amount) && r.deadline == c.now + p.delay
    {
      var c := RequestFrom(Successful(p, w, calls), p.delay, r);
      SuccessfulCalls(p, w, calls, c);
    }
  }

  lemma HeadOfQueue(p: Params, first: State, done: seq<Call>, s: State, now: nat)
    requires RecordOf(p, first, done, s)
    ensures var requests, taken := RequestsMade(done, p.delay), RequestsTaken(BatchesSettled(done));
            ActivateEscape(s, now).Ok? <==> taken < |requests| && requests[taken].deadline <= now
  {
    hide DepositsRecorded, EscapesRecorded, RequestsMade, BatchesSettled, SettledInTurn, RootAfter;
  }

  lemma RequestFrom(done: seq<Call>, delay: nat, r: Request) returns (c: Call)
    requires r in RequestsMade(done, delay)
    ensures c in done && c.action == ForcedRequest(r.account, r.asset, r.amount) && r.deadline == c.now + delay
  {
    var i := CollectFrom(done, Requesting(delay), r);
    c := done[i];
  }

  lemma {:induction false} SuccessfulCalls(p: Params, w: World, calls: seq<Call>, c: Call)
    requires c in Successful(p, w, calls)
    ensures c in calls
    decreases |calls|
  {
    hide Runs.Apply, Step;
    if c != calls[0] || Runs.Apply(p, w.state, calls[0]).Err? {
      SuccessfulCalls(p, Step(p, w, calls[0]), calls[1..], c);
    }
  }

  /** A deposit that goes through takes in exactly what it queues: the value of
      a native call, or the tokens actually received, with no value sent along. */
  lemma DepositTakesIn(p: Params, w: World, call: Call, d: QueuedDeposit, asset: AssetId)
    requires Runs.Apply(p, w.state, call).Ok? && DepositBy(call) == [d]
    ensures var next := Runs.Apply(p, w.state, call).value;
            && Held(next.holdings, asset) == Held(w.state.holdings, asset) + (if asset == d.asset then d.amount else 0)
            && next.holdings.sent == w.state.holdings.sent && next.pending == w.state.pending
    ensures 0 < d.amount <= U128_MAX
    ensures call.action.TokenDeposit? ==>
              d.asset != 0 && call.action.value == 0 && call.action.received == Some(d.amount)
  {
  }
}
