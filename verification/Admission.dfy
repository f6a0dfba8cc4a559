/** When the builder admits an operation, told by the operations admitted before
    it. */
module Admission {
  import opened Keys
  import opened Results
  import opened Sorting
  import opened Types
  import opened Ledger
  import opened Operations
  import opened Readiness
  import opened Validation
  import opened Books
  import opened Patricia
  import opened Settlement
  import opened SettlementTheorems
  import Host
  import opened Builder
  import opened BuilderTheorems
  import BuiltBatches

  /** The operations a batch admits out of those tried, in order. */
  function Admitted(b: Batch, operations: seq<Operation>): seq<Operation>
    decreases |operations|
  {
    if operations == [] then []
    else (if Attempt(b, operations[0]).Ok? then [operations[0]] else []) + Admitted(Perform(b, operations[0]), operations[1..])
  }

  // ----- what the admitted operations come to

  function FundBy(operation: Operation): seq<Deposit> {
    if operation.Fund? then [operation.deposit] else []
  }

  function ForceBy(operation: Operation): seq<ForcedWithdrawal> {
    if operation.Force? then [operation.request] else []
  }

  function PlaceBy(operation: Operation): seq<Order> {
    if operation.Place? then [operation.order] else []
  }

  function TakeBy(operation: Operation): seq<Withdrawal> {
    if operation.Take? then [operation.withdrawal] else []
  }

  function AccountOf(operation: Operation): AccountId {
    match operation
    case Fund(deposit) => deposit.account
    case Force(request) => request.account
    case Place(order) => order.trader
    case Take(withdrawal) => withdrawal.account
  }

  /** The fee recipient and every account an operation names. */
  function Touched(recipient: AccountId, done: seq<Operation>): set<AccountId> {
    {recipient} + set i | 0 <= i < |done| :: AccountOf(done[i])
  }

  function Deposits(done: seq<Operation>): seq<Deposit> {
    Collect(done, FundBy)
  }

  function Requests(done: seq<Operation>): seq<ForcedWithdrawal> {
    Collect(done, ForceBy)
  }

  function Orders(done: seq<Operation>): seq<Order> {
    Collect(done, PlaceBy)
  }

  function Withdrawals(done: seq<Operation>): seq<Withdrawal> {
    Collect(done, TakeBy)
  }

  /** The batch holds exactly what was admitted. */
  ghost predicate Holds(start: Batch, done: seq<Operation>, b: Batch) {
    && b.state == start.state && b.config == start.config && b.domain == start.domain && b.batchId == start.batchId
    && b.depositCursor == start.depositCursor && b.forcedCursor == start.forcedCursor
    && b.deposits == Deposits(done) && b.forced == Requests(done)
    && b.orders == Orders(done) && b.withdrawals == Withdrawals(done)
    && (forall k :: k in b.touched <==> k in Touched(start.config.fees.recipient, done))
    && (forall q :: q in b.sequences <==> exists i :: 0 <= i < |b.orders| && b.orders[i].sequence == q)
  }

  lemma TouchedLast(recipient: AccountId, done: seq<Operation>, last: Operation)
    ensures Touched(recipient, done + [last]) == Touched(recipient, done) + {AccountOf(last)}
  {
    var all := done + [last];
    assert all[|done|] == last;
    forall k ensures k in Touched(recipient, all) <==> k in Touched(recipient, done) + {AccountOf(last)} {
      if k in Touched(recipient, done) && k != recipient {
        var i :| 0 <= i < |done| && AccountOf(done[i]) == k;
        assert all[i] == done[i];
      }
      if k in Touched(recipient, all) && k != recipient && k != AccountOf(last) {
        var i :| 0 <= i < |all| && AccountOf(all[i]) == k;
        assert all[i] == done[i];
      }
    }
  }

  lemma OneMore(done: seq<Operation>, last: Operation)
    ensures Deposits(done + [last]) == Deposits(done) + FundBy(last) && Requests(done + [last]) == Requests(done) + ForceBy(last)
    ensures Orders(done + [last]) == Orders(done) + PlaceBy(last) && Withdrawals(done + [last]) == Withdrawals(done) + TakeBy(last)
  {
    CollectLast(done, last, FundBy);
    CollectLast(done, last, ForceBy);
    CollectLast(done, last, PlaceBy);
    CollectLast(done, last, TakeBy);
  }

  lemma SequencesGrow(orders: seq<Order>, o: Order, sequences: set<nat>)
    requires forall q :: q in sequences <==> exists i :: 0 <= i < |orders| && orders[i].sequence == q
    ensures forall q :: q in sequences + {o.sequence} <==> exists i :: 0 <= i < |orders + [o]| && (orders + [o])[i].sequence == q
  {
    var all := orders + [o];
    assert all[|orders|] == o;
    forall q ensures q in sequences + {o.sequence} <==> exists i :: 0 <= i < |all| && all[i].sequence == q {
      if q in sequences {
        var i :| 0 <= i < |orders| && orders[i].sequence == q;
        assert all[i] == orders[i];
      }
      if i :| 0 <= i < |all| && all[i].sequence == q {
        assert i < |orders| ==> all[i] == orders[i];
      }
    }
  }

  /** An admitted operation adds itself. */
  lemma AttemptHolds(start: Batch, done: seq<Operation>, b: Batch, operation: Operation)
    requires Holds(start, done, b) && Attempt(b, operation).Ok?
    ensures Holds(start, done + [operation], Attempt(b, operation).value)
  {
    hide KeyPosition, AddToBooks, AddNonce, InsertKey, Touched, Withdrawn, StateNonce, Balance, NoncesOf, SearchId, Deposits, Requests,
      Orders, Withdrawals;
    OneMore(done, operation);
    TouchedLast(start.config.fees.recipient, done, operation);
    if operation.Place? {
      SequencesGrow(b.orders, operation.order, b.sequences);
    }
  }

  lemma {:induction false} RunHolds(start: Batch, done: seq<Operation>, b: Batch, operations: seq<Operation>)
    requires Holds(start, done, b)
    ensures Holds(start, done + Admitted(b, operations), PerformAll(b, operations))
    decreases |operations|
  {
    hide Holds, Attempt;
    if operations == [] {
      assert done + Admitted(b, operations) == done;
    } else {
      var next, rest := Perform(b, operations[0]), Admitted(Perform(b, operations[0]), operations[1..]);
      if Attempt(b, operations[0]).Ok? {
        AttemptHolds(start, done, b, operations[0]);
        RunHolds(start, done + [operations[0]], next, operations[1..]);
        assert (done + [operations[0]]) + rest == done + ([operations[0]] + rest);
      } else {
        RunHolds(start, done, next, operations[1..]);
        assert [] + rest == rest;
      }
    }
  }

  // ----- the condition

  /** An account fits if it is touched already or the batch touches few enough. */
  predicate RoomAfter(start: Batch, done: seq<Operation>, id: AccountId) {
    id in Touched(start.config.fees.recipient, done) || |Touched(start.config.fees.recipient, done)| < 1_001
  }

  /** No admitted order or withdrawal of the account uses the nonce. */
  predicate NonceUnused(done: seq<Operation>, id: AccountId, nonce: nat) {
    && (forall i :: 0 <= i < |Orders(done)| ==> Orders(done)[i].trader != id || Orders(done)[i].nonce != nonce)
    && (forall i :: 0 <= i < |Withdrawals(done)| ==> Withdrawals(done)[i].account != id || Withdrawals(done)[i].nonce != nonce)
  }

  ghost predicate MarketListed(markets: seq<MarketConfig>, id: MarketId) {
    exists i :: 0 <= i < |markets| && markets[i].id == id
  }

  ghost predicate Admissible(start: Batch, done: seq<Operation>, operation: Operation) {
    RoomAfter(start, done, AccountOf(operation)) &&
    match operation
    case Fund(d) =>
      && |Deposits(done)| < 1_000 && d.id == start.depositCursor + |Deposits(done)| <= U64_MAX
      && d.amount > 0 && AssetKnown(start.config.assets, d.asset)
    case Force(f) =>
      && |Requests(done)| < 1_000 && f.id == start.forcedCursor + |Requests(done)| <= U64_MAX
      && f.amount > 0
    case Place(o) =>
      && |Orders(done)| < 1_000 && o.price > 0 && o.quantity > 0 && MarketListed(start.config.markets, o.market)
      && (HasId(start.state, o.trader) || DepositsTo(Deposits(done), o.trader))
      && (forall i :: 0 <= i < |Orders(done)| ==> Orders(done)[i].sequence != o.sequence)
      && NextNonce(start.state, o.trader) <= o.nonce && NonceUnused(done, o.trader, o.nonce)
    case Take(w) =>
      && |Withdrawals(done)| < 1_000 && w.amount > 0 && AssetKnown(start.config.assets, w.asset)
      && HasId(start.state, w.account)
      && Withdrawn(Withdrawals(done), w.account, w.asset) + w.amount <= Holding(start.state, w.account, w.asset)
      && NextNonce(start.state, w.account) <= w.nonce && NonceUnused(done, w.account, w.nonce)
  }

  lemma {:induction false} KeysCounted(keys: seq<Key>)
    requires SortedKeys(keys)
    ensures |BuiltBatches.KeySet(keys)| == |keys|
  {
    if keys == [] {
      assert BuiltBatches.KeySet(keys) == {};
    } else {
      KeysCounted(keys[1..]);
      assert keys == [keys[0]] + keys[1..] && keys[0] !in keys[1..];
      assert BuiltBatches.KeySet(keys) == {keys[0]} + BuiltBatches.KeySet(keys[1..]);
    }
  }

  lemma RoomIs(start: Batch, done: seq<Operation>, b: Batch, id: AccountId)
    requires Holds(start, done, b) && SortedKeys(b.touched)
    ensures Room(b, id) <==> RoomAfter(start, done, id)
  {
    hide Touched;
    KeysCounted(b.touched);
    assert BuiltBatches.KeySet(b.touched) == Touched(start.config.fees.recipient, done);
  }

  lemma NoncesAre(start: Batch, done: seq<Operation>, b: Batch, id: AccountId, nonce: nat)
    requires Holds(start, done, b) && NoncesKept(b)
    ensures nonce !in NoncesOf(b.nonces, id) <==> NonceUnused(done, id, nonce)
  {
    hide NoncesOf, Touched, Orders, Withdrawals, Deposits, Requests;
    var pairs := Pairs(b.orders, b.withdrawals);
    assert multiset(pairs)[(id, nonce)] == if nonce in NoncesOf(b.nonces, id) then 1 else 0;
    assert nonce in NoncesOf(b.nonces, id) <==> (id, nonce) in pairs;
    if k :| 0 <= k < |pairs| && pairs[k] == (id, nonce) {
      if k < |b.orders| {
        assert b.orders[k].trader == id && b.orders[k].nonce == nonce;
      } else {
        assert b.withdrawals[k - |b.orders|].account == id && b.withdrawals[k - |b.orders|].nonce == nonce;
      }
    } else {
      forall i | 0 <= i < |b.orders| ensures b.orders[i].trader != id || b.orders[i].nonce != nonce {
        assert pairs[i] == (b.orders[i].trader, b.orders[i].nonce);
      }
      forall i | 0 <= i < |b.withdrawals| ensures b.withdrawals[i].account != id || b.withdrawals[i].nonce != nonce {
        assert pairs[|b.orders| + i] == (b.withdrawals[i].account, b.withdrawals[i].nonce);
      }
    }
  }

  lemma MarketFound(markets: seq<MarketConfig>, id: MarketId)
    ensures FindMarket(markets, id).Some? <==> MarketListed(markets, id)
  {
    if FindMarket(markets, id).Some? {
      var i :| 0 <= i < |markets| && markets[i] == FindMarket(markets, id).value;
    }
    if MarketListed(markets, id) {
      var i :| 0 <= i < |markets| && markets[i].id == id;
      assert markets[i] in markets;
    }
  }

  lemma FundExactly(start: Batch, done: seq<Operation>, b: Batch, d: Deposit)
    requires Holds(start, done, b) && SortedKeys(b.touched)
    ensures AddDeposit(b, d).Ok? <==> Admissible(start, done, Fund(d))
  {
    hide Touched, Room, RoomAfter, FindAsset, AssetKnown, Deposits, Requests, Orders, Withdrawals, InsertKey;
    RoomIs(start, done, b, d.account);
    FindsKnown(b.config.assets, d.asset);
  }

  lemma ForceExactly(start: Batch, done: seq<Operation>, b: Batch, f: ForcedWithdrawal)
    requires Holds(start, done, b) && SortedKeys(b.touched)
    ensures AddForced(b, f).Ok? <==> Admissible(start, done, Force(f))
  {
    hide Touched, Room, RoomAfter, Deposits, Requests, Orders, Withdrawals, InsertKey;
    RoomIs(start, done, b, f.account);
  }

  lemma PlaceExactly(start: Batch, done: seq<Operation>, b: Batch, o: Order)
    requires Holds(start, done, b) && SortedKeys(b.touched) && NoncesKept(b) && SortedById(b.state)
    ensures AddOrder(b, o).Ok? <==> Admissible(start, done, Place(o))
  {
    hide Touched, Room, RoomAfter, FindMarket, MarketListed, Deposits, Requests, Orders, Withdrawals, InsertKey, NoncesOf, NonceUnused,
      AddNonce, AddToBooks, SortedById, HasId, StateNonce, NextNonce, NoncesKept;
    RoomIs(start, done, b, o.trader);
    MarketFound(b.config.markets, o.market);
    NoncesAre(start, done, b, o.trader, o.nonce);
    SearchFinds(b.state, o.trader);
    BuiltBatches.StateNonceIs(b.state, o.trader);
    assert DepositsTo(b.deposits, o.trader) <==> !forall i :: 0 <= i < |b.deposits| ==> b.deposits[i].account != o.trader;
    assert o.sequence in b.sequences <==> exists i :: 0 <= i < |b.orders| && b.orders[i].sequence == o.sequence;
  }

  lemma TakeExactly(start: Batch, done: seq<Operation>, b: Batch, w: Withdrawal)
    requires Holds(start, done, b) && SortedKeys(b.touched) && NoncesKept(b) && ValidAccounts(b.state)
    ensures AddWithdrawal(b, w).Ok? <==> Admissible(start, done, Take(w))
  {
    hide Touched, Room, RoomAfter, FindAsset, AssetKnown, Deposits, Requests, Orders, Withdrawals, InsertKey, NoncesOf, NonceUnused,
      AddNonce, HasId, NextNonce, NoncesKept, Withdrawn, Balance, Holding;
    RoomIs(start, done, b, w.account);
    FindsKnown(b.config.assets, w.asset);
    NoncesAre(start, done, b, w.account, w.nonce);
    SearchFinds(b.state, w.account);
    BuiltBatches.StateNonceIs(b.state, w.account);
    BuiltBatches.StateBalanceIs(b.state, w.account, w.asset);
    HoldingFits(b.state, w.account, w.asset);
  }

  /** THEOREM (admission). Whatever was tried before, the builder admits an
      operation exactly when the operations it admitted leave it room, the next
      queue id, a fresh sequence or nonce and the balance it takes, and the state,
      or for an order a deposit admitted before it, knows its account. */
  lemma AdmitsExactly(start: Batch, operations: seq<Operation>, operation: Operation)
    requires IsNew(start) && ValidAccounts(start.state)
    ensures Attempt(PerformAll(start, operations), operation).Ok? <==> Admissible(start, Admitted(start, operations), operation)
  {
    hide Holds, PerformAll, Admissible, AddDeposit, AddForced, AddOrder, AddWithdrawal, SortedById, CanonicalAccounts, NoncesKept, Admitted, SortedKeys, Reachable;
    var done, b := Admitted(start, operations), PerformAll(start, operations);
    NewHolds(start);
    RunHolds(start, [], start, operations);
    assert [] + done == done;
    HeldParts(start, done, b);
    RunIsReachable(start, operations);
    BuiltBatches.ReachableTouched(b);
    BuiltBatches.ReachableNonces(b);
    match operation
    case Fund(deposit) => FundExactly(start, done, b, deposit);
    case Force(request) => ForceExactly(start, done, b, request);
    case Place(order) => PlaceExactly(start, done, b, order);
    case Take(withdrawal) => TakeExactly(start, done, b, withdrawal);
  }

  lemma NewHolds(start: Batch)
    requires IsNew(start)
    ensures Holds(start, [], start)
  {
  }

  lemma RunIsReachable(start: Batch, operations: seq<Operation>)
    requires IsNew(start)
    ensures Reachable(PerformAll(start, operations))
  {
    assert ReachedBy(PerformAll(start, operations), start, operations);
  }

  lemma HeldParts(start: Batch, done: seq<Operation>, b: Batch)
    requires Holds(start, done, b)
    ensures b.state == start.state
  {
  }

  // ----- building

  /** The account uses each nonce from its next one on, this many, once each. */
  ghost predicate UsesRun(state: seq<Account>, pairs: seq<(AccountId, nat)>, id: AccountId, n: nat) {
    var next := NextNonce(state, id);
    && (n > 0 ==> next + n <= U64_MAX)
    && forall v: nat :: multiset(pairs)[(id, v)] == if next <= v < next + n then 1 else 0
  }

  ghost predicate UsesSomeRun(state: seq<Account>, pairs: seq<(AccountId, nat)>, id: AccountId) {
    exists n: nat :: UsesRun(state, pairs, id, n)
  }

  ghost predicate AllUseRuns(state: seq<Account>, pairs: seq<(AccountId, nat)>) {
    forall id: AccountId :: UsesSomeRun(state, pairs, id)
  }

  lemma {:induction false} RunIsSequential(nonces: seq<nat>, expected: nat, n: nat)
    requires SortedNats(nonces) && (n > 0 ==> expected + n <= U64_MAX)
    requires forall v: nat :: v in nonces <==> expected <= v < expected + n
    ensures Sequential(nonces, expected)
  {
    if nonces != [] {
      assert nonces[0] in nonces && expected in nonces;
      assert nonces[0] == expected by {
        var i :| 0 <= i < |nonces| && nonces[i] == expected;
      }
      forall v: nat ensures v in nonces[1..] <==> expected + 1 <= v < expected + n {
        assert v in nonces <==> v == nonces[0] || v in nonces[1..] by {
          assert nonces == [nonces[0]] + nonces[1..];
        }
        if k :| 0 <= k < |nonces[1..]| && nonces[1..][k] == v {
          assert nonces[0] < nonces[k + 1];
        }
      }
      RunIsSequential(nonces[1..], expected + 1, n - 1);
    }
  }

  lemma RecordedExactly(b: Batch, id: AccountId, n: nat)
    requires NoncesKept(b) && SortedById(b.state) && UsesRun(b.state, Pairs(b.orders, b.withdrawals), id, n) && id in b.nonces
    ensures Sequential(b.nonces[id], StateNonce(b.state, id))
  {
    hide Pairs, StateNonce, NextNonce, SortedById;
    BuiltBatches.StateNonceIs(b.state, id);
    var next := NextNonce(b.state, id);
    forall v: nat ensures v in b.nonces[id] <==> next <= v < next + n {
      assert multiset(Pairs(b.orders, b.withdrawals))[(id, v)] == if v in NoncesOf(b.nonces, id) then 1 else 0;
    }
    RunIsSequential(b.nonces[id], next, n);
  }

  /** Building only asks that every account's nonces form a run. */
  lemma BuiltWhenRuns(b: Batch)
    requires Reachable(b) && SortedById(b.state)
    ensures BuildBatch(b).Ok? <==> AllUseRuns(b.state, Pairs(b.orders, b.withdrawals))
  {
    hide Reachable, SortedById, TouchedKept, NoncesKept, UsesRun, Sequential, Pairs, StateNonce, NextNonce, SortedKeys, Host.Witness, ComputeRoot,
      RootFromProof, BatchOf;
    BuiltBatches.ReachableTouched(b);
    BuiltBatches.ReachableNonces(b);
    TouchedOpens(b);
    if AllSequential(b) {
      forall id: AccountId ensures UsesSomeRun(b.state, Pairs(b.orders, b.withdrawals), id) {
        RunRecorded(b, id);
      }
    }
    if AllUseRuns(b.state, Pairs(b.orders, b.withdrawals)) {
      forall id | id in b.nonces ensures Sequential(b.nonces[id], StateNonce(b.state, id)) {
        assert UsesSomeRun(b.state, Pairs(b.orders, b.withdrawals), id);
        var n: nat :| UsesRun(b.state, Pairs(b.orders, b.withdrawals), id, n);
        RecordedExactly(b, id, n);
      }
    }
  }

  lemma TouchedOpens(b: Batch)
    requires TouchedKept(b) && SortedById(b.state)
    ensures Host.Witness(b.state, b.touched).Ok? && ComputeRoot(b.state).Ok?
  {
    hide Host.Witness, ComputeRoot, RootFromProof;
    Host.WitnessOpens(b.state, b.touched);
  }

  lemma RunRecorded(b: Batch, id: AccountId)
    requires NoncesKept(b) && AllSequential(b) && SortedById(b.state)
    ensures UsesRun(b.state, Pairs(b.orders, b.withdrawals), id, |NoncesOf(b.nonces, id)|)
  {
    hide Pairs, StateNonce, NextNonce, SortedById, NoncesKept, AllSequential, NoncesOf;
    BuiltBatches.StateNonceIs(b.state, id);
    BuiltBatches.RecordedRun(b, id);
  }

  /** The batch a builder hands over carries what was admitted: same domain, id,
      cursors and configuration, the same operations in the same order but for
      position hints, books that list every order in priority, and a witness of
      exactly the touched accounts against the root of the complete state. */
  ghost predicate Carries(start: Batch, done: seq<Operation>, input: BatchInput) {
    && input.domain == start.domain && input.batchId == start.batchId && input.config == start.config
    && input.depositCursor == start.depositCursor && input.forcedCursor == start.forcedCursor
    && |input.deposits| == |Deposits(done)| && |input.forced| == |Requests(done)|
    && |input.orders| == |Orders(done)| && |input.withdrawals| == |Withdrawals(done)|
    && (forall i :: 0 <= i < |input.deposits| ==> input.deposits[i] == Deposits(done)[i].(index := input.deposits[i].index))
    && (forall i :: 0 <= i < |input.forced| ==> input.forced[i] == Requests(done)[i].(index := input.forced[i].index))
    && (forall i :: 0 <= i < |input.orders| ==> input.orders[i] == Orders(done)[i].(index := input.orders[i].index))
    && (forall i :: 0 <= i < |input.withdrawals| ==> input.withdrawals[i] == Withdrawals(done)[i].(index := input.withdrawals[i].index))
    && Arranged(input.orders, input.books)
    && SortedById(input.accounts)
    && (forall x :: x in input.accounts <==> x in start.state && x.id in Touched(start.config.fees.recipient, done))
    && ComputeRoot(start.state) == Ok(input.expectedRoot) == RootFromProof(input.accounts, input.proof)
  }

  /** THEOREM (building). Whatever was tried, a batch is built exactly when the
      admitted orders and withdrawals of every account use its next nonces, each
      once, and the nonce after them still fits; it then carries exactly what was
      admitted. */
  lemma BuildsExactly(start: Batch, operations: seq<Operation>)
    requires IsNew(start) && SortedById(start.state)
    ensures var done, built := Admitted(start, operations), BuildBatch(PerformAll(start, operations));
            && (built.Ok? <==> AllUseRuns(start.state, Pairs(Orders(done), Withdrawals(done))))
            && (built.Ok? ==> Carries(start, done, built.value))
  {
    hide Holds, PerformAll, BuildBatch, SortedById, AllUseRuns, Pairs, Carries, Admitted, Reachable, Touched;
    var done, b := Admitted(start, operations), PerformAll(start, operations);
    NewHolds(start);
    RunHolds(start, [], start, operations);
    assert [] + done == done;
    RunIsReachable(start, operations);
    HeldOperations(start, done, b);
    BuiltWhenRuns(b);
    if BuildBatch(b).Ok? {
      BuiltCarries(start, done, b, BuildBatch(b).value);
    }
  }

  lemma HeldOperations(start: Batch, done: seq<Operation>, b: Batch)
    requires Holds(start, done, b)
    ensures b.state == start.state && b.orders == Orders(done) && b.withdrawals == Withdrawals(done)
  {
  }

  lemma BuiltCarries(start: Batch, done: seq<Operation>, b: Batch, input: BatchInput)
    requires Holds(start, done, b) && Reachable(b) && SortedById(b.state) && BuildBatch(b) == Ok(input)
    ensures Carries(start, done, input)
  {
    hide BuildBatch, Reachable, SortedById, Arranged, Touched, Deposits, Requests, Orders, Withdrawals, Host.Witness, ComputeRoot,
      RootFromProof, SortBooks, Rank, AllSequential;
    BuiltBatches.BuildUnfold(b, input);
    BuiltBatches.BuiltWitness(b, input);
    BuiltBatches.BuiltBooksArranged(b);
  }
}
