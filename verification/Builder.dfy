/** The batch builder (batch_builder.rs) on values: what it admits, what it
    records and the batch it builds. Ordered sets are ascending sequences. */
module Builder {
  import opened Keys
  import opened Results
  import opened Sorting
  import opened Types
  import opened Ledger
  import opened Operations
  import opened Validation
  import opened Books
  import opened Patricia
  import opened Settlement
  import opened Host

  datatype Batch = Batch(state: seq<Account>, config: ExchangeConfig, domain: SigningDomain, batchId: nat,
                         depositCursor: nat, deposits: seq<Deposit>,
                         forcedCursor: nat, forced: seq<ForcedWithdrawal>,
                         orders: seq<Order>, withdrawals: seq<Withdrawal>,
                         touched: seq<Key>, sequences: set<nat>, nonces: map<AccountId, seq<nat>>,
                         books: seq<OrderBook>)

  function NewBatch(state: seq<Account>, config: ExchangeConfig, domain: SigningDomain, batchId: nat,
                 depositCursor: nat, forcedCursor: nat): Batch {
    Batch(state, config, domain, batchId, depositCursor, [], forcedCursor, [], [], [],
          [config.fees.recipient], {}, map[], [])
  }

  // ----- ordered sets and maps

  /** Where a key is, or where it would be inserted. */
  function KeyPosition(keys: seq<Key>, key: Key): (i: nat)
    ensures i <= |keys|
    ensures forall k :: 0 <= k < i ==> keys[k] < key
    ensures i < |keys| ==> key <= keys[i]
  {
    if keys == [] || key <= keys[0] then 0 else 1 + KeyPosition(keys[1..], key)
  }

  function InsertKey(keys: seq<Key>, key: Key): (r: seq<Key>)
    ensures SortedKeys(keys) ==> SortedKeys(r)
    ensures forall k :: k in r <==> k in keys || k == key
  {
    var i := KeyPosition(keys, key);
    if i < |keys| && keys[i] == key then keys
    else
      assert keys == keys[..i] + keys[i..];
      keys[..i] + [key] + keys[i..]
  }

  predicate SortedNats(s: seq<nat>) {
    forall i, j :: 0 <= i < j < |s| ==> s[i] < s[j]
  }

  function InsertNat(s: seq<nat>, v: nat): (r: seq<nat>)
    ensures forall x :: x in r <==> x in s || x == v
  {
    if s == [] || v < s[0] then [v] + s
    else if s[0] == v then s
    else
      assert s == [s[0]] + s[1..];
      [s[0]] + InsertNat(s[1..], v)
  }

  lemma {:induction false} InsertNatSorted(s: seq<nat>, v: nat)
    requires SortedNats(s)
    ensures SortedNats(InsertNat(s, v))
  {
    if s != [] && v > s[0] {
      InsertNatSorted(s[1..], v);
      var rest := InsertNat(s[1..], v);
      forall j | 0 <= j < |rest| ensures s[0] < rest[j] {
        assert rest[j] in rest;
        assert rest[j] == v || rest[j] in s[1..];
      }
    }
  }

  function NoncesOf(nonces: map<AccountId, seq<nat>>, id: AccountId): seq<nat> {
    if id in nonces then nonces[id] else []
  }

  function AddNonce(nonces: map<AccountId, seq<nat>>, id: AccountId, nonce: nat): map<AccountId, seq<nat>> {
    nonces[id := InsertNat(NoncesOf(nonces, id), nonce)]
  }

  /** Appends an order index to its side of its market's book. */
  function AddToBooks(books: seq<OrderBook>, market: MarketId, side: Side, index: nat): seq<OrderBook> {
    if books == [] || market < books[0].market then
      [AddToBook(OrderBook(market, [], []), side, index)] + books
    else if books[0].market == market then
      [AddToBook(books[0], side, index)] + books[1..]
    else
      [books[0]] + AddToBooks(books[1..], market, side, index)
  }

  function AddToBook(book: OrderBook, side: Side, index: nat): OrderBook {
    if side.Buy? then book.(buys := book.buys + [index]) else book.(sells := book.sells + [index])
  }

  // ----- admission

  function Room(b: Batch, id: AccountId): bool {
    id in b.touched || |b.touched| < MAX_TOUCHED_ACCOUNTS_PER_BATCH
  }

  function Known(b: Batch, id: AccountId): bool {
    SearchId(b.state, id).Found?
  }

  /** The next nonce in the complete state, zero for an unknown account. */
  function StateNonce(state: seq<Account>, id: AccountId): nat {
    match SearchId(state, id)
    case Found(i) => state[i].nextNonce
    case Missing(_) => 0
  }

  function AddDeposit(b: Batch, d: Deposit): Result<Batch> {
    var expected := b.depositCursor + |b.deposits|;
    if |b.deposits| >= MAX_DEPOSITS_PER_BATCH then Err(TooManyDeposits)
    else if expected > U64_MAX then Err(DepositCursorOverflow)
    else if d.id != expected then Err(InvalidDepositCursor)
    else if d.amount == 0 then Err(ZeroDepositAmount)
    else if FindAsset(b.config.assets, d.asset).None? then Err(UnknownAsset)
    else if !Room(b, d.account) then Err(TooManyAccounts)
    else Ok(b.(touched := InsertKey(b.touched, d.account), deposits := b.deposits + [d]))
  }

  /** Unlike the others this admits accounts that do not exist. */
  function AddForced(b: Batch, f: ForcedWithdrawal): Result<Batch> {
    var expected := b.forcedCursor + |b.forced|;
    if |b.forced| >= MAX_FORCED_WITHDRAWALS_PER_BATCH then Err(TooManyForcedWithdrawals)
    else if expected > U64_MAX then Err(ForcedWithdrawalCursorOverflow)
    else if f.id != expected then Err(InvalidForcedWithdrawalCursor)
    else if f.amount == 0 then Err(ZeroForcedWithdrawalAmount)
    else if !Room(b, f.account) then Err(TooManyAccounts)
    else Ok(b.(touched := InsertKey(b.touched, f.account), forced := b.forced + [f]))
  }

  function AddOrder(b: Batch, o: Order): Result<Batch> {
    if |b.orders| >= MAX_ORDERS_PER_BATCH then Err(TooManyOrders)
    else if o.price == 0 then Err(ZeroPrice)
    else if o.quantity == 0 then Err(ZeroQuantity)
    else if !Known(b, o.trader) && (forall i :: 0 <= i < |b.deposits| ==> b.deposits[i].account != o.trader) then
      Err(UnknownAccount)
    else if FindMarket(b.config.markets, o.market).None? then Err(UnknownMarket)
    else if o.sequence in b.sequences then Err(DuplicateSequence)
    else if o.nonce < StateNonce(b.state, o.trader) then Err(InvalidNonce)
    else if o.nonce in NoncesOf(b.nonces, o.trader) then Err(DuplicateNonce)
    else if !Room(b, o.trader) then Err(TooManyAccounts)
    else Ok(b.(sequences := b.sequences + {o.sequence}, nonces := AddNonce(b.nonces, o.trader, o.nonce),
               touched := InsertKey(b.touched, o.trader),
               books := AddToBooks(b.books, o.market, o.side, |b.orders|), orders := b.orders + [o]))
  }

  function AddWithdrawal(b: Batch, w: Withdrawal): Result<Batch> {
    if |b.withdrawals| >= MAX_WITHDRAWALS_PER_BATCH then Err(TooManyWithdrawals)
    else if w.amount == 0 then Err(ZeroWithdrawalAmount)
    else if FindAsset(b.config.assets, w.asset).None? then Err(UnknownAsset)
    else
      match SearchId(b.state, w.account)
      case Missing(_) => Err(UnknownAccount)
      case Found(i) =>
        var required := Withdrawn(b.withdrawals, w.account, w.asset) + w.amount;
        if required > U128_MAX then Err(ArithmeticOverflow)
        else if Balance(b.state[i].balances, w.asset) < required then Err(InsufficientBalance)
        else if w.nonce < b.state[i].nextNonce then Err(InvalidNonce)
        else if w.nonce in NoncesOf(b.nonces, w.account) then Err(DuplicateNonce)
        else if !Room(b, w.account) then Err(TooManyAccounts)
        else Ok(b.(nonces := AddNonce(b.nonces, w.account, w.nonce),
                   touched := InsertKey(b.touched, w.account), withdrawals := b.withdrawals + [w]))
  }

  // ----- runs of operations

  datatype Operation =
    | Fund(deposit: Deposit)
    | Force(request: ForcedWithdrawal)
    | Place(order: Order)
    | Take(withdrawal: Withdrawal)

  function Attempt(b: Batch, operation: Operation): Result<Batch> {
    match operation
    case Fund(deposit) => AddDeposit(b, deposit)
    case Force(request) => AddForced(b, request)
    case Place(order) => AddOrder(b, order)
    case Take(withdrawal) => AddWithdrawal(b, withdrawal)
  }

  /** A refused operation leaves the batch as it is. */
  function Perform(b: Batch, operation: Operation): Batch {
    if Attempt(b, operation).Ok? then Attempt(b, operation).value else b
  }

  function PerformAll(b: Batch, operations: seq<Operation>): Batch
    decreases |operations|
  {
    if operations == [] then b else PerformAll(Perform(b, operations[0]), operations[1..])
  }

  predicate IsNew(b: Batch) {
    b == NewBatch(b.state, b.config, b.domain, b.batchId, b.depositCursor, b.forcedCursor)
  }

  ghost predicate ReachedBy(b: Batch, start: Batch, operations: seq<Operation>) {
    IsNew(start) && b == PerformAll(start, operations)
  }

  /** Some sequence of operations on a new batch leads here. */
  ghost predicate Reachable(b: Batch) {
    exists start: Batch, operations: seq<Operation> :: ReachedBy(b, start, operations)
  }

  lemma {:induction false} PerformLast(b: Batch, operations: seq<Operation>, last: Operation)
    ensures PerformAll(b, operations + [last]) == Perform(PerformAll(b, operations), last)
    decreases |operations|
  {
    hide Perform;
    if operations == [] {
      assert (operations + [last])[1..] == [];
    } else {
      PerformLast(Perform(b, operations[0]), operations[1..], last);
      assert (operations + [last])[1..] == operations[1..] + [last];
    }
  }

  lemma NewIsReachable(state: seq<Account>, config: ExchangeConfig, domain: SigningDomain, batchId: nat,
                       depositCursor: nat, forcedCursor: nat)
    ensures Reachable(NewBatch(state, config, domain, batchId, depositCursor, forcedCursor))
  {
    var b := NewBatch(state, config, domain, batchId, depositCursor, forcedCursor);
    assert ReachedBy(b, b, []);
  }

  /** Reachable batches are closed under operations, admitted or refused. */
  lemma StaysReachable(b: Batch, operation: Operation)
    requires Reachable(b)
    ensures Reachable(Perform(b, operation))
  {
    hide Perform;
    var start, operations :| ReachedBy(b, start, operations);
    PerformLast(start, operations, operation);
    assert ReachedBy(Perform(b, operation), start, operations + [operation]);
  }

  // ----- building

  /** The nonces run on from `expected` and the one after the last still fits. */
  predicate Sequential(nonces: seq<nat>, expected: nat) {
    nonces != [] ==> nonces[0] == expected && expected + 1 <= U64_MAX && Sequential(nonces[1..], expected + 1)
  }

  predicate AllSequential(b: Batch) {
    forall id :: id in b.nonces ==> Sequential(b.nonces[id], StateNonce(b.state, id))
  }

  /** An account's rank among the touched ones, attached as its hint. */
  function Rank(b: Batch, id: AccountId): nat {
    KeyPosition(b.touched, id)
  }

  function RankDeposits(b: Batch): (r: seq<Deposit>)
    ensures |r| == |b.deposits|
    ensures forall i :: 0 <= i < |r| ==> r[i] == b.deposits[i].(index := Rank(b, b.deposits[i].account))
  {
    seq(|b.deposits|, i requires 0 <= i < |b.deposits| => b.deposits[i].(index := Rank(b, b.deposits[i].account)))
  }

  function RankForced(b: Batch): (r: seq<ForcedWithdrawal>)
    ensures |r| == |b.forced|
    ensures forall i :: 0 <= i < |r| ==> r[i] == b.forced[i].(index := Some(Rank(b, b.forced[i].account)))
  {
    seq(|b.forced|, i requires 0 <= i < |b.forced| => b.forced[i].(index := Some(Rank(b, b.forced[i].account))))
  }

  function RankOrders(b: Batch): (r: seq<Order>)
    ensures |r| == |b.orders|
    ensures forall i :: 0 <= i < |r| ==> r[i] == b.orders[i].(index := Rank(b, b.orders[i].trader))
  {
    seq(|b.orders|, i requires 0 <= i < |b.orders| => b.orders[i].(index := Rank(b, b.orders[i].trader)))
  }

  function RankWithdrawals(b: Batch): (r: seq<Withdrawal>)
    ensures |r| == |b.withdrawals|
    ensures forall i :: 0 <= i < |r| ==> r[i] == b.withdrawals[i].(index := Rank(b, b.withdrawals[i].account))
  {
    seq(|b.withdrawals|, i requires 0 <= i < |b.withdrawals| =>
      b.withdrawals[i].(index := Rank(b, b.withdrawals[i].account)))
  }

  /** Priority between order indices; an index out of range comes last. */
  function Earlier(orders: seq<Order>, side: Side): (nat, nat) -> bool {
    (i: nat, j: nat) => i < |orders| && (j >= |orders| || Before(side, orders[i], orders[j]))
  }

  function SortBook(orders: seq<Order>, book: OrderBook): OrderBook {
    OrderBook(book.market, Sort(book.buys, Earlier(orders, Buy)), Sort(book.sells, Earlier(orders, Sell)))
  }

  function SortBooks(orders: seq<Order>, books: seq<OrderBook>): (r: seq<OrderBook>)
    ensures |r| == |books| && forall k :: 0 <= k < |r| ==> r[k] == SortBook(orders, books[k])
  {
    seq(|books|, k requires 0 <= k < |books| => SortBook(orders, books[k]))
  }

  /** The built batch, given the witness and the root of the complete state. */
  function BatchOf(b: Batch, root: Digest, proven: (seq<Account>, Multiproof)): BatchInput {
    BatchInput(b.domain, b.batchId, root, proven.0, proven.1, b.depositCursor, RankDeposits(b),
               b.forcedCursor, RankForced(b), RankOrders(b), RankWithdrawals(b),
               SortBooks(RankOrders(b), b.books), b.config)
  }

  function BuildBatch(b: Batch): Result<BatchInput> {
    if !AllSequential(b) then Err(InvalidNonce)
    else
      var proven := Host.Witness(b.state, b.touched);
      if proven.Err? then Err(InvalidStateProof)
      else
        var root :- ComputeRoot(b.state);
        Ok(BatchOf(b, root, proven.value))
  }
}
