/** The invariant of the batch builder, kept over every run of operations. */
module BuilderTheorems {
  import opened Keys
  import opened Results
  import opened Types
  import opened Ledger
  import opened Operations
  import opened Validation
  import opened Books
  import opened SettlementTheorems
  import opened Builder

  // ----- what every builder operation keeps

  ghost predicate TouchedKept(b: Batch) {
    && SortedKeys(b.touched) && b.config.fees.recipient in b.touched
    && (forall i :: 0 <= i < |b.deposits| ==> b.deposits[i].account in b.touched)
    && (forall i :: 0 <= i < |b.forced| ==> b.forced[i].account in b.touched)
    && (forall i :: 0 <= i < |b.orders| ==> b.orders[i].trader in b.touched)
    && (forall i :: 0 <= i < |b.withdrawals| ==> b.withdrawals[i].account in b.touched)
  }

  ghost predicate QueuesKept(b: Batch) {
    && (forall i :: 0 <= i < |b.deposits| ==>
          b.deposits[i].id == b.depositCursor + i && b.deposits[i].amount > 0 && FindAsset(b.config.assets, b.deposits[i].asset).Some?)
    && (forall i :: 0 <= i < |b.forced| ==> b.forced[i].id == b.forcedCursor + i && b.forced[i].amount > 0)
  }

  ghost predicate OperationsKept(b: Batch) {
    && (forall i :: 0 <= i < |b.orders| ==>
          b.orders[i].price > 0 && b.orders[i].quantity > 0
          && FindMarket(b.config.markets, b.orders[i].market).Some? && b.orders[i].sequence in b.sequences)
    && DistinctSequences(b.orders)
    && (forall i :: 0 <= i < |b.withdrawals| ==>
          b.withdrawals[i].amount > 0 && FindAsset(b.config.assets, b.withdrawals[i].asset).Some?)
  }

  /** Every nonce used is recorded, once, in its account's ordered set. */
  ghost predicate NoncesKept(b: Batch) {
    && (forall id :: id in b.nonces ==> SortedNats(b.nonces[id]))
    && (forall id: AccountId, v: nat :: multiset(Pairs(b.orders, b.withdrawals))[(id, v)] ==
          if v in NoncesOf(b.nonces, id) then 1 else 0)
  }

  ghost predicate SideKept(orders: seq<Order>, market: MarketId, side: Side, list: seq<nat>) {
    && SortedNats(list)
    && forall p :: 0 <= p < |list| ==> list[p] < |orders| && orders[list[p]].market == market && orders[list[p]].side == side
  }

  ghost predicate BookKept(orders: seq<Order>, book: OrderBook) {
    && (book.buys != [] || book.sells != [])
    && SideKept(orders, book.market, Buy, book.buys) && SideKept(orders, book.market, Sell, book.sells)
  }

  ghost predicate BooksKept(orders: seq<Order>, books: seq<OrderBook>) {
    books != [] ==>
      && BookKept(orders, books[0])
      && (|books| > 1 ==> books[0].market < books[1].market)
      && BooksKept(orders, books[1..])
  }

  ghost predicate AllShelved(b: Batch) {
    BooksKept(b.orders, b.books) && forall i :: 0 <= i < |b.orders| ==> InSomeBook(b.books, i)
  }

  /** What an account has of an asset in the complete state. */
  function StateBalance(state: seq<Account>, id: AccountId, asset: AssetId): nat {
    match SearchId(state, id)
    case Found(i) => Balance(state[i].balances, asset)
    case Missing(_) => 0
  }

  /** Every account's withdrawals together are covered before the batch. */
  ghost predicate CoverageKept(b: Batch) {
    forall id, a :: Withdrawn(b.withdrawals, id, a) <= StateBalance(b.state, id, a)
  }

  ghost predicate LimitsKept(b: Batch) {
    && |b.touched| <= MAX_TOUCHED_ACCOUNTS_PER_BATCH
    && |b.deposits| <= MAX_DEPOSITS_PER_BATCH && |b.forced| <= MAX_FORCED_WITHDRAWALS_PER_BATCH
    && |b.orders| <= MAX_ORDERS_PER_BATCH && |b.withdrawals| <= MAX_WITHDRAWALS_PER_BATCH
  }

  ghost predicate BuilderInv(b: Batch) {
    TouchedKept(b) && QueuesKept(b) && OperationsKept(b) && NoncesKept(b) && AllShelved(b) && CoverageKept(b) && LimitsKept(b)
  }

  lemma InsertKeyLength(keys: seq<Key>, key: Key)
    requires SortedKeys(keys)
    ensures |InsertKey(keys, key)| == if key in keys then |keys| else |keys| + 1
  {
    if key in keys {
      var i :| 0 <= i < |keys| && keys[i] == key;
      assert KeyPosition(keys, key) == i;
    }
  }

  lemma StartInv(state: seq<Account>, config: ExchangeConfig, domain: SigningDomain, batchId: nat, depositCursor: nat, forcedCursor: nat)
    ensures BuilderInv(NewBatch(state, config, domain, batchId, depositCursor, forcedCursor))
  {
    assert Pairs([], []) == [];
  }

  /** Queueing leaves orders, withdrawals, nonces and books alone. */
  lemma QueueingKeeps(b: Batch, next: Batch)
    requires next == b.(touched := next.touched, deposits := next.deposits, forced := next.forced)
    requires OperationsKept(b) && NoncesKept(b) && AllShelved(b) && CoverageKept(b)
    ensures OperationsKept(next) && NoncesKept(next) && AllShelved(next) && CoverageKept(next)
  {
    hide NoncesOf, Pairs, InSomeBook, StateBalance, Withdrawn, BooksKept, DistinctSequences;
  }

  lemma DepositKeeps(b: Batch, d: Deposit)
    requires BuilderInv(b) && AddDeposit(b, d).Ok?
    ensures BuilderInv(AddDeposit(b, d).value)
  {
    hide OperationsKept, NoncesKept, AllShelved, CoverageKept, KeyPosition, InsertKey;
    InsertKeyLength(b.touched, d.account);
    QueueingKeeps(b, AddDeposit(b, d).value);
  }

  lemma ForcedKeeps(b: Batch, f: ForcedWithdrawal)
    requires BuilderInv(b) && AddForced(b, f).Ok?
    ensures BuilderInv(AddForced(b, f).value)
  {
    hide OperationsKept, NoncesKept, AllShelved, CoverageKept, KeyPosition, InsertKey;
    InsertKeyLength(b.touched, f.account);
    QueueingKeeps(b, AddForced(b, f).value);
  }

  // ----- nonces

  lemma PairsAddOrder(orders: seq<Order>, withdrawals: seq<Withdrawal>, o: Order)
    ensures multiset(Pairs(orders + [o], withdrawals)) == multiset(Pairs(orders, withdrawals)) + multiset{(o.trader, o.nonce)}
  {
    var prior, extended := Pairs(orders, withdrawals), Pairs(orders + [o], withdrawals);
    var n := |orders|;
    assert extended == prior[..n] + [(o.trader, o.nonce)] + prior[n..];
    assert prior == prior[..n] + prior[n..];
  }

  lemma PairsAddWithdrawal(orders: seq<Order>, withdrawals: seq<Withdrawal>, w: Withdrawal)
    ensures multiset(Pairs(orders, withdrawals + [w])) == multiset(Pairs(orders, withdrawals)) + multiset{(w.account, w.nonce)}
  {
    assert Pairs(orders, withdrawals + [w]) == Pairs(orders, withdrawals) + [(w.account, w.nonce)];
  }

  lemma NonceAdded(nonces: map<AccountId, seq<nat>>, id: AccountId, nonce: nat, before: multiset<(AccountId, nat)>)
    requires forall k :: k in nonces ==> SortedNats(nonces[k])
    requires nonce !in NoncesOf(nonces, id)
    requires forall k: AccountId, v: nat :: before[(k, v)] == if v in NoncesOf(nonces, k) then 1 else 0
    ensures var next := AddNonce(nonces, id, nonce);
            && (forall k :: k in next ==> SortedNats(next[k]))
            && (forall k: AccountId, v: nat :: (before + multiset{(id, nonce)})[(k, v)] == if v in NoncesOf(next, k) then 1 else 0)
  {
    InsertNatSorted(NoncesOf(nonces, id), nonce);
    var next := AddNonce(nonces, id, nonce);
    forall k: AccountId, v: nat ensures (before + multiset{(id, nonce)})[(k, v)] == if v in NoncesOf(next, k) then 1 else 0 {
      assert before[(k, v)] == if v in NoncesOf(nonces, k) then 1 else 0;
    }
  }

  // ----- books

  lemma SideWider(orders: seq<Order>, o: Order, market: MarketId, side: Side, list: seq<nat>)
    requires SideKept(orders, market, side, list)
    ensures SideKept(orders + [o], market, side, list)
    ensures o.market == market && o.side == side ==> SideKept(orders + [o], market, side, list + [|orders|])
  {
  }

  lemma {:induction false} BooksWider(orders: seq<Order>, o: Order, books: seq<OrderBook>)
    requires BooksKept(orders, books)
    ensures BooksKept(orders + [o], books)
  {
    if books != [] {
      SideWider(orders, o, books[0].market, Buy, books[0].buys);
      SideWider(orders, o, books[0].market, Sell, books[0].sells);
      BooksWider(orders, o, books[1..]);
    }
  }

  lemma BookAdded(orders: seq<Order>, o: Order, book: OrderBook)
    requires SideKept(orders, book.market, Buy, book.buys) && SideKept(orders, book.market, Sell, book.sells)
    requires book.market == o.market
    ensures BookKept(orders + [o], AddToBook(book, o.side, |orders|))
  {
    SideWider(orders, o, book.market, Buy, book.buys);
    SideWider(orders, o, book.market, Sell, book.sells);
  }

  lemma {:induction false} BooksAdded(orders: seq<Order>, o: Order, books: seq<OrderBook>)
    requires BooksKept(orders, books)
    ensures var r := AddToBooks(books, o.market, o.side, |orders|);
            && r != [] && BooksKept(orders + [o], r)
            && r[0].market == (if books == [] || o.market < books[0].market then o.market else books[0].market)
  {
    var r := AddToBooks(books, o.market, o.side, |orders|);
    if books == [] || o.market < books[0].market {
      BookAdded(orders, o, OrderBook(o.market, [], []));
      BooksWider(orders, o, books);
      assert r[1..] == books;
    } else if books[0].market == o.market {
      BookAdded(orders, o, books[0]);
      BooksWider(orders, o, books[1..]);
      assert r[1..] == books[1..];
    } else {
      SideWider(orders, o, books[0].market, Buy, books[0].buys);
      SideWider(orders, o, books[0].market, Sell, books[0].sells);
      BooksAdded(orders, o, books[1..]);
      assert r[1..] == AddToBooks(books[1..], o.market, o.side, |orders|);
    }
  }

  lemma {:induction false} ShelfAdded(books: seq<OrderBook>, market: MarketId, side: Side, index: nat, i: nat)
    ensures InSomeBook(AddToBooks(books, market, side, index), i) <==> InSomeBook(books, i) || i == index
  {
    var r := AddToBooks(books, market, side, index);
    InFirstOrRest(r, i);
    if books == [] || market < books[0].market {
      assert r[1..] == books;
    } else {
      InFirstOrRest(books, i);
      if books[0].market == market {
        assert r[1..] == books[1..];
      } else {
        ShelfAdded(books[1..], market, side, index, i);
        assert r[1..] == AddToBooks(books[1..], market, side, index);
      }
    }
  }

  lemma InFirstOrRest(books: seq<OrderBook>, i: nat)
    requires books != []
    ensures InSomeBook(books, i) <==> i in books[0].buys || i in books[0].sells || InSomeBook(books[1..], i)
  {
    if InSomeBook(books[1..], i) {
      var k :| 0 <= k < |books[1..]| && (i in books[1..][k].buys || i in books[1..][k].sells);
      assert i in books[k + 1].buys || i in books[k + 1].sells;
    }
    if InSomeBook(books, i) && i !in books[0].buys && i !in books[0].sells {
      var k :| 0 <= k < |books| && (i in books[k].buys || i in books[k].sells);
      assert books[1..][k - 1] == books[k];
    }
  }

  lemma OrderKeeps(b: Batch, o: Order)
    requires BuilderInv(b) && AddOrder(b, o).Ok?
    ensures BuilderInv(AddOrder(b, o).value)
  {
    hide InSomeBook, BooksKept, AddToBooks, AddNonce, NoncesOf, AddOrder, TouchedKept, OperationsKept, NoncesKept, LimitsKept,
      StateBalance, Withdrawn, Pairs;
    OrderAdmitted(b, o);
    var next := AddOrder(b, o).value;
    OrderNonces(b, o, next);
    BooksAdded(b.orders, o, b.books);
    forall i | 0 <= i < |next.orders| ensures InSomeBook(next.books, i) {
      ShelfAdded(b.books, o.market, o.side, |b.orders|, i);
    }
  }

  lemma OrderNonces(b: Batch, o: Order, next: Batch)
    requires NoncesKept(b) && o.nonce !in NoncesOf(b.nonces, o.trader)
    requires next.orders == b.orders + [o] && next.withdrawals == b.withdrawals
    requires next.nonces == AddNonce(b.nonces, o.trader, o.nonce)
    ensures NoncesKept(next)
  {
    hide Pairs, NoncesOf, AddNonce;
    PairsAddOrder(b.orders, b.withdrawals, o);
    NonceAdded(b.nonces, o.trader, o.nonce, multiset(Pairs(b.orders, b.withdrawals)));
  }

  lemma OrderAdmitted(b: Batch, o: Order)
    requires TouchedKept(b) && OperationsKept(b) && LimitsKept(b) && AddOrder(b, o).Ok?
    ensures o.nonce !in NoncesOf(b.nonces, o.trader)
    ensures var next := AddOrder(b, o).value;
            && TouchedKept(next) && OperationsKept(next) && LimitsKept(next)
            && next == b.(sequences := next.sequences, nonces := AddNonce(b.nonces, o.trader, o.nonce), touched := next.touched,
                          books := AddToBooks(b.books, o.market, o.side, |b.orders|), orders := b.orders + [o])
  {
    hide AddToBooks, AddNonce, NoncesOf, KeyPosition, FindMarket, FindAsset, StateNonce;
    InsertKeyLength(b.touched, o.trader);
  }

  lemma WithdrawalAdmitted(b: Batch, w: Withdrawal)
    requires TouchedKept(b) && OperationsKept(b) && LimitsKept(b) && AddWithdrawal(b, w).Ok?
    ensures w.nonce !in NoncesOf(b.nonces, w.account)
    ensures Withdrawn(b.withdrawals, w.account, w.asset) + w.amount <= StateBalance(b.state, w.account, w.asset)
    ensures var next := AddWithdrawal(b, w).value;
            && TouchedKept(next) && OperationsKept(next) && LimitsKept(next)
            && next == b.(nonces := AddNonce(b.nonces, w.account, w.nonce), touched := next.touched, withdrawals := b.withdrawals + [w])
  {
    hide AddNonce, NoncesOf, KeyPosition, FindMarket, FindAsset, Withdrawn, Balance;
    InsertKeyLength(b.touched, w.account);
  }

  lemma WithdrawalKeeps(b: Batch, w: Withdrawal)
    requires BuilderInv(b) && AddWithdrawal(b, w).Ok?
    ensures BuilderInv(AddWithdrawal(b, w).value)
  {
    hide InSomeBook, BooksKept, AddNonce, NoncesOf, AddWithdrawal, TouchedKept, OperationsKept, NoncesKept, LimitsKept,
      StateBalance, Withdrawn, CoverageKept, Pairs;
    WithdrawalAdmitted(b, w);
    var next := AddWithdrawal(b, w).value;
    WithdrawalNonces(b, w, next);
    WithdrawalCovered(b, w, next);
    assert AllShelved(next) by { assert next.books == b.books && next.orders == b.orders; }
  }

  lemma {:induction false} WithdrawnAppend(withdrawals: seq<Withdrawal>, w: Withdrawal, id: AccountId, asset: AssetId)
    ensures Withdrawn(withdrawals + [w], id, asset) ==
            Withdrawn(withdrawals, id, asset) + (if w.account == id && w.asset == asset then w.amount else 0)
  {
    if withdrawals == [] {
      assert (withdrawals + [w])[1..] == [];
    } else {
      WithdrawnAppend(withdrawals[1..], w, id, asset);
      assert (withdrawals + [w])[1..] == withdrawals[1..] + [w];
    }
  }

  lemma WithdrawalCovered(b: Batch, w: Withdrawal, next: Batch)
    requires CoverageKept(b) && next.state == b.state && next.withdrawals == b.withdrawals + [w]
    requires Withdrawn(b.withdrawals, w.account, w.asset) + w.amount <= StateBalance(b.state, w.account, w.asset)
    ensures CoverageKept(next)
  {
    hide StateBalance;
    forall id, a ensures Withdrawn(next.withdrawals, id, a) <= StateBalance(b.state, id, a) {
      WithdrawnAppend(b.withdrawals, w, id, a);
      assert Withdrawn(b.withdrawals, id, a) <= StateBalance(b.state, id, a);
    }
  }

  lemma WithdrawalNonces(b: Batch, w: Withdrawal, next: Batch)
    requires NoncesKept(b) && w.nonce !in NoncesOf(b.nonces, w.account)
    requires next.orders == b.orders && next.withdrawals == b.withdrawals + [w]
    requires next.nonces == AddNonce(b.nonces, w.account, w.nonce)
    ensures NoncesKept(next)
  {
    hide Pairs, NoncesOf, AddNonce;
    PairsAddWithdrawal(b.orders, b.withdrawals, w);
    NonceAdded(b.nonces, w.account, w.nonce, multiset(Pairs(b.orders, b.withdrawals)));
  }

  /** Every operation keeps the invariant, and what it started from. */
  lemma PerformKeeps(b: Batch, operation: Operation)
    requires BuilderInv(b)
    ensures BuilderInv(Perform(b, operation))
  {
    hide BuilderInv, AddDeposit, AddForced, AddOrder, AddWithdrawal;
    if Attempt(b, operation).Ok? {
      match operation
      case Fund(deposit) => DepositKeeps(b, deposit);
      case Force(request) => ForcedKeeps(b, request);
      case Place(order) => OrderKeeps(b, order);
      case Take(withdrawal) => WithdrawalKeeps(b, withdrawal);
    }
  }

  lemma {:induction false} PerformAllKeeps(b: Batch, operations: seq<Operation>)
    requires BuilderInv(b)
    ensures BuilderInv(PerformAll(b, operations))
    decreases |operations|
  {
    hide BuilderInv, Perform;
    if operations != [] {
      PerformKeeps(b, operations[0]);
      PerformAllKeeps(Perform(b, operations[0]), operations[1..]);
    }
  }

  /** THEOREM (builder invariant). Whatever operations are tried in whatever
      order, every batch a builder reaches satisfies the invariant. */
  lemma ReachableKeeps(b: Batch)
    requires Reachable(b)
    ensures BuilderInv(b)
  {
    hide BuilderInv, PerformAll;
    var start, operations :| ReachedBy(b, start, operations);
    StartInv(start.state, start.config, start.domain, start.batchId, start.depositCursor, start.forcedCursor);
    PerformAllKeeps(start, operations);
  }
}
