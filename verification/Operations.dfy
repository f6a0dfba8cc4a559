/** What deposits, forced withdrawals, withdrawals and nonces do to the account
    list (settlement/deposits.rs, forced_withdrawals.rs, withdrawals.rs, nonces.rs). */
module Operations {
  import opened Keys
  import opened Results
  import opened Types
  import opened Ledger

  const MAX_TOUCHED_ACCOUNTS_PER_BATCH: nat := 1_001

  /** Sorted by id, each account in canonical form: what the guest validates. */
  ghost predicate ValidAccounts(accounts: seq<Account>) {
    SortedById(accounts) && CanonicalAccounts(accounts)
  }

  ghost predicate HasId(accounts: seq<Account>, id: AccountId) {
    exists i :: 0 <= i < |accounts| && accounts[i].id == id
  }

  // ----- locating an account

  datatype Search = Found(index: nat) | Missing(index: nat)

  function IdPosition(accounts: seq<Account>, id: AccountId): (i: nat)
    ensures i <= |accounts|
    ensures forall k :: 0 <= k < i ==> accounts[k].id < id
    ensures i < |accounts| ==> id <= accounts[i].id
  {
    if accounts == [] || id <= accounts[0].id then 0 else 1 + IdPosition(accounts[1..], id)
  }

  /** The answer a binary search gives on a sorted list. */
  function SearchId(accounts: seq<Account>, id: AccountId): Search {
    var i := IdPosition(accounts, id);
    if i < |accounts| && accounts[i].id == id then Found(i) else Missing(i)
  }

  /** The hinted search: trust the position when it is right, or when it is a
      gap the id fits into, and fall back to searching otherwise. */
  function LocateDeposit(accounts: seq<Account>, deposit: Deposit): (s: Search)
    ensures s.Found? ==> s.index < |accounts| && accounts[s.index].id == deposit.account
    ensures s.Missing? ==> s.index <= |accounts|
  {
    var index := deposit.index;
    if index < |accounts| && accounts[index].id == deposit.account then
      Found(index)
    else
      var beforeOk := index == 0 || (index - 1 < |accounts| && accounts[index - 1].id < deposit.account);
      var afterOk := index >= |accounts| || deposit.account < accounts[index].id;
      if beforeOk && afterOk then Missing(index) else SearchId(accounts, deposit.account)
  }

  lemma SearchIdUnique(accounts: seq<Account>, id: AccountId, i: nat)
    requires SortedById(accounts) && i <= |accounts|
    requires i > 0 ==> accounts[i - 1].id < id
    requires i < |accounts| ==> id <= accounts[i].id
    ensures IdPosition(accounts, id) == i
  {
    var p := IdPosition(accounts, id);
    if p < i {
      OrderAt(accounts, p, i - 1);
    }
  }

  lemma OrderAt(accounts: seq<Account>, i: nat, j: nat)
    requires SortedById(accounts) && i <= j < |accounts|
    ensures accounts[i].id <= accounts[j].id
    ensures i < j ==> accounts[i].id < accounts[j].id
  {
  }

  /** For every hint the hinted search answers like a binary search. */
  lemma LocateIsSearch(accounts: seq<Account>, deposit: Deposit)
    requires SortedById(accounts)
    ensures LocateDeposit(accounts, deposit) == SearchId(accounts, deposit.account)
  {
    var s := LocateDeposit(accounts, deposit);
    if s == Found(deposit.index) || s == Missing(deposit.index) {
      SearchIdUnique(accounts, deposit.account, s.index);
    }
  }

  lemma SearchFinds(accounts: seq<Account>, id: AccountId)
    requires SortedById(accounts)
    ensures SearchId(accounts, id).Found? <==> HasId(accounts, id)
  {
    if HasId(accounts, id) {
      var i :| 0 <= i < |accounts| && accounts[i].id == id;
      if i > 0 { OrderAt(accounts, i - 1, i); }
      SearchIdUnique(accounts, id, i);
    }
  }

  // ----- deposits

  function ApplyDeposit(accounts: seq<Account>, deposit: Deposit): Result<seq<Account>> {
    match LocateDeposit(accounts, deposit)
    case Found(i) =>
      var account :- Credit(accounts[i], deposit.asset, deposit.amount);
      Ok(accounts[i := account])
    case Missing(i) =>
      if |accounts| >= MAX_TOUCHED_ACCOUNTS_PER_BATCH then
        Err(TooManyAccounts)
      else
        var account :- Credit(Account(deposit.account, [], 0), deposit.asset, deposit.amount);
        Ok(accounts[..i] + [account] + accounts[i..])
  }

  function ApplyDeposits(accounts: seq<Account>, deposits: seq<Deposit>): Result<seq<Account>>
    decreases |deposits|
  {
    if deposits == [] then
      Ok(accounts)
    else
      var next :- ApplyDeposit(accounts, deposits[0]);
      ApplyDeposits(next, deposits[1..])
  }

  function Deposited(deposits: seq<Deposit>, id: AccountId, asset: AssetId): nat {
    if deposits == [] then 0
    else (if deposits[0].account == id && deposits[0].asset == asset then deposits[0].amount else 0)
         + Deposited(deposits[1..], id, asset)
  }

  function DepositedTotal(deposits: seq<Deposit>, asset: AssetId): nat {
    if deposits == [] then 0
    else (if deposits[0].asset == asset then deposits[0].amount else 0) + DepositedTotal(deposits[1..], asset)
  }

  predicate DepositsFit(deposits: seq<Deposit>) {
    forall i :: 0 <= i < |deposits| ==> deposits[i].amount <= U128_MAX
  }

  ghost predicate DepositsTo(deposits: seq<Deposit>, id: AccountId) {
    exists i :: 0 <= i < |deposits| && deposits[i].account == id
  }

  lemma UpdateKeepsForm(accounts: seq<Account>, i: nat, account: Account)
    requires ValidAccounts(accounts) && i < |accounts|
    requires account.id == accounts[i].id && CanonicalBalances(account.balances)
    ensures ValidAccounts(accounts[i := account])
    ensures forall id :: HasId(accounts[i := account], id) <==> HasId(accounts, id)
  {
    var r := accounts[i := account];
    assert forall k :: 0 <= k < |r| ==> r[k].id == accounts[k].id;
  }

  lemma InsertKeepsForm(accounts: seq<Account>, i: nat, account: Account)
    requires ValidAccounts(accounts) && i <= |accounts| && CanonicalBalances(account.balances)
    requires i > 0 ==> accounts[i - 1].id < account.id
    requires i < |accounts| ==> account.id < accounts[i].id
    ensures ValidAccounts(accounts[..i] + [account] + accounts[i..])
  {
    var r := accounts[..i] + [account] + accounts[i..];
    assert forall k :: 0 <= k < i ==> r[k] == accounts[k];
    assert forall k :: i < k < |r| ==> r[k] == accounts[k - 1];
    forall k, l | 0 <= k < l < |r| ensures r[k].id < r[l].id {
      if l == i {
        OrderAt(accounts, k, i - 1);
      } else if k == i {
        OrderAt(accounts, i, l - 1);
      }
    }
  }

  lemma InsertAddsId(accounts: seq<Account>, i: nat, account: Account, id: AccountId)
    requires i <= |accounts|
    ensures HasId(accounts[..i] + [account] + accounts[i..], id) <==> HasId(accounts, id) || id == account.id
  {
    var r := accounts[..i] + [account] + accounts[i..];
    assert r[i].id == account.id;
    if HasId(accounts, id) {
      var k :| 0 <= k < |accounts| && accounts[k].id == id;
      assert r[if k < i then k else k + 1].id == id;
    }
    if HasId(r, id) && id != account.id {
      var k :| 0 <= k < |r| && r[k].id == id;
      assert accounts[if k < i then k else k - 1].id == id;
    }
  }

  lemma DepositKeepsForm(accounts: seq<Account>, deposit: Deposit, r: seq<Account>)
    requires ValidAccounts(accounts) && deposit.amount <= U128_MAX
    requires ApplyDeposit(accounts, deposit) == Ok(r)
    ensures ValidAccounts(r)
    ensures forall id :: HasId(r, id) <==> HasId(accounts, id) || id == deposit.account
  {
    LocateIsSearch(accounts, deposit);
    match SearchId(accounts, deposit.account)
    case Found(i) =>
      assert accounts[i].id == deposit.account;
      CreditEffect(accounts[i], deposit.asset, deposit.amount);
      UpdateKeepsForm(accounts, i, Credit(accounts[i], deposit.asset, deposit.amount).value);
      assert HasId(accounts, deposit.account);
    case Missing(i) =>
      var created := Account(deposit.account, [], 0);
      CreditEffect(created, deposit.asset, deposit.amount);
      InsertKeepsForm(accounts, i, Credit(created, deposit.asset, deposit.amount).value);
      forall id ensures HasId(r, id) <==> HasId(accounts, id) || id == deposit.account {
        InsertAddsId(accounts, i, Credit(created, deposit.asset, deposit.amount).value, id);
      }
  }

  lemma DepositMoves(accounts: seq<Account>, deposit: Deposit, r: seq<Account>, id: AccountId)
    requires ValidAccounts(accounts) && deposit.amount <= U128_MAX
    requires ApplyDeposit(accounts, deposit) == Ok(r)
    ensures forall a :: Holding(r, id, a) == Holding(accounts, id, a)
              + (if id == deposit.account && a == deposit.asset then deposit.amount else 0)
    ensures NextNonce(r, id) == NextNonce(accounts, id)
    ensures forall a :: Total(r, a) == Total(accounts, a) + (if a == deposit.asset then deposit.amount else 0)
  {
    LocateIsSearch(accounts, deposit);
    match SearchId(accounts, deposit.account)
    case Found(i) =>
      var account := Credit(accounts[i], deposit.asset, deposit.amount).value;
      CreditEffect(accounts[i], deposit.asset, deposit.amount);
      LookupAt(accounts, i);
      LookupUpdate(accounts, i, account, id);
      forall a ensures Total(r, a) == Total(accounts, a) + (if a == deposit.asset then deposit.amount else 0) {
        TotalUpdate(accounts, i, account, a);
      }
    case Missing(i) =>
      var created := Account(deposit.account, [], 0);
      var account := Credit(created, deposit.asset, deposit.amount).value;
      CreditEffect(created, deposit.asset, deposit.amount);
      SearchFinds(accounts, deposit.account);
      LookupAbsent(accounts, deposit.account);
      LookupInsert(accounts, i, account, id);
      forall a ensures Total(r, a) == Total(accounts, a) + (if a == deposit.asset then deposit.amount else 0) {
        TotalInsert(accounts, i, account, a);
      }
  }

  /** THEOREM. Whatever the hints, applying deposits keeps the list sorted and
      canonical, creates exactly the missing accounts with nonce zero, and adds
      to each account and asset exactly what was deposited there. */
  lemma {:induction false} DepositsRefineAddition(accounts: seq<Account>, deposits: seq<Deposit>, r: seq<Account>)
    requires ValidAccounts(accounts) && DepositsFit(deposits)
    requires ApplyDeposits(accounts, deposits) == Ok(r)
    ensures ValidAccounts(r)
    ensures forall id :: HasId(r, id) <==> HasId(accounts, id) || DepositsTo(deposits, id)
    ensures forall id, a :: Holding(r, id, a) == Holding(accounts, id, a) + Deposited(deposits, id, a)
    ensures forall id :: NextNonce(r, id) == NextNonce(accounts, id)
    ensures forall a :: Total(r, a) == Total(accounts, a) + DepositedTotal(deposits, a)
    decreases |deposits|
  {
    if deposits != [] {
      var next := ApplyDeposit(accounts, deposits[0]).value;
      DepositKeepsForm(accounts, deposits[0], next);
      DepositsRefineAddition(next, deposits[1..], r);
      forall id ensures DepositsTo(deposits, id) <==> id == deposits[0].account || DepositsTo(deposits[1..], id) {
        DepositsToSplit(deposits, id);
      }
      forall id, a ensures Holding(r, id, a) == Holding(accounts, id, a) + Deposited(deposits, id, a) {
        DepositMoves(accounts, deposits[0], next, id);
      }
      forall id ensures NextNonce(r, id) == NextNonce(accounts, id) {
        DepositMoves(accounts, deposits[0], next, id);
      }
      DepositMoves(accounts, deposits[0], next, deposits[0].account);
    }
  }

  lemma DepositsToSplit(deposits: seq<Deposit>, id: AccountId)
    requires deposits != []
    ensures DepositsTo(deposits, id) <==> id == deposits[0].account || DepositsTo(deposits[1..], id)
  {
    if DepositsTo(deposits[1..], id) {
      var i :| 0 <= i < |deposits[1..]| && deposits[1..][i].account == id;
      assert deposits[i + 1].account == id;
    }
    if DepositsTo(deposits, id) {
      var i :| 0 <= i < |deposits| && deposits[i].account == id;
      assert i > 0 ==> deposits[1..][i - 1].account == id;
    }
  }

  // ----- debits at a resolved position

  /** Debits the account at position `i`. */
  function DebitAt(accounts: seq<Account>, i: nat, asset: AssetId, amount: nat): (r: Result<seq<Account>>)
    requires i < |accounts|
    ensures r.Ok? ==> SameIds(accounts, r.value)
  {
    var account :- Debit(accounts[i], asset, amount);
    Ok(accounts[i := account])
  }

  function CreditAt(accounts: seq<Account>, i: nat, asset: AssetId, amount: nat): (r: Result<seq<Account>>)
    requires i < |accounts|
    ensures r.Ok? ==> SameIds(accounts, r.value)
  {
    var account :- Credit(accounts[i], asset, amount);
    Ok(accounts[i := account])
  }

  /** The net change of one booking, as seen through ids. */
  ghost predicate Booked(accounts: seq<Account>, r: seq<Account>, id: AccountId, asset: AssetId, change: int) {
    && ValidAccounts(r) && SameIds(accounts, r)
    && (forall k, a :: Holding(r, k, a) == Holding(accounts, k, a) + (if k == id && a == asset then change else 0))
    && (forall k :: NextNonce(r, k) == NextNonce(accounts, k))
    && (forall a :: Total(r, a) == Total(accounts, a) + (if a == asset then change else 0))
  }

  lemma SameIdsSorted(a: seq<Account>, b: seq<Account>)
    requires SortedById(a) && SameIds(a, b)
    ensures SortedById(b)
  {
  }

  lemma ReplaceBooks(accounts: seq<Account>, i: nat, account: Account, asset: AssetId, change: int)
    requires ValidAccounts(accounts) && i < |accounts|
    requires account.id == accounts[i].id && account.nextNonce == accounts[i].nextNonce
    requires CanonicalBalances(account.balances)
    requires forall x :: EntrySum(account.balances, x) == EntrySum(accounts[i].balances, x) + (if x == asset then change else 0)
    ensures Booked(accounts, accounts[i := account], accounts[i].id, asset, change)
  {
    var r := accounts[i := account];
    LookupAt(accounts, i);
    forall k, a ensures Holding(r, k, a) == Holding(accounts, k, a) + (if k == account.id && a == asset then change else 0) {
      LookupUpdate(accounts, i, account, k);
    }
    forall k ensures NextNonce(r, k) == NextNonce(accounts, k) {
      LookupUpdate(accounts, i, account, k);
    }
    forall a ensures Total(r, a) == Total(accounts, a) + (if a == asset then change else 0) {
      TotalUpdate(accounts, i, account, a);
    }
  }

  lemma DebitAtBooks(accounts: seq<Account>, i: nat, asset: AssetId, amount: nat)
    requires ValidAccounts(accounts) && i < |accounts|
    ensures var r := DebitAt(accounts, i, asset, amount);
            && (r.Ok? <==> Holding(accounts, accounts[i].id, asset) > 0 && amount <= Holding(accounts, accounts[i].id, asset))
            && (r.Ok? ==> Booked(accounts, r.value, accounts[i].id, asset, -(amount as int)))
            && (r.Err? ==> r.error == InsufficientBalance)
  {
    DebitEffect(accounts[i], asset, amount);
    LookupAt(accounts, i);
    if DebitAt(accounts, i, asset, amount).Ok? {
      ReplaceBooks(accounts, i, Debit(accounts[i], asset, amount).value, asset, -(amount as int));
    }
  }

  lemma CreditAtBooks(accounts: seq<Account>, i: nat, asset: AssetId, amount: nat)
    requires ValidAccounts(accounts) && i < |accounts| && amount <= U128_MAX
    ensures var r := CreditAt(accounts, i, asset, amount);
            && (r.Ok? <==> amount == 0 || Holding(accounts, accounts[i].id, asset) + amount <= U128_MAX)
            && (r.Ok? ==> Booked(accounts, r.value, accounts[i].id, asset, amount))
            && (r.Err? ==> r.error == ArithmeticOverflow)
  {
    CreditEffect(accounts[i], asset, amount);
    LookupAt(accounts, i);
    if CreditAt(accounts, i, asset, amount).Ok? {
      ReplaceBooks(accounts, i, Credit(accounts[i], asset, amount).value, asset, amount);
    }
  }

  // ----- forced withdrawals

  predicate HintMatches(accounts: seq<Account>, request: ForcedWithdrawal) {
    request.index.Some? && request.index.value < |accounts| && accounts[request.index.value].id == request.account
  }

  /** How much the guest drains: capped by the balance, zero without a match. */
  function Drainable(accounts: seq<Account>, request: ForcedWithdrawal): nat {
    if HintMatches(accounts, request) then
      var available := Balance(accounts[request.index.value].balances, request.asset);
      if request.amount < available then request.amount else available
    else
      0
  }

  function ApplyForced(accounts: seq<Account>, requests: seq<ForcedWithdrawal>)
    : (r: Result<(seq<Account>, seq<ForcedWithdrawal>)>)
    ensures r.Ok? ==> SameIds(accounts, r.value.0) && |r.value.1| == |requests|
    decreases |requests|
  {
    if requests == [] then
      Ok((accounts, []))
    else
      var drained := Drainable(accounts, requests[0]);
      var next :- if drained > 0 then DebitAt(accounts, requests[0].index.value, requests[0].asset, drained)
                  else Ok(accounts);
      var rest :- ApplyForced(next, requests[1..]);
      Ok((rest.0, [requests[0].(amount := drained)] + rest.1))
  }

  function Drained(executed: seq<ForcedWithdrawal>, id: AccountId, asset: AssetId): nat {
    if executed == [] then 0
    else (if executed[0].account == id && executed[0].asset == asset then executed[0].amount else 0)
         + Drained(executed[1..], id, asset)
  }

  function DrainedTotal(executed: seq<ForcedWithdrawal>, asset: AssetId): nat {
    if executed == [] then 0
    else (if executed[0].asset == asset then executed[0].amount else 0) + DrainedTotal(executed[1..], asset)
  }

  /** One request: the drain never fails and takes what it reports. */
  lemma DrainOne(accounts: seq<Account>, request: ForcedWithdrawal)
    requires ValidAccounts(accounts)
    ensures var drained, held := Drainable(accounts, request), Holding(accounts, request.account, request.asset);
            && drained <= held
            && (HintMatches(accounts, request) ==> drained == Min(request.amount, held))
            && (drained > 0 ==>
                  && HintMatches(accounts, request)
                  && DebitAt(accounts, request.index.value, request.asset, drained).Ok?
                  && Booked(accounts, DebitAt(accounts, request.index.value, request.asset, drained).value,
                           request.account, request.asset, -(drained as int)))
  {
    if HintMatches(accounts, request) {
      var i := request.index.value;
      BalanceIsSum(accounts[i].balances, request.asset);
      LookupAt(accounts, i);
      DebitAtBooks(accounts, i, request.asset, Drainable(accounts, request));
    }
  }

  /** Request `i` keeps its identity and is granted all it asks for, or all its
      account still holds after the requests before it, but nothing when its
      hint does not match. */
  ghost predicate Granted(accounts: seq<Account>, requests: seq<ForcedWithdrawal>, executed: seq<ForcedWithdrawal>, i: nat)
    requires i < |requests| == |executed|
  {
    var request := requests[i];
    var left := Holding(accounts, request.account, request.asset) - Drained(executed[..i], request.account, request.asset);
    && left >= 0
    && executed[i] == request.(amount := if HintMatches(accounts, request) then Min(request.amount, left) else 0)
  }

  /** THEOREM. Draining never fails and takes exactly what it reports. What it
      reports is, request by request, the smaller of the amount asked for and
      the balance the earlier requests left, or zero without a matching hint. */
  lemma {:induction false} ForcedDrainsExactly(accounts: seq<Account>, requests: seq<ForcedWithdrawal>)
    requires ValidAccounts(accounts)
    ensures ApplyForced(accounts, requests).Ok?
    ensures var (r, executed) := ApplyForced(accounts, requests).value;
            && ValidAccounts(r)
            && (forall id, a :: Holding(r, id, a) == Holding(accounts, id, a) - Drained(executed, id, a))
            && (forall id :: NextNonce(r, id) == NextNonce(accounts, id))
            && (forall a :: Total(r, a) == Total(accounts, a) - DrainedTotal(executed, a))
            && (forall i :: 0 <= i < |requests| ==> Granted(accounts, requests, executed, i))
    decreases |requests|
  {
    if requests != [] {
      var request := requests[0];
      var drained := Drainable(accounts, request);
      DrainOne(accounts, request);
      var next := if drained > 0 then DebitAt(accounts, request.index.value, request.asset, drained).value else accounts;
      ForcedDrainsExactly(next, requests[1..]);
      var (r, rest) := ApplyForced(next, requests[1..]).value;
      var executed := [request.(amount := drained)] + rest;
      assert executed[1..] == rest;
      forall i | 0 <= i < |requests| ensures Granted(accounts, requests, executed, i) {
        if i > 0 {
          assert Granted(next, requests[1..], rest, i - 1);
          GrantedLater(accounts, next, requests, executed, i);
        }
      }
    }
  }

  /** What is left for a later request does not depend on where one starts. */
  lemma GrantedLater(accounts: seq<Account>, next: seq<Account>, requests: seq<ForcedWithdrawal>,
                     executed: seq<ForcedWithdrawal>, i: nat)
    requires 0 < i < |requests| == |executed| && SameIds(accounts, next)
    requires executed[0].account == requests[0].account && executed[0].asset == requests[0].asset
    requires forall id, a :: Holding(next, id, a) == Holding(accounts, id, a)
               - (if id == executed[0].account && a == executed[0].asset then executed[0].amount else 0)
    requires Granted(next, requests[1..], executed[1..], i - 1)
    ensures Granted(accounts, requests, executed, i)
  {
    assert executed[..i][1..] == executed[1..][..i - 1];
    assert HintMatches(accounts, requests[i]) <==> HintMatches(next, requests[i]);
  }

  // ----- withdrawals

  ghost predicate WithdrawalsResolved(withdrawals: seq<Withdrawal>, accounts: seq<Account>) {
    forall i :: 0 <= i < |withdrawals| ==>
      withdrawals[i].index < |accounts| && accounts[withdrawals[i].index].id == withdrawals[i].account
  }

  function ApplyWithdrawals(accounts: seq<Account>, withdrawals: seq<Withdrawal>): (r: Result<seq<Account>>)
    requires forall i :: 0 <= i < |withdrawals| ==> withdrawals[i].index < |accounts|
    ensures r.Ok? ==> SameIds(accounts, r.value)
    decreases |withdrawals|
  {
    if withdrawals == [] then
      Ok(accounts)
    else
      var next :- DebitAt(accounts, withdrawals[0].index, withdrawals[0].asset, withdrawals[0].amount);
      ApplyWithdrawals(next, withdrawals[1..])
  }

  function Withdrawn(withdrawals: seq<Withdrawal>, id: AccountId, asset: AssetId): nat {
    if withdrawals == [] then 0
    else (if withdrawals[0].account == id && withdrawals[0].asset == asset then withdrawals[0].amount else 0)
         + Withdrawn(withdrawals[1..], id, asset)
  }

  function WithdrawnTotal(withdrawals: seq<Withdrawal>, asset: AssetId): nat {
    if withdrawals == [] then 0
    else (if withdrawals[0].asset == asset then withdrawals[0].amount else 0) + WithdrawnTotal(withdrawals[1..], asset)
  }

  lemma {:induction false} WithdrawnAtLeast(withdrawals: seq<Withdrawal>, i: nat)
    requires i < |withdrawals|
    ensures withdrawals[i].amount <= Withdrawn(withdrawals, withdrawals[i].account, withdrawals[i].asset)
  {
    if i > 0 {
      WithdrawnAtLeast(withdrawals[1..], i - 1);
    }
  }

  /** Every account can pay everything it withdraws. */
  ghost predicate Covered(withdrawals: seq<Withdrawal>, accounts: seq<Account>) {
    forall id, a :: Withdrawn(withdrawals, id, a) <= Holding(accounts, id, a)
  }

  lemma CoveredStep(withdrawals: seq<Withdrawal>, accounts: seq<Account>, next: seq<Account>)
    requires withdrawals != []
    requires Booked(accounts, next, withdrawals[0].account, withdrawals[0].asset, -(withdrawals[0].amount as int))
    ensures Covered(withdrawals, accounts) <==> Covered(withdrawals[1..], next)
  {
    forall id, a ensures Withdrawn(withdrawals, id, a) <= Holding(accounts, id, a)
                         <==> Withdrawn(withdrawals[1..], id, a) <= Holding(next, id, a)
    {
    }
    if Covered(withdrawals, accounts) {
      forall id, a ensures Withdrawn(withdrawals[1..], id, a) <= Holding(next, id, a) {
        assert Withdrawn(withdrawals, id, a) <= Holding(accounts, id, a);
      }
    }
  }

  /** THEOREM. A batch of withdrawals succeeds exactly when every account can
      pay everything it withdraws; it then takes exactly that. */
  lemma {:induction false} WithdrawalsAreExact(accounts: seq<Account>, withdrawals: seq<Withdrawal>)
    requires ValidAccounts(accounts) && WithdrawalsResolved(withdrawals, accounts)
    requires forall i :: 0 <= i < |withdrawals| ==> withdrawals[i].amount > 0
    ensures ApplyWithdrawals(accounts, withdrawals).Ok? <==> Covered(withdrawals, accounts)
    ensures ApplyWithdrawals(accounts, withdrawals).Ok? ==>
              var r := ApplyWithdrawals(accounts, withdrawals).value;
              && ValidAccounts(r)
              && (forall id, a :: Holding(r, id, a) == Holding(accounts, id, a) - Withdrawn(withdrawals, id, a))
              && (forall id :: NextNonce(r, id) == NextNonce(accounts, id))
              && (forall a :: Total(r, a) == Total(accounts, a) - WithdrawnTotal(withdrawals, a))
    decreases |withdrawals|
  {
    if withdrawals != [] {
      var w := withdrawals[0];
      DebitAtBooks(accounts, w.index, w.asset, w.amount);
      if DebitAt(accounts, w.index, w.asset, w.amount).Ok? {
        var next := DebitAt(accounts, w.index, w.asset, w.amount).value;
        ResolvedTail(withdrawals, accounts, next);
        WithdrawalsAreExact(next, withdrawals[1..]);
        CoveredStep(withdrawals, accounts, next);
      } else {
        WithdrawnAtLeast(withdrawals, 0);
        assert Withdrawn(withdrawals, w.account, w.asset) > Holding(accounts, w.account, w.asset);
      }
    }
  }

  lemma ResolvedTail(withdrawals: seq<Withdrawal>, accounts: seq<Account>, next: seq<Account>)
    requires WithdrawalsResolved(withdrawals, accounts) && SameIds(accounts, next) && withdrawals != []
    ensures WithdrawalsResolved(withdrawals[1..], next)
  {
    forall i | 0 <= i < |withdrawals[1..]|
      ensures withdrawals[1..][i].index < |next| && next[withdrawals[1..][i].index].id == withdrawals[1..][i].account
    {
      assert withdrawals[1..][i] == withdrawals[i + 1];
    }
  }
}
