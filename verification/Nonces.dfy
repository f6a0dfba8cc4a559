/** Nonce validation and consumption (validation.rs, nonces.rs): orders and
    withdrawals of one account share one strictly sequential nonce space. */
module Nonces {
  import opened Keys
  import opened Results
  import opened Sorting
  import opened Types
  import opened Ledger
  import opened Operations

  /** One use of a nonce by the account at a position. */
  datatype Use = Use(index: nat, nonce: nat)

  predicate UseBefore(a: Use, b: Use) {
    a.index < b.index || (a.index == b.index && a.nonce < b.nonce)
  }

  function OrderUses(orders: seq<Order>): (r: seq<Use>)
    ensures |r| == |orders|
    ensures forall i :: 0 <= i < |orders| ==> r[i] == Use(orders[i].index, orders[i].nonce)
  {
    seq(|orders|, i requires 0 <= i < |orders| => Use(orders[i].index, orders[i].nonce))
  }

  function WithdrawalUses(withdrawals: seq<Withdrawal>): (r: seq<Use>)
    ensures |r| == |withdrawals|
    ensures forall i :: 0 <= i < |withdrawals| ==> r[i] == Use(withdrawals[i].index, withdrawals[i].nonce)
  {
    seq(|withdrawals|, i requires 0 <= i < |withdrawals| => Use(withdrawals[i].index, withdrawals[i].nonce))
  }

  function Uses(orders: seq<Order>, withdrawals: seq<Withdrawal>): seq<Use> {
    OrderUses(orders) + WithdrawalUses(withdrawals)
  }

  predicate UsesResolved(uses: seq<Use>, accounts: seq<Account>) {
    forall i :: 0 <= i < |uses| ==> uses[i].index < |accounts|
  }

  /** Walks the sorted uses; `expected` continues while the account stays. */
  function CheckRuns(uses: seq<Use>, accounts: seq<Account>, current: Option<nat>, expected: nat): Check
    requires UsesResolved(uses, accounts)
    decreases |uses|
  {
    if uses == [] then Pass
    else
      var next := if current == Some(uses[0].index) then expected else accounts[uses[0].index].nextNonce;
      if uses[0].nonce != next then Fail(InvalidNonce)
      else if next + 1 > U64_MAX then Fail(NonceOverflow)
      else CheckRuns(uses[1..], accounts, Some(uses[0].index), next + 1)
  }

  function ValidateNonces(orders: seq<Order>, withdrawals: seq<Withdrawal>, accounts: seq<Account>): Check
    requires UsesResolved(Uses(orders, withdrawals), accounts)
  {
    SortedResolved(Uses(orders, withdrawals), accounts);
    CheckRuns(Sort(Uses(orders, withdrawals), UseBefore), accounts, None, 0)
  }

  lemma SortedResolved(uses: seq<Use>, accounts: seq<Account>)
    requires UsesResolved(uses, accounts)
    ensures UsesResolved(Sort(uses, UseBefore), accounts)
  {
    var sorted := Sort(uses, UseBefore);
    SameElements(sorted, uses);
    forall i | 0 <= i < |sorted| ensures sorted[i].index < |accounts| {
      assert sorted[i] in uses;
    }
  }

  /** How many nonces the account at a position uses. */
  function CountUses(uses: seq<Use>, index: nat): nat {
    if uses == [] then 0 else (if uses[0].index == index then 1 else 0) + CountUses(uses[1..], index)
  }

  lemma {:induction false} CountAppend(a: seq<Use>, c: seq<Use>, x: nat)
    ensures CountUses(a + c, x) == CountUses(a, x) + CountUses(c, x)
  {
    if a == [] {
      assert a + c == c;
    } else {
      CountAppend(a[1..], c, x);
      assert (a + c)[1..] == a[1..] + c;
    }
  }

  /** The account uses exactly the nonces start, start + 1, ... once each. */
  ghost predicate ExactRun(uses: seq<Use>, index: nat, start: nat) {
    && (forall v: nat :: multiset(uses)[Use(index, v)] == if start <= v < start + CountUses(uses, index) then 1 else 0)
    && (CountUses(uses, index) > 0 ==> start + CountUses(uses, index) <= U64_MAX)
  }

  function Start(accounts: seq<Account>, current: Option<nat>, expected: nat, index: nat): nat
    requires index < |accounts|
  {
    if current == Some(index) then expected else accounts[index].nextNonce
  }

  ghost predicate AllRuns(uses: seq<Use>, accounts: seq<Account>, current: Option<nat>, expected: nat) {
    forall x :: 0 <= x < |accounts| ==> ExactRun(uses, x, Start(accounts, current, expected, x))
  }

  lemma {:induction false} CountPositive(uses: seq<Use>, use: Use)
    requires use in uses
    ensures CountUses(uses, use.index) > 0
  {
    if uses[0] != use {
      CountPositive(uses[1..], use);
    }
  }

  lemma {:induction false} CountZero(uses: seq<Use>, index: nat)
    requires forall i :: 0 <= i < |uses| ==> uses[i].index != index
    ensures CountUses(uses, index) == 0
    ensures forall v :: multiset(uses)[Use(index, v)] == 0
  {
    if uses != [] {
      CountZero(uses[1..], index);
      assert uses == [uses[0]] + uses[1..];
    }
  }

  /** Taking the first use off shifts its own run and leaves the others. */
  lemma RunStep(uses: seq<Use>, x: nat, start: nat)
    requires uses != []
    requires x == uses[0].index ==> uses[0].nonce == start && start + 1 <= U64_MAX
    ensures x == uses[0].index ==> (ExactRun(uses, x, start) <==> ExactRun(uses[1..], x, start + 1))
    ensures x != uses[0].index ==> (ExactRun(uses, x, start) <==> ExactRun(uses[1..], x, start))
  {
    var rest := uses[1..];
    assert uses == [uses[0]] + rest;
    assert multiset(uses) == multiset(rest) + multiset{uses[0]};
    if x == uses[0].index {
      if ExactRun(uses, x, start) {
        forall v: nat ensures multiset(rest)[Use(x, v)] == if start + 1 <= v < start + 1 + CountUses(rest, x) then 1 else 0 {
          assert multiset(uses)[Use(x, v)] == if start <= v < start + CountUses(uses, x) then 1 else 0;
        }
      }
      if ExactRun(rest, x, start + 1) {
        forall v: nat ensures multiset(uses)[Use(x, v)] == if start <= v < start + CountUses(uses, x) then 1 else 0 {
          assert multiset(rest)[Use(x, v)] == if start + 1 <= v < start + 1 + CountUses(rest, x) then 1 else 0;
        }
      }
    } else {
      assert forall v: nat :: multiset(uses)[Use(x, v)] == multiset(rest)[Use(x, v)];
    }
  }

  /** In a run the smallest nonce, which sorting puts first, is the start. */
  lemma RunStartsFirst(uses: seq<Use>, start: nat)
    requires uses != [] && Ascending(uses, UseBefore)
    requires ExactRun(uses, uses[0].index, start)
    ensures uses[0].nonce == start && start + 1 <= U64_MAX
  {
    var x := uses[0].index;
    CountPositive(uses, uses[0]);
    assert multiset(uses)[Use(x, start)] == 1;
    assert Use(x, start) in uses;
    var i :| 0 <= i < |uses| && uses[i] == Use(x, start);
    assert i > 0 ==> !UseBefore(uses[i], uses[0]);
    assert uses[0] in multiset(uses) && uses[0] == Use(x, uses[0].nonce);
  }

  lemma AllRunsStep(uses: seq<Use>, accounts: seq<Account>, current: Option<nat>, expected: nat)
    requires uses != [] && UsesResolved(uses, accounts)
    requires forall i :: 0 < i < |uses| ==> uses[0].index <= uses[i].index
    requires current.Some? ==> current.value <= uses[0].index
    requires uses[0].nonce == Start(accounts, current, expected, uses[0].index) && uses[0].nonce + 1 <= U64_MAX
    ensures AllRuns(uses, accounts, current, expected)
            <==> AllRuns(uses[1..], accounts, Some(uses[0].index), uses[0].nonce + 1)
  {
    var x, rest, next := uses[0].index, uses[1..], uses[0].nonce + 1;
    if AllRuns(uses, accounts, current, expected) {
      forall y | 0 <= y < |accounts| ensures ExactRun(rest, y, Start(accounts, Some(x), next, y)) {
        assert ExactRun(uses, y, Start(accounts, current, expected, y));
        OneRunStep(uses, accounts, current, expected, y);
      }
    }
    if AllRuns(rest, accounts, Some(x), next) {
      forall y | 0 <= y < |accounts| ensures ExactRun(uses, y, Start(accounts, current, expected, y)) {
        assert ExactRun(rest, y, Start(accounts, Some(x), next, y));
        OneRunStep(uses, accounts, current, expected, y);
      }
    }
  }

  lemma OneRunStep(uses: seq<Use>, accounts: seq<Account>, current: Option<nat>, expected: nat, y: nat)
    requires uses != [] && UsesResolved(uses, accounts) && y < |accounts|
    requires forall i :: 0 < i < |uses| ==> uses[0].index <= uses[i].index
    requires current.Some? ==> current.value <= uses[0].index
    requires uses[0].nonce == Start(accounts, current, expected, uses[0].index) && uses[0].nonce + 1 <= U64_MAX
    ensures ExactRun(uses, y, Start(accounts, current, expected, y))
            <==> ExactRun(uses[1..], y, Start(accounts, Some(uses[0].index), uses[0].nonce + 1, y))
  {
    RunStep(uses, y, Start(accounts, current, expected, y));
    if y != uses[0].index && current == Some(y) {
      CountZero(uses[1..], y);
      CountZero(uses, y);
    }
  }

  lemma {:induction false} RunsChecked(uses: seq<Use>, accounts: seq<Account>, current: Option<nat>, expected: nat)
    requires UsesResolved(uses, accounts) && Ascending(uses, UseBefore)
    requires current.Some? ==> forall i :: 0 <= i < |uses| ==> current.value <= uses[i].index
    ensures CheckRuns(uses, accounts, current, expected).Pass? <==> AllRuns(uses, accounts, current, expected)
    decreases |uses|
  {
    if uses != [] {
      var x := uses[0].index;
      var start := Start(accounts, current, expected, x);
      forall i | 0 < i < |uses| ensures x <= uses[i].index {
        assert !UseBefore(uses[i], uses[0]);
      }
      if AllRuns(uses, accounts, current, expected) {
        assert ExactRun(uses, x, start);
        RunStartsFirst(uses, start);
      }
      if uses[0].nonce == start && start + 1 <= U64_MAX {
        RunsChecked(uses[1..], accounts, Some(x), start + 1);
        AllRunsStep(uses, accounts, current, expected);
      }
    } else {
      forall x | 0 <= x < |accounts| ensures ExactRun(uses, x, Start(accounts, current, expected, x)) {
        CountZero(uses, x);
      }
    }
  }

  lemma UseOrder()
    ensures StrictWeakOrder(UseBefore)
  {
  }

  lemma {:induction false} CountInsert(use: Use, uses: seq<Use>, index: nat)
    ensures CountUses(Insert(use, uses, UseBefore), index) == (if use.index == index then 1 else 0) + CountUses(uses, index)
  {
    if uses == [] || !UseBefore(uses[0], use) {
      assert ([use] + uses)[1..] == uses;
    } else {
      CountInsert(use, uses[1..], index);
      assert ([uses[0]] + Insert(use, uses[1..], UseBefore))[1..] == Insert(use, uses[1..], UseBefore);
    }
  }

  lemma {:induction false} CountSorted(uses: seq<Use>, index: nat)
    ensures CountUses(Sort(uses, UseBefore), index) == CountUses(uses, index)
  {
    if uses != [] {
      CountSorted(uses[1..], index);
      CountInsert(uses[0], Sort(uses[1..], UseBefore), index);
    }
  }

  /** THEOREM. Nonce validation accepts exactly when every account's orders and
      withdrawals together use the run next, next + 1, ..., each nonce once,
      and the nonce after the run still fits. */
  lemma NoncesFormRuns(orders: seq<Order>, withdrawals: seq<Withdrawal>, accounts: seq<Account>)
    requires UsesResolved(Uses(orders, withdrawals), accounts)
    ensures ValidateNonces(orders, withdrawals, accounts).Pass? <==>
              forall x :: 0 <= x < |accounts| ==> ExactRun(Uses(orders, withdrawals), x, accounts[x].nextNonce)
  {
    var uses := Uses(orders, withdrawals);
    var sorted := Sort(uses, UseBefore);
    UseOrder();
    SortAscending(uses, UseBefore);
    SortedResolved(uses, accounts);
    RunsChecked(sorted, accounts, None, 0);
    forall x | 0 <= x < |accounts|
      ensures ExactRun(uses, x, accounts[x].nextNonce) <==> ExactRun(sorted, x, Start(accounts, None, 0, x))
    {
      CountSorted(uses, x);
    }
  }

  // ----- consumption

  function Advanced(accounts: seq<Account>, uses: seq<Use>): (r: seq<Account>)
    ensures |r| == |accounts|
    ensures forall i :: 0 <= i < |accounts| ==>
              r[i] == accounts[i].(nextNonce := accounts[i].nextNonce + CountUses(uses, i))
  {
    seq(|accounts|, i requires 0 <= i < |accounts| =>
      accounts[i].(nextNonce := accounts[i].nextNonce + CountUses(uses, i)))
  }

  function ConsumeNonces(accounts: seq<Account>, orders: seq<Order>, withdrawals: seq<Withdrawal>): (r: Result<seq<Account>>)
    ensures r.Ok? ==> SameIds(accounts, r.value)
  {
    var uses := Uses(orders, withdrawals);
    if exists i :: 0 <= i < |accounts| && accounts[i].nextNonce + CountUses(uses, i) > U64_MAX then
      Err(NonceOverflow)
    else
      Ok(Advanced(accounts, uses))
  }

  lemma {:induction false} OnlyNoncesTotal(a: seq<Account>, b: seq<Account>, asset: AssetId)
    requires |a| == |b| && forall i :: 0 <= i < |a| ==> a[i].balances == b[i].balances
    ensures Total(a, asset) == Total(b, asset)
  {
    if a != [] {
      OnlyNoncesTotal(a[1..], b[1..], asset);
    }
  }

  lemma {:induction false} OnlyNoncesHolding(a: seq<Account>, b: seq<Account>, id: AccountId, asset: AssetId)
    requires SameIds(a, b) && forall i :: 0 <= i < |a| ==> a[i].balances == b[i].balances
    ensures Holding(a, id, asset) == Holding(b, id, asset)
  {
    if a != [] {
      OnlyNoncesHolding(a[1..], b[1..], id, asset);
    }
  }

  /** Account nonces are u64 values. */
  ghost predicate NoncesFit(accounts: seq<Account>) {
    forall i :: 0 <= i < |accounts| ==> accounts[i].nextNonce <= U64_MAX
  }

  /** THEOREM. After validation, consumption cannot overflow: every account's
      next nonce moves past its run and nothing else changes. */
  lemma ConsumptionAdvances(orders: seq<Order>, withdrawals: seq<Withdrawal>, accounts: seq<Account>)
    requires UsesResolved(Uses(orders, withdrawals), accounts) && NoncesFit(accounts)
    requires ValidAccounts(accounts)
    requires ValidateNonces(orders, withdrawals, accounts).Pass?
    ensures ConsumeNonces(accounts, orders, withdrawals).Ok?
    ensures var r := ConsumeNonces(accounts, orders, withdrawals).value;
            && ValidAccounts(r) && NoncesFit(r)
            && (forall i :: 0 <= i < |accounts| ==>
                  r[i].nextNonce == accounts[i].nextNonce + CountUses(Uses(orders, withdrawals), i))
            && (forall id, a :: Holding(r, id, a) == Holding(accounts, id, a))
            && (forall a :: Total(r, a) == Total(accounts, a))
  {
    var uses := Uses(orders, withdrawals);
    NoncesFormRuns(orders, withdrawals, accounts);
    forall i | 0 <= i < |accounts| ensures accounts[i].nextNonce + CountUses(uses, i) <= U64_MAX {
      assert ExactRun(uses, i, accounts[i].nextNonce);
    }
    var r := Advanced(accounts, uses);
    SameIdsSorted(accounts, r);
    forall id, a ensures Holding(r, id, a) == Holding(accounts, id, a) {
      OnlyNoncesHolding(accounts, r, id, a);
    }
    forall a ensures Total(r, a) == Total(accounts, a) {
      OnlyNoncesTotal(accounts, r, a);
    }
  }
}
