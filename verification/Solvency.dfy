/** What the exchange owes, and how each entry point of the contract moves it. */
module Solvency {
  import opened Keys
  import opened Results
  import opened Types
  import opened Ledger
  import opened Operations
  import opened Settlement
  import opened Contract
  import opened Transition

  // ----- pending payouts

  /** All pending payouts of one asset. */
  ghost function PendingTotal(pending: Pending, asset: AssetId): nat
    decreases |pending|
  {
    if pending == map[] then 0
    else
      var k :| k in pending;
      (if k.1 == asset then pending[k] else 0) + PendingTotal(pending - {k}, asset)
  }

  lemma {:induction false} PendingRemove(pending: Pending, k: (AccountId, AssetId), asset: AssetId)
    requires k in pending
    ensures PendingTotal(pending, asset) == (if k.1 == asset then pending[k] else 0) + PendingTotal(pending - {k}, asset)
    decreases |pending|
  {
    var first :| first in pending && PendingTotal(pending, asset) ==
                   (if first.1 == asset then pending[first] else 0) + PendingTotal(pending - {first}, asset);
    if first != k {
      PendingRemove(pending - {first}, k, asset);
      PendingRemove(pending - {k}, first, asset);
      assert pending - {first} - {k} == pending - {k} - {first};
    }
  }

  lemma PendingUpdate(pending: Pending, account: AccountId, changed: AssetId, amount: nat, asset: AssetId)
    ensures PendingTotal(pending[(account, changed) := amount], asset) ==
            PendingTotal(pending, asset) + (if asset == changed then amount - Owed(pending, account, changed) else 0)
  {
    var k := (account, changed);
    var updated := pending[k := amount];
    PendingRemove(updated, k, asset);
    if k in pending {
      PendingRemove(pending, k, asset);
      assert updated - {k} == pending - {k};
    } else {
      assert updated - {k} == pending;
    }
  }

  // ----- queued deposits

  /** Deposits queued in [start, end) for one asset. */
  function QueuedTotal(deposits: map<nat, QueuedDeposit>, start: nat, end: nat, asset: AssetId): nat
    decreases end
  {
    if start >= end then 0
    else QueuedTotal(deposits, start, end - 1, asset)
         + (if DepositAt(deposits, end - 1).asset == asset then DepositAt(deposits, end - 1).amount else 0)
  }

  lemma {:induction false} QueuedFrame(a: map<nat, QueuedDeposit>, b: map<nat, QueuedDeposit>, start: nat, end: nat, asset: AssetId)
    requires forall id :: start <= id < end ==> DepositAt(a, id) == DepositAt(b, id)
    ensures QueuedTotal(a, start, end, asset) == QueuedTotal(b, start, end, asset)
    decreases end
  {
    if start < end {
      QueuedFrame(a, b, start, end - 1, asset);
    }
  }

  lemma {:induction false} QueuedSplit(deposits: map<nat, QueuedDeposit>, start: nat, mid: nat, end: nat, asset: AssetId)
    requires start <= mid <= end
    ensures QueuedTotal(deposits, start, end, asset) == QueuedTotal(deposits, start, mid, asset) + QueuedTotal(deposits, mid, end, asset)
    decreases end
  {
    if mid < end {
      QueuedSplit(deposits, start, mid, end - 1, asset);
    }
  }

  lemma {:induction false} DepositedAppend(a: seq<Deposit>, b: seq<Deposit>, asset: AssetId)
    ensures DepositedTotal(a + b, asset) == DepositedTotal(a, asset) + DepositedTotal(b, asset)
  {
    if a == [] {
      assert a + b == b;
    } else {
      DepositedAppend(a[1..], b, asset);
      assert (a + b)[1..] == a[1..] + b;
    }
  }

  /** Consuming exactly the queued deposits credits exactly what was queued. */
  lemma {:induction false} QueuedIsDeposited(queue: map<nat, QueuedDeposit>, start: nat, deposits: seq<Deposit>, asset: AssetId)
    requires forall i :: 0 <= i < |deposits| ==>
               DepositAt(queue, start + i) == QueueEntry(deposits[i].id, deposits[i].account, deposits[i].asset, deposits[i].amount)
    ensures QueuedTotal(queue, start, start + |deposits|, asset) == DepositedTotal(deposits, asset)
    decreases |deposits|
  {
    if deposits != [] {
      var n := |deposits| - 1;
      QueuedIsDeposited(queue, start, deposits[..n], asset);
      DepositedAppend(deposits[..n], [deposits[n]], asset);
      assert deposits == deposits[..n] + [deposits[n]];
      assert DepositedTotal([deposits[n]], asset) == (if deposits[n].asset == asset then deposits[n].amount else 0) by {
        assert [deposits[n]][1..] == [];
      }
    }
  }

  // ----- committed balances that have not escaped

  function Unescaped(accounts: seq<Account>, escaped: set<AccountId>, asset: AssetId): nat {
    if accounts == [] then 0
    else (if accounts[0].id in escaped then 0 else EntrySum(accounts[0].balances, asset)) + Unescaped(accounts[1..], escaped, asset)
  }

  lemma {:induction false} UnescapedAll(accounts: seq<Account>, asset: AssetId)
    ensures Unescaped(accounts, {}, asset) == Total(accounts, asset)
  {
    if accounts != [] {
      UnescapedAll(accounts[1..], asset);
    }
  }

  lemma {:induction false} UnescapedFrame(accounts: seq<Account>, escaped: set<AccountId>, id: AccountId, asset: AssetId)
    requires forall i :: 0 <= i < |accounts| ==> accounts[i].id != id
    ensures Unescaped(accounts, escaped + {id}, asset) == Unescaped(accounts, escaped, asset)
  {
    if accounts != [] {
      UnescapedFrame(accounts[1..], escaped, id, asset);
    }
  }

  /** An escape takes one account's balances off what is owed. */
  lemma {:induction false} UnescapedStep(accounts: seq<Account>, escaped: set<AccountId>, account: Account, asset: AssetId)
    requires DistinctIds(accounts) && account in accounts && account.id !in escaped
    ensures Unescaped(accounts, escaped, asset) ==
            Unescaped(accounts, escaped + {account.id}, asset) + EntrySum(account.balances, asset)
  {
    if accounts[0] == account {
      UnescapedFrame(accounts[1..], escaped, account.id, asset);
    } else {
      assert account in accounts[1..];
      UnescapedStep(accounts[1..], escaped, account, asset);
      var i :| 0 <= i < |accounts| && accounts[i] == account;
      assert accounts[0].id != account.id;
    }
  }

  // ----- payouts

  function ExecutedTotal(withdrawals: seq<ExecutedWithdrawal>, asset: AssetId): nat {
    if withdrawals == [] then 0
    else (if withdrawals[0].asset == asset then withdrawals[0].amount else 0) + ExecutedTotal(withdrawals[1..], asset)
  }

  function EntriesTotal(entries: seq<QueueEntry>, asset: AssetId): nat {
    if entries == [] then 0
    else (if entries[0].asset == asset then entries[0].amount else 0) + EntriesTotal(entries[1..], asset)
  }

  lemma {:induction false} ExecutedIsWithdrawn(withdrawals: seq<Withdrawal>, asset: AssetId)
    ensures ExecutedTotal(Executed(withdrawals), asset) == WithdrawnTotal(withdrawals, asset)
  {
    if withdrawals != [] {
      ExecutedIsWithdrawn(withdrawals[1..], asset);
      assert Executed(withdrawals)[1..] == Executed(withdrawals[1..]);
    }
  }

  lemma {:induction false} EntriesAreDrained(requests: seq<ForcedWithdrawal>, asset: AssetId)
    ensures EntriesTotal(ForcedEntries(requests), asset) == DrainedTotal(requests, asset)
  {
    if requests != [] {
      EntriesAreDrained(requests[1..], asset);
      assert ForcedEntries(requests)[1..] == ForcedEntries(requests[1..]);
    }
  }

  /** What is held beyond the pending payouts. */
  ghost function Free(holdings: Holdings, pending: Pending, asset: AssetId): int {
    Held(holdings, asset) - PendingTotal(pending, asset)
  }

  /** Paid or owed, an amount leaves the free holdings exactly once. */
  lemma PayOrOweFree(holdings: Holdings, pending: Pending, recipient: AccountId, paid: AssetId, amount: nat, works: bool, asset: AssetId)
    requires PayOrOwe(holdings, pending, recipient, paid, amount, works).Ok?
    ensures var r := PayOrOwe(holdings, pending, recipient, paid, amount, works).value;
            Free(r.0, r.1, asset) == Free(holdings, pending, asset) - (if asset == paid then amount else 0)
  {
    PendingUpdate(pending, recipient, paid, Owed(pending, recipient, paid) + amount, asset);
  }

  lemma {:induction false} WithdrawalsFree(holdings: Holdings, pending: Pending, withdrawals: seq<ExecutedWithdrawal>,
                                           works: seq<bool>, asset: AssetId)
    requires PayWithdrawals(holdings, pending, withdrawals, works).Ok?
    ensures var r := PayWithdrawals(holdings, pending, withdrawals, works).value;
            Free(r.0, r.1, asset) == Free(holdings, pending, asset) - ExecutedTotal(withdrawals, asset)
    decreases |withdrawals|
  {
    if withdrawals != [] {
      var w := withdrawals[0];
      PayOrOweFree(holdings, pending, w.recipient, w.asset, w.amount, First(works), asset);
      var next := PayOrOwe(holdings, pending, w.recipient, w.asset, w.amount, First(works)).value;
      WithdrawalsFree(next.0, next.1, withdrawals[1..], Rest(works), asset);
    }
  }

  lemma {:induction false} ForcedFree(holdings: Holdings, pending: Pending, forced: seq<QueueEntry>, works: seq<bool>, asset: AssetId)
    requires PayForced(holdings, pending, forced, works).Ok?
    ensures var r := PayForced(holdings, pending, forced, works).value;
            Free(r.0, r.1, asset) == Free(holdings, pending, asset) - EntriesTotal(forced, asset)
    decreases |forced|
  {
    if forced != [] {
      var f := forced[0];
      if f.amount == 0 {
        ForcedFree(holdings, pending, forced[1..], Rest(works), asset);
      } else {
        PayOrOweFree(holdings, pending, f.account, f.asset, f.amount, First(works), asset);
        var next := PayOrOwe(holdings, pending, f.account, f.asset, f.amount, First(works)).value;
        ForcedFree(next.0, next.1, forced[1..], Rest(works), asset);
      }
    }
  }

  lemma {:induction false} BalancesPaid(holdings: Holdings, payee: AccountId, balances: seq<AssetBalance>, works: seq<bool>, asset: AssetId)
    requires PayBalances(holdings, payee, balances, works).Ok?
    ensures Held(PayBalances(holdings, payee, balances, works).value, asset) == Held(holdings, asset) - EntrySum(balances, asset)
    decreases |balances|
  {
    if balances != [] {
      if balances[0].available == 0 {
        BalancesPaid(holdings, payee, balances[1..], Rest(works), asset);
      } else {
        var sent := Transfer(holdings, balances[0].asset, payee, balances[0].available, First(works)).value;
        BalancesPaid(sent, payee, balances[1..], Rest(works), asset);
      }
    }
  }

  /** Holdings that cover the balances can pay all of them. */
  lemma {:induction false} BalancesPayable(holdings: Holdings, payee: AccountId, balances: seq<AssetBalance>, works: seq<bool>)
    requires forall a :: EntrySum(balances, a) <= Held(holdings, a)
    requires |works| >= |balances| && forall i :: 0 <= i < |works| ==> works[i]
    ensures PayBalances(holdings, payee, balances, works).Ok?
    decreases |balances|
  {
    if balances != [] {
      var b := balances[0];
      assert EntrySum(balances, b.asset) <= Held(holdings, b.asset);
      if b.available == 0 {
        forall a ensures EntrySum(balances[1..], a) <= Held(holdings, a) {
          assert EntrySum(balances, a) <= Held(holdings, a);
        }
        BalancesPayable(holdings, payee, balances[1..], works[1..]);
      } else {
        var next := Transfer(holdings, b.asset, payee, b.available, true).value;
        forall a ensures EntrySum(balances[1..], a) <= Held(next, a) {
          assert EntrySum(balances, a) <= Held(holdings, a);
        }
        BalancesPayable(next, payee, balances[1..], works[1..]);
      }
    }
  }
}
