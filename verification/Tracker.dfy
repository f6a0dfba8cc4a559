/** The asset tracker: an independent running total per asset that must come
    out empty (settlement/assets.rs). */
module Tracker {
  import opened Keys
  import opened Results
  import opened Types
  import opened Ledger
  import opened Operations

  type Totals = map<AssetId, nat>

  function Add(totals: Totals, asset: AssetId, amount: nat): Result<Totals> {
    var total := (if asset in totals then totals[asset] else 0) + amount;
    if total > U128_MAX then Err(ArithmeticOverflow) else Ok(totals[asset := total])
  }

  /** A total that reaches zero leaves the map; zero amounts are not looked up. */
  function Subtract(totals: Totals, asset: AssetId, amount: nat): Result<Totals> {
    if amount == 0 then Ok(totals)
    else if asset !in totals || totals[asset] < amount then Err(AssetConservationViolation)
    else if totals[asset] == amount then Ok(totals - {asset})
    else Ok(totals[asset := totals[asset] - amount])
  }

  function AddEntries(totals: Totals, balances: seq<AssetBalance>): Result<Totals>
    decreases |balances|
  {
    if balances == [] then Ok(totals)
    else
      var next :- Add(totals, balances[0].asset, balances[0].available);
      AddEntries(next, balances[1..])
  }

  function AddAccounts(totals: Totals, accounts: seq<Account>): Result<Totals>
    decreases |accounts|
  {
    if accounts == [] then Ok(totals)
    else
      var next :- AddEntries(totals, accounts[0].balances);
      AddAccounts(next, accounts[1..])
  }

  function AddDeposits(totals: Totals, deposits: seq<Deposit>): Result<Totals>
    decreases |deposits|
  {
    if deposits == [] then Ok(totals)
    else
      var next :- Add(totals, deposits[0].asset, deposits[0].amount);
      AddDeposits(next, deposits[1..])
  }

  function SubtractWithdrawals(totals: Totals, withdrawals: seq<Withdrawal>): Result<Totals>
    decreases |withdrawals|
  {
    if withdrawals == [] then Ok(totals)
    else
      var next :- Subtract(totals, withdrawals[0].asset, withdrawals[0].amount);
      SubtractWithdrawals(next, withdrawals[1..])
  }

  function SubtractForced(totals: Totals, requests: seq<ForcedWithdrawal>): Result<Totals>
    decreases |requests|
  {
    if requests == [] then Ok(totals)
    else
      var next :- Subtract(totals, requests[0].asset, requests[0].amount);
      SubtractForced(next, requests[1..])
  }

  function SubtractEntries(totals: Totals, balances: seq<AssetBalance>): Result<Totals>
    decreases |balances|
  {
    if balances == [] then Ok(totals)
    else
      var next :- Subtract(totals, balances[0].asset, balances[0].available);
      SubtractEntries(next, balances[1..])
  }

  function SubtractAccounts(totals: Totals, accounts: seq<Account>): Result<Totals>
    decreases |accounts|
  {
    if accounts == [] then Ok(totals)
    else
      var next :- SubtractEntries(totals, accounts[0].balances);
      SubtractAccounts(next, accounts[1..])
  }

  // ----- what the map stands for

  function Tracked(totals: Totals, asset: AssetId): nat {
    if asset in totals then totals[asset] else 0
  }

  ghost predicate NoZero(totals: Totals) {
    forall a :: a in totals ==> totals[a] > 0
  }

  lemma AddTracks(totals: Totals, asset: AssetId, amount: nat)
    requires NoZero(totals) && amount > 0
    ensures Add(totals, asset, amount).Ok? <==> Tracked(totals, asset) + amount <= U128_MAX
    ensures Add(totals, asset, amount).Ok? ==>
              var r := Add(totals, asset, amount).value;
              NoZero(r) && forall a :: Tracked(r, a) == Tracked(totals, a) + (if a == asset then amount else 0)
  {
  }

  lemma SubtractTracks(totals: Totals, asset: AssetId, amount: nat)
    requires NoZero(totals)
    ensures Subtract(totals, asset, amount).Ok? <==> amount <= Tracked(totals, asset)
    ensures Subtract(totals, asset, amount).Ok? ==>
              var r := Subtract(totals, asset, amount).value;
              NoZero(r) && forall a :: Tracked(r, a) == Tracked(totals, a) - (if a == asset then amount else 0)
  {
  }

  ghost predicate TotalsFit(totals: Totals) {
    forall a :: Tracked(totals, a) <= U128_MAX
  }

  lemma AddFits(totals: Totals, asset: AssetId, amount: nat)
    requires NoZero(totals) && TotalsFit(totals) && amount > 0
    ensures Add(totals, asset, amount).Ok? <==> Tracked(totals, asset) + amount <= U128_MAX
    ensures Add(totals, asset, amount).Ok? ==>
              var r := Add(totals, asset, amount).value;
              && NoZero(r) && TotalsFit(r)
              && forall a :: Tracked(r, a) == Tracked(totals, a) + (if a == asset then amount else 0)
  {
    AddTracks(totals, asset, amount);
  }

  lemma {:induction false} EntriesAddExactly(totals: Totals, balances: seq<AssetBalance>)
    requires NoZero(totals) && TotalsFit(totals) && CanonicalBalances(balances)
    ensures AddEntries(totals, balances).Ok? <==> forall a :: Tracked(totals, a) + EntrySum(balances, a) <= U128_MAX
    ensures AddEntries(totals, balances).Ok? ==>
              var r := AddEntries(totals, balances).value;
              NoZero(r) && TotalsFit(r) && forall a :: Tracked(r, a) == Tracked(totals, a) + EntrySum(balances, a)
    decreases |balances|
  {
    hide Add, Tracked;
    if balances == [] {
      assert AddEntries(totals, balances) == Ok(totals);
    } else {
      var b := balances[0];
      AddFits(totals, b.asset, b.available);
      if Add(totals, b.asset, b.available).Ok? {
        var next := Add(totals, b.asset, b.available).value;
        EntriesAddExactly(next, balances[1..]);
        forall a ensures Tracked(totals, a) + EntrySum(balances, a) == Tracked(next, a) + EntrySum(balances[1..], a) {
        }
      } else {
        assert Tracked(totals, b.asset) + EntrySum(balances, b.asset) > U128_MAX;
      }
    }
  }

  lemma {:induction false} AccountsAddExactly(totals: Totals, accounts: seq<Account>)
    requires NoZero(totals) && TotalsFit(totals) && CanonicalAccounts(accounts)
    ensures AddAccounts(totals, accounts).Ok? <==> forall a :: Tracked(totals, a) + Total(accounts, a) <= U128_MAX
    ensures AddAccounts(totals, accounts).Ok? ==>
              var r := AddAccounts(totals, accounts).value;
              NoZero(r) && TotalsFit(r) && forall a :: Tracked(r, a) == Tracked(totals, a) + Total(accounts, a)
    decreases |accounts|
  {
    hide AddEntries, Tracked, EntrySum;
    if accounts == [] {
      assert AddAccounts(totals, accounts) == Ok(totals);
    } else {
      var first := accounts[0].balances;
      EntriesAddExactly(totals, first);
      if AddEntries(totals, first).Ok? {
        var next := AddEntries(totals, first).value;
        AccountsAddExactly(next, accounts[1..]);
        forall a ensures Tracked(totals, a) + Total(accounts, a) == Tracked(next, a) + Total(accounts[1..], a) {
        }
      } else {
        var a :| Tracked(totals, a) + EntrySum(first, a) > U128_MAX;
        assert Tracked(totals, a) + Total(accounts, a) > U128_MAX;
      }
    }
  }

  lemma {:induction false} DepositsAddExactly(totals: Totals, deposits: seq<Deposit>)
    requires NoZero(totals) && TotalsFit(totals)
    requires forall i :: 0 <= i < |deposits| ==> deposits[i].amount > 0
    ensures AddDeposits(totals, deposits).Ok? <==> forall a :: Tracked(totals, a) + DepositedTotal(deposits, a) <= U128_MAX
    ensures AddDeposits(totals, deposits).Ok? ==>
              var r := AddDeposits(totals, deposits).value;
              NoZero(r) && TotalsFit(r) && forall a :: Tracked(r, a) == Tracked(totals, a) + DepositedTotal(deposits, a)
    decreases |deposits|
  {
    hide Add, Tracked;
    if deposits == [] {
      assert AddDeposits(totals, deposits) == Ok(totals);
    } else {
      var d := deposits[0];
      AddFits(totals, d.asset, d.amount);
      if Add(totals, d.asset, d.amount).Ok? {
        var next := Add(totals, d.asset, d.amount).value;
        DepositsAddExactly(next, deposits[1..]);
        forall a ensures Tracked(totals, a) + DepositedTotal(deposits, a) == Tracked(next, a) + DepositedTotal(deposits[1..], a) {
        }
      } else {
        assert Tracked(totals, d.asset) + DepositedTotal(deposits, d.asset) > U128_MAX;
      }
    }
  }

  lemma {:induction false} WithdrawalsTracked(totals: Totals, withdrawals: seq<Withdrawal>)
    requires NoZero(totals)
    ensures SubtractWithdrawals(totals, withdrawals).Ok? <==> forall a :: WithdrawnTotal(withdrawals, a) <= Tracked(totals, a)
    ensures SubtractWithdrawals(totals, withdrawals).Ok? ==>
              var r := SubtractWithdrawals(totals, withdrawals).value;
              NoZero(r) && forall a :: Tracked(r, a) == Tracked(totals, a) - WithdrawnTotal(withdrawals, a)
    decreases |withdrawals|
  {
    if withdrawals != [] {
      var w := withdrawals[0];
      SubtractTracks(totals, w.asset, w.amount);
      if w.amount <= Tracked(totals, w.asset) {
        var next := Subtract(totals, w.asset, w.amount).value;
        WithdrawalsTracked(next, withdrawals[1..]);
        forall a ensures WithdrawnTotal(withdrawals, a) <= Tracked(totals, a) <==> WithdrawnTotal(withdrawals[1..], a) <= Tracked(next, a) {
        }
      } else {
        assert WithdrawnTotal(withdrawals, w.asset) > Tracked(totals, w.asset);
      }
    }
  }

  lemma {:induction false} ForcedTracked(totals: Totals, requests: seq<ForcedWithdrawal>)
    requires NoZero(totals)
    ensures SubtractForced(totals, requests).Ok? <==> forall a :: DrainedTotal(requests, a) <= Tracked(totals, a)
    ensures SubtractForced(totals, requests).Ok? ==>
              var r := SubtractForced(totals, requests).value;
              NoZero(r) && forall a :: Tracked(r, a) == Tracked(totals, a) - DrainedTotal(requests, a)
    decreases |requests|
  {
    if requests != [] {
      var f := requests[0];
      SubtractTracks(totals, f.asset, f.amount);
      if f.amount <= Tracked(totals, f.asset) {
        var next := Subtract(totals, f.asset, f.amount).value;
        ForcedTracked(next, requests[1..]);
        forall a ensures DrainedTotal(requests, a) <= Tracked(totals, a) <==> DrainedTotal(requests[1..], a) <= Tracked(next, a) {
        }
      } else {
        assert DrainedTotal(requests, f.asset) > Tracked(totals, f.asset);
      }
    }
  }

  lemma {:induction false} EntriesCovered(totals: Totals, balances: seq<AssetBalance>)
    requires NoZero(totals)
    requires forall a :: EntrySum(balances, a) <= Tracked(totals, a)
    ensures SubtractEntries(totals, balances).Ok?
    ensures var r := SubtractEntries(totals, balances).value;
            NoZero(r) && forall a :: Tracked(r, a) == Tracked(totals, a) - EntrySum(balances, a)
    decreases |balances|
  {
    if balances != [] {
      var b := balances[0];
      assert EntrySum(balances, b.asset) <= Tracked(totals, b.asset);
      SubtractTracks(totals, b.asset, b.available);
      var next := Subtract(totals, b.asset, b.available).value;
      forall a ensures EntrySum(balances[1..], a) <= Tracked(next, a) {
        assert EntrySum(balances, a) <= Tracked(totals, a);
      }
      EntriesCovered(next, balances[1..]);
    }
  }

  /** Accounts that hold no more than what is tracked can all be taken off. */
  lemma {:induction false} AccountsCovered(totals: Totals, accounts: seq<Account>)
    requires NoZero(totals)
    requires forall a :: Total(accounts, a) <= Tracked(totals, a)
    ensures SubtractAccounts(totals, accounts).Ok?
    ensures var r := SubtractAccounts(totals, accounts).value;
            NoZero(r) && forall a :: Tracked(r, a) == Tracked(totals, a) - Total(accounts, a)
    decreases |accounts|
  {
    if accounts != [] {
      forall a ensures EntrySum(accounts[0].balances, a) <= Tracked(totals, a) {
        assert Total(accounts, a) <= Tracked(totals, a);
      }
      EntriesCovered(totals, accounts[0].balances);
      var next := SubtractEntries(totals, accounts[0].balances).value;
      forall a ensures Total(accounts[1..], a) <= Tracked(next, a) {
        assert Total(accounts, a) <= Tracked(totals, a);
      }
      AccountsCovered(next, accounts[1..]);
    }
  }

  /** A tracker that agrees with the accounts empties out. */
  lemma BalancedTrackerEmpties(totals: Totals, accounts: seq<Account>)
    requires NoZero(totals)
    requires forall a :: Tracked(totals, a) == Total(accounts, a)
    ensures SubtractAccounts(totals, accounts) == Ok(map[])
  {
    AccountsCovered(totals, accounts);
    var r := SubtractAccounts(totals, accounts).value;
    forall a ensures a !in r {
      assert Tracked(r, a) == Tracked(totals, a) - Total(accounts, a);
    }
  }
}
