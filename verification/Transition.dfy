/** From the accounts a batch touches to the whole committed state. */
module Transition {
  import opened Keys
  import opened Results
  import opened Sorting
  import opened Types
  import opened Ledger
  import opened Operations
  import opened Patricia
  import opened PatriciaTheorems
  import opened Settlement
  import opened SettlementTheorems

  /** The accounts whose keys a proof does not select, and those it does. */
  function Outside(accounts: seq<Account>, keys: seq<Key>): seq<Account> {
    if accounts == [] then []
    else (if accounts[0].id in keys then [] else [accounts[0]]) + Outside(accounts[1..], keys)
  }

  function Inside(accounts: seq<Account>, keys: seq<Key>): seq<Account> {
    if accounts == [] then []
    else (if accounts[0].id in keys then [accounts[0]] else []) + Inside(accounts[1..], keys)
  }

  /** The committed accounts with those at the selected keys replaced. */
  function Replaced(accounts: seq<Account>, keys: seq<Key>, updated: seq<Account>): seq<Account> {
    updated + Outside(accounts, keys)
  }

  lemma {:induction false} OutsideMembers(accounts: seq<Account>, keys: seq<Key>)
    ensures forall x :: x in Outside(accounts, keys) <==> x in accounts && x.id !in keys
    ensures forall x :: x in Inside(accounts, keys) <==> x in accounts && x.id in keys
  {
    if accounts != [] {
      OutsideMembers(accounts[1..], keys);
    }
  }

  lemma {:induction false} OutsideDistinct(accounts: seq<Account>, keys: seq<Key>)
    requires DistinctIds(accounts)
    ensures DistinctIds(Outside(accounts, keys)) && DistinctIds(Inside(accounts, keys))
  {
    if accounts != [] {
      OutsideDistinct(accounts[1..], keys);
      OutsideMembers(accounts[1..], keys);
      forall x | x in accounts[1..] ensures x.id != accounts[0].id {
        var i :| 0 <= i < |accounts[1..]| && accounts[1..][i] == x;
        assert accounts[i + 1] == x;
      }
      ConsDistinct(accounts[0], Outside(accounts[1..], keys));
      ConsDistinct(accounts[0], Inside(accounts[1..], keys));
    }
  }

  lemma ConsDistinct(first: Account, rest: seq<Account>)
    requires DistinctIds(rest) && forall x :: x in rest ==> x.id != first.id
    ensures DistinctIds([first] + rest)
  {
  }

  lemma {:induction false} TotalOutside(accounts: seq<Account>, keys: seq<Key>, asset: AssetId)
    ensures Total(accounts, asset) == Total(Inside(accounts, keys), asset) + Total(Outside(accounts, keys), asset)
  {
    if accounts != [] {
      var first, rest := [accounts[0]], accounts[1..];
      TotalOutside(rest, keys, asset);
      TotalAppend(if accounts[0].id in keys then first else [], Inside(rest, keys), asset);
      TotalAppend(if accounts[0].id in keys then [] else first, Outside(rest, keys), asset);
    }
  }

  lemma HasFirst(accounts: seq<Account>)
    requires accounts != []
    ensures exists x :: x in accounts
  {
    assert accounts[0] in accounts;
  }

  /** The total of an account set does not depend on its order. */
  lemma {:induction false} TotalOfSet(a: seq<Account>, b: seq<Account>, asset: AssetId)
    requires DistinctIds(a) && DistinctIds(b) && SameAccounts(a, b)
    ensures Total(a, asset) == Total(b, asset)
  {
    if a == [] {
      if |b| > 0 {
        HasFirst(b);
        assert false;
      }
    } else {
      assert a[0] in b;
      var i :| 0 <= i < |b| && b[i] == a[0];
      var rest := b[..i] + b[i + 1..];
      forall x ensures x in a[1..] <==> x in rest {
        if x in a[1..] {
          var k :| 0 <= k < |a[1..]| && a[1..][k] == x;
          assert a[k + 1] == x && x.id != a[0].id;
          assert x in b;
        }
        if x in rest {
          var k :| 0 <= k < |rest| && rest[k] == x;
          assert b[if k < i then k else k + 1] == x;
          assert x.id != b[i].id && x in a;
        }
      }
      TotalOfSet(a[1..], rest, asset);
      TotalSplit(b, i, asset);
      TotalAppend(b[..i], b[i + 1..], asset);
    }
  }

  /** Looking an account up by a member of the set. */
  lemma LookupMember(accounts: seq<Account>, account: Account)
    requires DistinctIds(accounts) && account in accounts
    ensures NextNonce(accounts, account.id) == account.nextNonce
    ensures forall a :: Holding(accounts, account.id, a) == EntrySum(account.balances, a)
    ensures HasId(accounts, account.id)
  {
    var i :| 0 <= i < |accounts| && accounts[i] == account;
    LookupAt(accounts, i);
  }

  /** Two sets that agree at an id agree on its nonce and balances. */
  lemma LookupSame(a: seq<Account>, b: seq<Account>, id: AccountId)
    requires DistinctIds(a) && DistinctIds(b)
    requires forall x: Account :: x.id == id ==> (x in a <==> x in b)
    ensures NextNonce(a, id) == NextNonce(b, id)
    ensures forall asset :: Holding(a, id, asset) == Holding(b, id, asset)
    ensures HasId(a, id) <==> HasId(b, id)
  {
    if HasId(a, id) {
      var i :| 0 <= i < |a| && a[i].id == id;
      LookupMember(a, a[i]);
      LookupMember(b, a[i]);
    } else {
      forall k | 0 <= k < |b| ensures b[k].id != id {
        assert b[k] in b;
        assert b[k] in a ==> HasId(a, b[k].id);
      }
      LookupAbsent(a, id);
      LookupAbsent(b, id);
    }
  }

  /** The replaced set, member by member. */
  lemma ReplacedMembers(accounts: seq<Account>, keys: seq<Key>, updated: seq<Account>)
    requires DistinctIds(accounts) && DistinctIds(updated)
    requires forall x :: x in updated ==> x.id in keys
    ensures forall x :: x in Replaced(accounts, keys, updated) <==> x in updated || (x in accounts && x.id !in keys)
    ensures DistinctIds(Replaced(accounts, keys, updated))
  {
    OutsideMembers(accounts, keys);
    OutsideDistinct(accounts, keys);
    var r := Replaced(accounts, keys, updated);
    forall i, j | 0 <= i < j < |r| ensures r[i].id != r[j].id {
      if i < |updated| <= j {
        assert r[i] in updated && r[j] in Outside(accounts, keys);
      }
    }
  }

  /** THEOREM (transition). Whatever proof a settled batch came with: when its
      old root commits to a set of accounts, its new root commits to that set
      with the accounts at the proof's keys replaced by the batch's result.
      Over the whole state each asset changes by deposits, withdrawals and
      drains alone, and exactly the nonces passed over are consumed. */
  lemma SettlementTransition(committed: seq<Account>, input: BatchInput, out: BatchOutput)
    requires DistinctIds(committed) && ComputeRoot(committed) == Ok(out.public.oldRoot)
    requires Typed(input) && Outcome(input) == Ok(out)
    ensures var next := Replaced(committed, input.proof.leafKeys, out.accounts);
            && DistinctIds(next) && ComputeRoot(next) == Ok(out.public.newRoot)
            && (forall a :: Total(next, a) + WithdrawnTotal(input.withdrawals, a) + DrainedTotal(out.forced, a)
                              == Total(committed, a) + DepositedTotal(input.deposits, a))
            && ConsumesRuns(committed, next, Pairs(input.orders, input.withdrawals))
            && (forall id :: NextNonce(committed, id) <= NextNonce(next, id))
            && (forall x :: x in committed && x.id !in input.proof.leafKeys ==> x in next)
  {
    hide Outcome, RootFromProof, ComputeRoot, Typed, Pairs, ConsumesRuns, DrainedAt, Deposited, Drained, Withdrawn,
      ValidAccounts, Executed, ForcedEntries, DepositEntries;
    var keys := input.proof.leafKeys;
    var next := Replaced(committed, keys, out.accounts);
    SettlementRoots(input, out);
    SettlementConserves(input, out);
    TransitionMembers(committed, input.accounts, input.proof, out.accounts);
    forall a ensures Total(next, a) + WithdrawnTotal(input.withdrawals, a) + DrainedTotal(out.forced, a)
                       == Total(committed, a) + DepositedTotal(input.deposits, a)
    {
      ReplacedTotal(committed, keys, input.accounts, out.accounts, a);
    }
    TransitionRuns(committed, input, out, next);
  }

  lemma TransitionMembers(committed: seq<Account>, values: seq<Account>, proof: Multiproof, updated: seq<Account>)
    requires DistinctIds(committed)
    requires RootFromProof(values, proof).Ok? && RootFromProof(values, proof) == ComputeRoot(committed)
    requires RootFromProof(updated, proof).Ok?
    ensures DistinctIds(values) && DistinctIds(updated)
    ensures forall x :: x in values <==> x in committed && x.id in proof.leafKeys
    ensures forall x :: x in updated ==> x.id in proof.leafKeys
    ensures var next := Replaced(committed, proof.leafKeys, updated);
            && DistinctIds(next) && ComputeRoot(next) == RootFromProof(updated, proof)
            && forall x :: x in next <==> x in updated || (x in committed && x.id !in proof.leafKeys)
  {
    RootFromProofUnfold(values, proof);
    RootFromProofUnfold(updated, proof);
    hide RootFromProof, ComputeRoot;
    ProofIsAuthentic(committed, values, proof);
    ReplacedMembers(committed, proof.leafKeys, updated);
    ProofCarriesUpdates(committed, values, proof, updated, Replaced(committed, proof.leafKeys, updated));
  }

  lemma ReplacedTotal(committed: seq<Account>, keys: seq<Key>, values: seq<Account>, updated: seq<Account>, asset: AssetId)
    requires DistinctIds(committed) && DistinctIds(values)
    requires forall x :: x in values <==> x in committed && x.id in keys
    ensures Total(Replaced(committed, keys, updated), asset) - Total(updated, asset) == Total(committed, asset) - Total(values, asset)
  {
    OutsideMembers(committed, keys);
    OutsideDistinct(committed, keys);
    TotalOfSet(values, Inside(committed, keys), asset);
    TotalOutside(committed, keys, asset);
    TotalAppend(updated, Outside(committed, keys), asset);
  }

  /** Nonces of the whole state move exactly with those of the batch. */
  lemma TransitionRuns(committed: seq<Account>, input: BatchInput, out: BatchOutput, next: seq<Account>)
    requires DistinctIds(committed) && DistinctIds(next) && DistinctIds(input.accounts) && DistinctIds(out.accounts)
    requires forall x :: x in input.accounts <==> x in committed && x.id in input.proof.leafKeys
    requires forall x :: x in out.accounts ==> x.id in input.proof.leafKeys
    requires forall x :: x in next <==> x in out.accounts || (x in committed && x.id !in input.proof.leafKeys)
    requires ConsumesRuns(input.accounts, out.accounts, Pairs(input.orders, input.withdrawals))
    requires forall id :: NextNonce(input.accounts, id) <= NextNonce(out.accounts, id)
    ensures ConsumesRuns(committed, next, Pairs(input.orders, input.withdrawals))
    ensures forall id :: NextNonce(committed, id) <= NextNonce(next, id)
  {
    hide Pairs;
    forall id: AccountId
      ensures if id in input.proof.leafKeys
              then NextNonce(committed, id) == NextNonce(input.accounts, id) && NextNonce(next, id) == NextNonce(out.accounts, id)
              else NextNonce(committed, id) == NextNonce(next, id) && NextNonce(input.accounts, id) == NextNonce(out.accounts, id)
    {
      if id in input.proof.leafKeys {
        LookupSame(committed, input.accounts, id);
        LookupSame(next, out.accounts, id);
      } else {
        LookupSame(committed, next, id);
        LookupSame(input.accounts, out.accounts, id);
      }
    }
    var pairs := Pairs(input.orders, input.withdrawals);
    forall id: AccountId, v: nat ensures multiset(pairs)[(id, v)] == if NextNonce(committed, id) <= v < NextNonce(next, id) then 1 else 0 {
      assert multiset(pairs)[(id, v)] == if NextNonce(input.accounts, id) <= v < NextNonce(out.accounts, id) then 1 else 0;
    }
  }
}
