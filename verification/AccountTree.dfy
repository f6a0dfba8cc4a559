/** The host state as it is mutated: state.rs and account_tree.rs. */
module AccountTree {
  import opened Keys
  import opened Results
  import opened Sorting
  import opened Types
  import opened Ledger
  import opened Operations
  import opened Patricia
  import opened PatriciaProofs
  import opened PatriciaTheorems
  import opened Host

  const U32_MAX: nat := 0xFFFF_FFFF

  /** The complete account state, sorted by id. */
  class State {
    var accounts: seq<Account>

    constructor (values: seq<Account>)
      ensures accounts == Sort(values, AccountBefore)
    {
      accounts := Sort(values, AccountBefore);
    }

    method ReplaceAccount(index: nat, account: Account) returns (ok: bool)
      modifies this
      ensures ok <==> index < |old(accounts)| && old(accounts)[index].id == account.id
      ensures accounts == if ok then old(accounts)[index := account] else old(accounts)
    {
      if index >= |accounts| {
        return false;
      }
      if accounts[index].id != account.id {
        return false;
      }
      accounts := accounts[index := account];
      return true;
    }

    method InsertAccount(account: Account) returns (ok: bool)
      requires SortedById(accounts)
      modifies this
      ensures ok <==> !HasId(old(accounts), account.id)
      ensures !ok ==> accounts == old(accounts)
      ensures SortedById(accounts)
      ensures ok ==> forall x :: x in accounts <==> x in old(accounts) || x == account
    {
      SearchFinds(accounts, account.id);
      match SearchId(accounts, account.id) {
        case Found(_) => ok := false;
        case Missing(index) =>
          InsertSorted(accounts, index, account);
          accounts := accounts[..index] + [account] + accounts[index..];
          ok := true;
      }
    }
  }

  lemma InsertSorted(accounts: seq<Account>, i: nat, account: Account)
    requires SortedById(accounts) && SearchId(accounts, account.id) == Missing(i)
    ensures SortedById(accounts[..i] + [account] + accounts[i..])
    ensures forall x :: x in accounts[..i] + [account] + accounts[i..] <==> x in accounts || x == account
  {
    var r := accounts[..i] + [account] + accounts[i..];
    assert accounts == accounts[..i] + accounts[i..];
    forall k, l | 0 <= k < l < |r| ensures r[k].id < r[l].id {
      assert k < i ==> r[k] == accounts[k];
      assert l > i ==> r[l] == accounts[l - 1];
      if l == i { OrderAt(accounts, k, i - 1); }
      if k == i { OrderAt(accounts, i, l - 1); }
    }
  }

  /** Which accounts a list holds once the first `n` updates are in place. */
  ghost predicate Replacing(before: seq<Account>, updated: seq<Account>, current: seq<Account>) {
    && SameIds(before, current)
    && forall x: Account :: x in current <==>
         (x in before && !HasId(updated, x.id)) || (x in updated && HasId(before, x.id))
  }

  lemma SameIdsReplaced(before: seq<Account>, current: seq<Account>, i: nat, account: Account)
    requires SortedById(before) && SameIds(before, current) && i < |before| && before[i].id == account.id
    ensures SortedById(current) && i < |current| && current[i].id == account.id && HasId(before, account.id)
    ensures SameIds(before, current[i := account])
  {
  }

  lemma ReplacingStep(before: seq<Account>, updated: seq<Account>, current: seq<Account>, i: nat, account: Account)
    requires SortedById(before) && Replacing(before, updated, current)
    requires i < |before| && before[i].id == account.id && !HasId(updated, account.id)
    ensures Replacing(before, updated + [account], current[i := account])
  {
    hide SortedById, HasId, SameIds;
    SameIdsReplaced(before, current, i, account);
    var next := current[i := account];
    HasIdAppend(updated, account);
    forall x: Account ensures x in next <==> (x in current && x.id != account.id) || x == account {
      ReplaceMembers(current, i, account, x);
    }
    forall x: Account
      ensures x in next <==> (x in before && !HasId(updated + [account], x.id)) || (x in updated + [account] && HasId(before, x.id))
    {
      MemberUpdates(updated, x);
    }
  }

  lemma ReplaceMembers(current: seq<Account>, i: nat, account: Account, x: Account)
    requires SortedById(current) && i < |current| && current[i].id == account.id
    ensures x in current[i := account] <==> (x in current && x.id != account.id) || x == account
  {
    var next := current[i := account];
    if x in current && x.id != account.id {
      var k :| 0 <= k < |current| && current[k] == x;
      assert next[k] == x;
    }
    if x == account {
      assert next[i] == x;
    }
    if x in next && x != account {
      var k :| 0 <= k < |next| && next[k] == x;
      assert current[k] == x;
    }
  }

  lemma MemberUpdates(updated: seq<Account>, x: Account)
    ensures x in updated ==> HasId(updated, x.id)
  {
    if x in updated {
      var i :| 0 <= i < |updated| && updated[i] == x;
    }
  }

  lemma HasIdAppend(updated: seq<Account>, account: Account)
    ensures forall id :: HasId(updated + [account], id) <==> HasId(updated, id) || id == account.id
  {
    var r := updated + [account];
    assert r[|updated|] == account;
    forall id ensures HasId(r, id) <==> HasId(updated, id) || id == account.id {
      if HasId(updated, id) {
        var i :| 0 <= i < |updated| && updated[i].id == id;
        assert r[i].id == id;
      }
      if HasId(r, id) && id != account.id {
        var i :| 0 <= i < |r| && r[i].id == id;
        assert updated[i].id == id;
      }
    }
  }

  /** Exactly the first `n` accounts, each id at its position. */
  ghost predicate Indexes(indices: map<AccountId, nat>, accounts: seq<Account>, n: nat)
    requires n <= |accounts|
  {
    && (forall id :: id in indices ==> indices[id] < n && accounts[indices[id]].id == id)
    && (forall i :: 0 <= i < n ==> accounts[i].id in indices && indices[accounts[i].id] == i)
  }

  lemma IndexedIds(indices: map<AccountId, nat>, accounts: seq<Account>)
    requires Indexes(indices, accounts, |accounts|)
    ensures forall id :: id in indices <==> HasId(accounts, id)
  {
    forall id ensures id in indices <==> HasId(accounts, id) {
      if id in indices { assert accounts[indices[id]].id == id; }
    }
  }

  /** The host's accounts with an index of their positions. */
  class AccountTree {
    const state: State
    var indices: map<AccountId, nat>

    ghost predicate Valid()
      reads this, state
    {
      SortedById(state.accounts) && Indexes(indices, state.accounts, |state.accounts|)
    }

    constructor FromState(sorted: State, positions: map<AccountId, nat>)
      ensures state == sorted && indices == positions
    {
      state := sorted;
      indices := positions;
    }

    /** Accepts exactly the lists without duplicate ids that a u32 can index. */
    static method New(values: seq<Account>) returns (r: Result<AccountTree>)
      ensures r.Ok? <==> DistinctIds(values) && |values| <= U32_MAX + 1
      ensures r.Ok? ==> r.value.Valid() && SameAccounts(r.value.state.accounts, values)
    {
      var state := new State(values);
      SortedByOrder(values);
      SameElements(state.accounts, values);
      var indices :- IndexNew(state.accounts);
      DistinctPermutes(state.accounts, values, IdOf);
      var tree := new AccountTree.FromState(state, indices);
      r := Ok(tree);
    }

    /** Positions by id; refuses a repeated id. */
    static method IndexNew(accounts: seq<Account>) returns (r: Result<map<AccountId, nat>>)
      requires forall i, j :: 0 <= i < j < |accounts| ==> accounts[i].id <= accounts[j].id
      ensures r.Ok? <==> SortedById(accounts) && |accounts| <= U32_MAX + 1
      ensures r.Ok? ==> Indexes(r.value, accounts, |accounts|)
    {
      var indices: map<AccountId, nat> := map[];
      for index := 0 to |accounts|
        invariant index <= U32_MAX + 1
        invariant forall i, j :: 0 <= i < j < index ==> accounts[i].id < accounts[j].id
        invariant Indexes(indices, accounts, index)
      {
        if index > U32_MAX {
          return Err(AccountIndexOverflow);
        }
        var id := accounts[index].id;
        if id in indices {
          assert accounts[indices[id]].id == id;
          return Err(DuplicateAccount);
        }
        assert forall i :: 0 <= i < index ==> accounts[i].id in indices;
        indices := indices[id := index];
      }
      r := Ok(indices);
    }

    method Root() returns (root: Digest)
      requires Valid()
      ensures ComputeRoot(state.accounts) == Ok(root)
    {
      SortedDistinct(state.accounts);
      RootBindsAccounts(state.accounts, state.accounts);
      root := ComputeRoot(state.accounts).value;
    }

    method Find(id: AccountId) returns (account: Option<Account>)
      requires Valid()
      ensures account == match SearchId(state.accounts, id)
                         case Found(i) => Some(state.accounts[i])
                         case Missing(_) => None
    {
      SearchFinds(state.accounts, id);
      IndexedIds(indices, state.accounts);
      if id !in indices {
        return None;
      }
      var i := indices[id];
      if i > 0 { OrderAt(state.accounts, i - 1, i); }
      SearchIdUnique(state.accounts, id, i);
      account := Some(state.accounts[i]);
    }

    /** The witness for a set of ids, in ascending order. */
    method Witness(ids: seq<Key>) returns (r: Result<(seq<Account>, Multiproof)>)
      requires Valid() && SortedKeys(ids)
      ensures r.Ok? <==> ids != []
      ensures r.Ok? ==> r == Host.Witness(state.accounts, ids)
      ensures r.Err? ==> r.error == InvalidStateProof
    {
      if ids != [] {
        WitnessOpens(state.accounts, ids);
      }
      var built := Host.Witness(state.accounts, ids);
      r := if built.Ok? then built else Err(InvalidStateProof);
    }

    /** Replaces or inserts every updated account. A duplicate is refused
        before anything changes. */
    method Apply(updated: seq<Account>) returns (r: Check)
      requires Valid()
      modifies this, state
      ensures r == Fail(DuplicateAccount) <==> !DistinctIds(updated)
      ensures r == Fail(DuplicateAccount) ==> Valid() && state.accounts == old(state.accounts)
      ensures DistinctIds(updated) ==> state.accounts == NextState(old(state.accounts), updated)
      ensures r.Pass? ==> Valid()
      ensures r.Fail? ==> r.error == DuplicateAccount || (r.error == AccountIndexOverflow && |state.accounts| > U32_MAX + 1)
    {
      ghost var before := state.accounts;
      var seen: set<AccountId> := {};
      var replacements: seq<(Option<nat>, Account)> := [];
      for k := 0 to |updated|
        invariant state.accounts == before && indices == old(indices)
        invariant forall id :: id in seen <==> HasId(updated[..k], id)
        invariant DistinctIds(updated[..k])
        invariant |replacements| == k
        invariant forall j :: 0 <= j < k ==>
          replacements[j] == (if updated[j].id in indices then Some(indices[updated[j].id]) else None, updated[j])
      {
        var account := updated[k];
        if account.id in seen {
          var j :| 0 <= j < k && updated[..k][j].id == account.id;
          assert updated[j].id == updated[k].id;
          return Fail(DuplicateAccount);
        }
        HasIdAppend(updated[..k], account);
        assert updated[..k + 1] == updated[..k] + [account];
        seen := seen + {account.id};
        replacements := replacements + [(if account.id in indices then Some(indices[account.id]) else None, account)];
      }
      assert updated[..|updated|] == updated;
      var insertions := ReplaceKnown(updated, replacements);
      InsertNew(updated, insertions, before);
      AppliedIsNext(before, updated, state.accounts);
      r := Reindex();
    }

    /** The replacing loop; what is left over has to be inserted. */
    method ReplaceKnown(updated: seq<Account>, replacements: seq<(Option<nat>, Account)>) returns (insertions: seq<Account>)
      requires Valid() && DistinctIds(updated) && |replacements| == |updated|
      requires forall j :: 0 <= j < |updated| ==>
        replacements[j] == (if updated[j].id in indices then Some(indices[updated[j].id]) else None, updated[j])
      modifies state
      ensures Replacing(old(state.accounts), updated, state.accounts)
      ensures DistinctIds(insertions)
      ensures forall x :: x in insertions <==> x in updated && !HasId(old(state.accounts), x.id)
    {
      ghost var before := state.accounts;
      IndexedIds(indices, before);
      insertions := [];
      for k := 0 to |replacements|
        invariant Replacing(before, updated[..k], state.accounts)
        invariant forall x :: x in insertions <==> x in updated[..k] && !HasId(before, x.id)
        invariant DistinctIds(insertions)
      {
        var (index, account) := replacements[k];
        FreshUpdate(updated, k);
        assert updated[..k + 1] == updated[..k] + [account];
        if index.Some? {
          ReplacingStep(before, updated[..k], state.accounts, index.value, account);
          var ok := state.ReplaceAccount(index.value, account);
          assert ok;
        } else {
          assert !HasId(before, account.id);
          ReplacingNew(before, updated[..k], state.accounts, account);
          AppendDistinct(insertions, updated[..k], account);
          insertions := insertions + [account];
        }
      }
      assert updated[..|updated|] == updated;
    }

    method InsertNew(updated: seq<Account>, insertions: seq<Account>, ghost before: seq<Account>)
      requires SortedById(state.accounts) && SortedById(before)
      requires Replacing(before, updated, state.accounts)
      requires DistinctIds(insertions)
      requires forall x :: x in insertions <==> x in updated && !HasId(before, x.id)
      modifies state
      ensures Applied(before, updated, state.accounts)
    {
      ghost var replaced := state.accounts;
      for k := 0 to |insertions|
        invariant SortedById(state.accounts)
        invariant forall x :: x in state.accounts <==> x in replaced || x in insertions[..k]
      {
        var account := insertions[k];
        assert account in insertions;
        NotInserted(before, replaced, insertions, k, state.accounts);
        assert insertions[..k + 1] == insertions[..k] + [account];
        var ok := state.InsertAccount(account);
        assert ok;
      }
      assert insertions[..|insertions|] == insertions;
      forall x: Account ensures x in state.accounts <==> x in updated || (x in before && !HasId(updated, x.id)) {
        MemberUpdates(updated, x);
        assert x in replaced <==> (x in before && !HasId(updated, x.id)) || (x in updated && HasId(before, x.id));
      }
    }

    method Reindex() returns (r: Check)
      requires SortedById(state.accounts)
      modifies this
      ensures r.Pass? ==> Valid()
      ensures r.Fail? ==> r.error == AccountIndexOverflow && |state.accounts| > U32_MAX + 1
    {
      indices := map[];
      var accounts := state.accounts;
      for index := 0 to |accounts|
        invariant state.accounts == accounts
        invariant Indexes(indices, accounts, index)
      {
        if index > U32_MAX {
          return Fail(AccountIndexOverflow);
        }
        OrderedFresh(accounts, indices, index);
        indices := indices[accounts[index].id := index];
      }
      r := Pass;
    }
  }

  lemma OrderedFresh(accounts: seq<Account>, indices: map<AccountId, nat>, index: nat)
    requires SortedById(accounts) && index < |accounts| && Indexes(indices, accounts, index)
    ensures accounts[index].id !in indices
  {
  }

  lemma FreshUpdate(updated: seq<Account>, k: nat)
    requires DistinctIds(updated) && k < |updated|
    ensures !HasId(updated[..k], updated[k].id)
  {
  }

  lemma ReplacingNew(before: seq<Account>, updated: seq<Account>, current: seq<Account>, account: Account)
    requires Replacing(before, updated, current) && !HasId(before, account.id)
    ensures Replacing(before, updated + [account], current)
  {
    HasIdAppend(updated, account);
    forall x: Account ensures x in before ==> HasId(before, x.id) {
      if x in before { var i :| 0 <= i < |before| && before[i] == x; }
    }
  }

  lemma AppendDistinct(list: seq<Account>, updated: seq<Account>, account: Account)
    requires DistinctIds(list) && !HasId(updated, account.id)
    requires forall x :: x in list ==> x in updated
    ensures DistinctIds(list + [account])
  {
    forall i | 0 <= i < |list| ensures list[i].id != account.id {
      assert list[i] in updated;
      MemberUpdates(updated, list[i]);
    }
  }

  lemma NotInserted(before: seq<Account>, replaced: seq<Account>, insertions: seq<Account>, k: nat, current: seq<Account>)
    requires SameIds(before, replaced) && DistinctIds(insertions) && k < |insertions|
    requires !HasId(before, insertions[k].id)
    requires forall x :: x in current <==> x in replaced || x in insertions[..k]
    ensures !HasId(current, insertions[k].id)
  {
    var id := insertions[k].id;
    forall i | 0 <= i < |current| ensures current[i].id != id {
      assert current[i] in current;
      if current[i] in replaced {
        var j :| 0 <= j < |replaced| && replaced[j] == current[i];
        assert before[j].id == current[i].id;
      } else {
        var j :| 0 <= j < k && insertions[j] == current[i];
      }
    }
  }
}
