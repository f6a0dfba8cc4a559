/** The host's copy of the state (state.rs, account_tree.rs) and why applying
    the guest's result keeps it in step with the proven root. */
module Host {
  import opened Keys
  import opened Results
  import opened Sorting
  import opened Types
  import opened Ledger
  import opened Operations
  import opened Nonces
  import opened Patricia
  import opened PatriciaProofs
  import opened PatriciaTheorems
  import opened Settlement
  import opened SettlementTheorems
  import opened Transition

  /** The accounts found for a list of ids, in that order. */
  function Select(accounts: seq<Account>, ids: seq<Key>): seq<Account> {
    if ids == [] then []
    else
      match SearchId(accounts, ids[0])
      case Found(i) => [accounts[i]] + Select(accounts, ids[1..])
      case Missing(_) => Select(accounts, ids[1..])
  }

  /** The touched accounts with their proof against the complete state. */
  function Witness(accounts: seq<Account>, ids: seq<Key>): Result<(seq<Account>, Multiproof)> {
    var proof :- BuildMultiproof(accounts, ids);
    Ok((Select(accounts, ids), proof))
  }

  lemma {:induction false} SelectMembers(accounts: seq<Account>, ids: seq<Key>)
    requires SortedById(accounts)
    ensures forall x :: x in Select(accounts, ids) <==> x in accounts && x.id in ids
  {
    if ids != [] {
      SelectMembers(accounts, ids[1..]);
      SearchFinds(accounts, ids[0]);
      forall x | x in accounts && x.id == ids[0] ensures SearchId(accounts, ids[0]).Found? && accounts[SearchId(accounts, ids[0]).index] == x {
        var i :| 0 <= i < |accounts| && accounts[i] == x;
        if i > 0 { OrderAt(accounts, i - 1, i); }
        SearchIdUnique(accounts, ids[0], i);
      }
    }
  }

  lemma {:induction false} SelectSorted(accounts: seq<Account>, ids: seq<Key>)
    requires SortedById(accounts) && SortedKeys(ids)
    ensures SortedById(Select(accounts, ids))
  {
    if ids != [] {
      SelectSorted(accounts, ids[1..]);
      SelectMembers(accounts, ids[1..]);
      var rest := Select(accounts, ids[1..]);
      forall k | 0 <= k < |rest| ensures ids[0] < rest[k].id {
        assert rest[k] in rest && rest[k].id in ids[1..];
        var j :| 0 <= j < |ids[1..]| && ids[1..][j] == rest[k].id;
      }
    }
  }

  // ----- applying a result

  /** The sorted accounts with the updated ones replaced or inserted. */
  ghost predicate Applied(before: seq<Account>, updated: seq<Account>, after: seq<Account>) {
    && SortedById(after)
    && forall x: Account :: x in after <==> x in updated || (x in before && !HasId(updated, x.id))
  }

  lemma SortedDistinct(accounts: seq<Account>)
    requires SortedById(accounts)
    ensures DistinctIds(accounts)
  {
  }

  /** Sorting orders by id, and strictly when ids are distinct. */
  lemma SortedByOrder(values: seq<Account>)
    ensures var sorted := Sort(values, AccountBefore);
            && (forall i, j :: 0 <= i < j < |sorted| ==> sorted[i].id <= sorted[j].id)
            && (DistinctIds(values) <==> SortedById(sorted))
  {
    var sorted := Sort(values, AccountBefore);
    SortAscending(values, AccountBefore);
    forall i, j | 0 <= i < j < |sorted| ensures sorted[i].id <= sorted[j].id {
      assert !AccountBefore(sorted[j], sorted[i]);
    }
    if DistinctIds(values) {
      DistinctPermutes(values, sorted, IdOf);
      forall i, j | 0 <= i < j < |sorted| ensures sorted[i].id < sorted[j].id {
        assert IdOf(sorted[i]) != IdOf(sorted[j]);
      }
    }
    if SortedById(sorted) {
      DistinctPermutes(sorted, values, IdOf);
      forall i, j | 0 <= i < j < |values| ensures values[i].id != values[j].id {
        assert IdOf(values[i]) != IdOf(values[j]);
      }
    }
  }

  function IdsOf(accounts: seq<Account>): (r: seq<Key>)
    ensures |r| == |accounts| && forall i :: 0 <= i < |r| ==> r[i] == accounts[i].id
  {
    seq(|accounts|, i requires 0 <= i < |accounts| => accounts[i].id)
  }

  /** The state after a batch: the updated accounts and those it left alone. */
  function NextState(before: seq<Account>, updated: seq<Account>): seq<Account> {
    Sort(Replaced(before, IdsOf(updated), updated), AccountBefore)
  }

  lemma IdsOfHasId(accounts: seq<Account>, id: AccountId)
    ensures id in IdsOf(accounts) <==> HasId(accounts, id)
  {
    if HasId(accounts, id) {
      var i :| 0 <= i < |accounts| && accounts[i].id == id;
      assert IdsOf(accounts)[i] == id;
    }
    if id in IdsOf(accounts) {
      var i :| 0 <= i < |accounts| && IdsOf(accounts)[i] == id;
    }
  }

  /** The next state is what applying the updates may leave, and all it may. */
  lemma AppliedIsNext(before: seq<Account>, updated: seq<Account>, after: seq<Account>)
    requires SortedById(before) && DistinctIds(updated)
    ensures Applied(before, updated, NextState(before, updated))
    ensures Applied(before, updated, after) ==> after == NextState(before, updated)
  {
    var keys := IdsOf(updated);
    var replaced := Replaced(before, keys, updated);
    hide HasId, IdsOf, Replaced;
    SortedDistinct(before);
    forall x | x in updated ensures x.id in keys {
      MemberHasId(updated, x);
      IdsOfHasId(updated, x.id);
    }
    ReplacedMembers(before, keys, updated);
    SortedByOrder(replaced);
    SortAscending(replaced, AccountBefore);
    SameElements(NextState(before, updated), replaced);
    forall x: Account ensures x in NextState(before, updated) <==> x in updated || (x in before && !HasId(updated, x.id)) {
      IdsOfHasId(updated, x.id);
    }
    if Applied(before, updated, after) {
      SortedUnique(after, NextState(before, updated));
    }
  }

  /** Applying keeps the form of the accounts. */
  lemma NextKeepsForm(before: seq<Account>, updated: seq<Account>)
    requires ValidAccounts(before) && ValidAccounts(updated)
    ensures ValidAccounts(NextState(before, updated))
    ensures NoncesFit(before) && NoncesFit(updated) ==> NoncesFit(NextState(before, updated))
  {
    var after := NextState(before, updated);
    hide NextState, HasId;
    SortedDistinct(updated);
    AppliedIsNext(before, updated, after);
    forall i | 0 <= i < |after|
      ensures CanonicalBalances(after[i].balances)
      ensures NoncesFit(before) && NoncesFit(updated) ==> after[i].nextNonce <= U64_MAX
    {
      assert after[i] in after;
      if after[i] in updated {
        var k :| 0 <= k < |updated| && updated[k] == after[i];
      } else {
        var k :| 0 <= k < |before| && before[k] == after[i];
      }
    }
  }

  /** THEOREM (host follows guest). For every settled batch against the host's
      root, applying its accounts leaves the host on the proven new root, with
      every account outside the proof's keys as it was, and fit for the next
      batch. */
  lemma HostFollowsGuest(before: seq<Account>, input: BatchInput, out: BatchOutput)
    requires ValidAccounts(before) && ComputeRoot(before) == Ok(input.expectedRoot)
    requires Typed(input) && Outcome(input) == Ok(out)
    ensures var after := NextState(before, out.accounts);
            && ComputeRoot(after) == Ok(out.public.newRoot)
            && (forall x: Account :: x.id !in input.proof.leafKeys ==> (x in before <==> x in after))
            && ValidAccounts(after) && (NoncesFit(before) ==> NoncesFit(after))
  {
    hide Outcome, RootFromProof, ComputeRoot, Typed, NextState, DrainedAt, ConsumesRuns, Pairs;
    SettlementRoots(input, out);
    SettlementConserves(input, out);
    var after := NextState(before, out.accounts);
    SortedDistinct(before);
    SortedDistinct(out.accounts);
    AppliedIsNext(before, out.accounts, after);
    NextKeepsForm(before, out.accounts);
    TransitionMembers(before, input.accounts, input.proof, out.accounts);
    AppliedIsReplaced(before, input.accounts, input.proof.leafKeys, out.accounts, after);
    SortedDistinct(after);
    RootBindsAccounts(after, Replaced(before, input.proof.leafKeys, out.accounts));
  }

  /** Every selected account comes back, so updating by id and replacing by
      selected key give the same set. */
  lemma AppliedIsReplaced(before: seq<Account>, values: seq<Account>, keys: seq<Key>, updated: seq<Account>, after: seq<Account>)
    requires Applied(before, updated, after)
    requires forall x :: x in values <==> x in before && x.id in keys
    requires forall x :: x in updated ==> x.id in keys
    requires forall id :: HasId(values, id) ==> HasId(updated, id)
    requires forall x :: x in Replaced(before, keys, updated) <==> x in updated || (x in before && x.id !in keys)
    ensures SameAccounts(after, Replaced(before, keys, updated))
    ensures forall x: Account :: x.id !in keys ==> (x in before <==> x in after)
  {
    hide Replaced, SortedById;
    forall x: Account ensures x in before && x.id in keys ==> HasId(updated, x.id)
                      ensures HasId(updated, x.id) ==> x.id in keys
    {
      if x in before && x.id in keys {
        MemberHasId(values, x);
        assert HasId(updated, x.id);
      }
      if HasId(updated, x.id) {
        var i :| 0 <= i < |updated| && updated[i].id == x.id;
        assert updated[i] in updated;
      }
    }
  }

  lemma MemberHasId(accounts: seq<Account>, account: Account)
    requires account in accounts
    ensures HasId(accounts, account.id)
  {
    var i :| 0 <= i < |accounts| && accounts[i] == account;
  }

  /** The witness of a sorted state is accepted against that state's root. */
  lemma WitnessOpens(accounts: seq<Account>, ids: seq<Key>)
    requires SortedById(accounts) && SortedKeys(ids) && ids != []
    ensures Witness(accounts, ids).Ok?
    ensures var (selected, proof) := Witness(accounts, ids).value;
            && proof.leafKeys == ids
            && SortedById(selected) && (forall x :: x in selected <==> x in accounts && x.id in ids)
            && ComputeRoot(accounts).Ok? && RootFromProof(selected, proof) == ComputeRoot(accounts)
  {
    SelectMembers(accounts, ids);
    SelectSorted(accounts, ids);
    SortedDistinct(accounts);
    SortedDistinct(Select(accounts, ids));
    MultiproofRoundTrip(accounts, accounts, ids, Select(accounts, ids));
    hide ComputeRoot, RootFromProof;
    SortKeysKeeps(ids);
  }

  lemma SortKeysKeeps(ids: seq<Key>)
    requires SortedKeys(ids)
    ensures Sort(ids, KeyBefore) == ids
  {
    SortUnique(ids, ids, KeyBefore);
  }

  /** THEOREM (host proofs suffice). A batch built over a witness of the state
      settles as soon as its stages succeed and its deposits go to witnessed
      ids: the final root always reconstructs. */
  lemma WitnessedBatchSettles(before: seq<Account>, ids: seq<Key>, input: BatchInput)
    requires SortedById(before) && SortedKeys(ids) && ids != []
    requires Witness(before, ids) == Ok((input.accounts, input.proof))
    requires Typed(input) && Stages(input).Ok?
    requires forall i :: 0 <= i < |input.deposits| ==> input.deposits[i].account in ids
    ensures Outcome(input).Ok?
  {
    WitnessOpens(before, ids);
    StagesConserve(input);
    var settled := Stages(input).value.accounts;
    SettlesExactly(input);
    hide Stages, Outcome, RootFromProof, ComputeRoot, Typed, Witness;
    forall x | x in settled ensures x.id in ids {
      MemberHasId(settled, x);
      if HasId(input.accounts, x.id) {
        var i :| 0 <= i < |input.accounts| && input.accounts[i].id == x.id;
        assert input.accounts[i] in input.accounts;
      }
    }
    SettledReconstructs(before, ids, input, settled);
  }

  lemma SettledReconstructs(before: seq<Account>, ids: seq<Key>, input: BatchInput, settled: seq<Account>)
    requires SortedById(before) && SortedKeys(ids) && ids != [] && SortedById(settled)
    requires Witness(before, ids) == Ok((input.accounts, input.proof))
    requires forall x :: x in settled ==> x.id in ids
    ensures RootFromProof(settled, input.proof).Ok?
  {
    SortedDistinct(before);
    SortedDistinct(settled);
    hide RootFromProof, ComputeRoot;
    var after := Replaced(before, ids, settled);
    ReplacedMembers(before, ids, settled);
    MultiproofRoundTrip(before, after, ids, settled);
  }
}
