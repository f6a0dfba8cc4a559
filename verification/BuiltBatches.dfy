/** What the guest makes of a batch the host builds: hints, acceptance,
    drained amounts and the exact condition to settle. */
module BuiltBatches {
  import opened Keys
  import opened Results
  import opened Sorting
  import opened Types
  import opened Ledger
  import opened Operations
  import opened Validation
  import opened Nonces
  import opened Books
  import opened Trades
  import opened Patricia
  import opened Settlement
  import opened SettlementTheorems
  import opened Readiness
  import opened SettledMatching
  import opened Coverage
  import opened Transition
  import opened Host
  import opened Builder
  import opened BuilderTheorems

  // ----- what a reachable batch keeps, part by part

  lemma ReachableTouched(b: Batch)
    requires Reachable(b)
    ensures TouchedKept(b)
  {
    hide TouchedKept;
    ReachableKeeps(b);
  }

  lemma ReachableQueues(b: Batch)
    requires Reachable(b)
    ensures QueuesKept(b)
  {
    hide QueuesKept;
    ReachableKeeps(b);
  }

  lemma ReachableOperations(b: Batch)
    requires Reachable(b)
    ensures OperationsKept(b) && AllShelved(b)
  {
    hide OperationsKept, AllShelved;
    ReachableKeeps(b);
  }

  lemma ReachableNonces(b: Batch)
    requires Reachable(b)
    ensures NoncesKept(b)
  {
    hide NoncesKept;
    ReachableKeeps(b);
  }

  lemma ReachableBounds(b: Batch)
    requires Reachable(b)
    ensures CoverageKept(b) && LimitsKept(b)
  {
    hide CoverageKept, LimitsKept;
    ReachableKeeps(b);
  }

  // ----- ranks

  /** The account exists in the complete state or is deposited to. */
  ghost predicate Present(b: Batch, id: AccountId) {
    HasId(b.state, id) || DepositsTo(b.deposits, id)
  }

  /** No smaller key is unaccounted for. */
  ghost predicate AllBelow(keys: seq<Key>, accounts: seq<Account>, id: Key) {
    forall k :: k in keys && k < id ==> HasId(accounts, k)
  }

  lemma BelowNone(keys: seq<Key>, accounts: seq<Account>, id: Key)
    requires SortedKeys(keys) && (keys == [] || id <= keys[0])
    ensures AllBelow(keys, accounts, id)
    ensures (forall i :: 0 <= i < |accounts| ==> accounts[i].id in keys) ==> accounts == [] || id <= accounts[0].id
  {
    forall k | k in keys ensures k >= id {
      var i :| 0 <= i < |keys| && keys[i] == k;
    }
    if (forall i :: 0 <= i < |accounts| ==> accounts[i].id in keys) && accounts != [] {
      assert accounts[0].id in keys;
    }
  }

  lemma BelowTaken(keys: seq<Key>, accounts: seq<Account>, id: Key)
    requires SortedKeys(keys) && keys != [] && accounts != [] && accounts[0].id == keys[0] < id
    ensures AllBelow(keys, accounts, id) <==> AllBelow(keys[1..], accounts[1..], id)
  {
    hide HasId;
    assert keys == [keys[0]] + keys[1..];
    assert keys[0] !in keys[1..];
    forall k ensures HasId(accounts, k) <==> k == accounts[0].id || HasId(accounts[1..], k) {
      TailHasId(accounts, k);
    }
    if AllBelow(keys, accounts, id) {
      forall k | k in keys[1..] && k < id ensures HasId(accounts[1..], k) {
        assert k in keys;
      }
    }
  }

  /** An account's rank among sorted keys reaches its position among the
      accounts at those keys exactly when no smaller key is unaccounted for. */
  lemma {:induction false} RankIsPosition(keys: seq<Key>, accounts: seq<Account>, id: Key)
    requires SortedKeys(keys) && SortedById(accounts)
    requires forall i :: 0 <= i < |accounts| ==> accounts[i].id in keys
    ensures IdPosition(accounts, id) <= KeyPosition(keys, id)
    ensures IdPosition(accounts, id) == KeyPosition(keys, id) <==> AllBelow(keys, accounts, id)
    decreases |keys|
  {
    hide AllBelow, HasId;
    if keys == [] || id <= keys[0] {
      BelowNone(keys, accounts, id);
    } else if accounts != [] && accounts[0].id == keys[0] {
      TailIds(keys, accounts, 1);
      RankIsPosition(keys[1..], accounts[1..], id);
      BelowTaken(keys, accounts, id);
    } else {
      TailIds(keys, accounts, 0);
      RankIsPosition(keys[1..], accounts, id);
      KeyMissing(keys, accounts, id);
    }
  }

  lemma KeyMissing(keys: seq<Key>, accounts: seq<Account>, id: Key)
    requires keys != [] && keys[0] < id && !HasId(accounts, keys[0])
    ensures !AllBelow(keys, accounts, id)
  {
    assert keys[0] in keys;
  }

  lemma TailHasId(accounts: seq<Account>, k: Key)
    requires accounts != []
    ensures HasId(accounts, k) <==> k == accounts[0].id || HasId(accounts[1..], k)
  {
    if HasId(accounts[1..], k) {
      var i :| 0 <= i < |accounts[1..]| && accounts[1..][i].id == k;
      assert accounts[i + 1].id == k;
    }
    if HasId(accounts, k) && k != accounts[0].id {
      var i :| 0 <= i < |accounts| && accounts[i].id == k;
      assert accounts[1..][i - 1].id == k;
    }
  }

  lemma TailIds(keys: seq<Key>, accounts: seq<Account>, n: nat)
    requires SortedKeys(keys) && SortedById(accounts) && keys != [] && n <= 1
    requires forall i :: 0 <= i < |accounts| ==> accounts[i].id in keys
    requires if n == 1 then accounts != [] && accounts[0].id == keys[0] else accounts == [] || accounts[0].id != keys[0]
    ensures forall i :: 0 <= i < |accounts[n..]| ==> accounts[n..][i].id in keys[1..]
    ensures n == 0 ==> !HasId(accounts, keys[0])
  {
    if accounts != [] {
      assert accounts[0].id in keys;
      var l :| 0 <= l < |keys| && keys[l] == accounts[0].id;
    }
    forall i | n <= i < |accounts| ensures accounts[i].id in keys[1..] {
      OrderAt(accounts, 0, i);
      assert accounts[i].id in keys && accounts[i].id != keys[0];
      var k :| 0 <= k < |keys| && keys[k] == accounts[i].id;
      assert keys[1..][k - 1] == keys[k];
    }
    if n == 0 {
      forall i | 0 <= i < |accounts| ensures accounts[i].id != keys[0] {
        assert accounts[0..][i].id in keys[1..];
      }
    }
  }

  lemma BuildUnfold(b: Batch, input: BatchInput)
    requires Reachable(b) && SortedById(b.state) && BuildBatch(b) == Ok(input)
    ensures AllSequential(b)
    ensures Host.Witness(b.state, b.touched) == Ok((input.accounts, input.proof))
    ensures ComputeRoot(b.state) == Ok(input.expectedRoot)
    ensures input == BatchOf(b, input.expectedRoot, (input.accounts, input.proof))
  {
    hide AllSequential, Host.Witness, ComputeRoot, Reachable;
  }

  /** The built witness is exactly the touched accounts that exist. */
  lemma BuiltWitness(b: Batch, input: BatchInput)
    requires Reachable(b) && SortedById(b.state) && BuildBatch(b) == Ok(input)
    ensures SortedById(input.accounts) && (forall x :: x in input.accounts <==> x in b.state && x.id in b.touched)
    ensures forall k :: HasId(input.accounts, k) <==> HasId(b.state, k) && k in b.touched
    ensures forall k :: k in b.touched ==> NextNonce(input.accounts, k) == NextNonce(b.state, k)
    ensures RootFromProof(input.accounts, input.proof) == Ok(input.expectedRoot) && input.proof.leafKeys == b.touched
  {
    BuildUnfold(b, input);
    ReachableTouched(b);
    hide BuildBatch, RootFromProof, ComputeRoot, Reachable, AllSequential, SortBooks;
    WitnessOpens(b.state, b.touched);
    hide Host.Witness;
    WitnessIds(b.state, input.accounts, b.touched);
  }

  lemma WitnessIds(state: seq<Account>, selected: seq<Account>, keys: seq<Key>)
    requires SortedById(state) && SortedById(selected)
    requires forall x :: x in selected <==> x in state && x.id in keys
    ensures forall k :: HasId(selected, k) <==> HasId(state, k) && k in keys
    ensures forall k :: k in keys ==> NextNonce(selected, k) == NextNonce(state, k)
  {
    SortedDistinct(state);
    SortedDistinct(selected);
    forall k ensures HasId(selected, k) <==> HasId(state, k) && k in keys {
      if HasId(selected, k) {
        var i :| 0 <= i < |selected| && selected[i].id == k;
        MemberHasId(state, selected[i]);
      }
      if HasId(state, k) && k in keys {
        var i :| 0 <= i < |state| && state[i].id == k;
        MemberHasId(selected, state[i]);
      }
    }
    forall k | k in keys ensures NextNonce(selected, k) == NextNonce(state, k) {
      LookupSame(selected, state, k);
    }
  }

  lemma SameDeposits(b: Batch, k: AccountId)
    ensures DepositsTo(RankDeposits(b), k) <==> DepositsTo(b.deposits, k)
  {
    if DepositsTo(b.deposits, k) {
      var i :| 0 <= i < |b.deposits| && b.deposits[i].account == k;
      assert RankDeposits(b)[i].account == k;
    }
  }

  /** A list of exactly the touched accounts that exist or are deposited to. */
  ghost predicate GuestList(b: Batch, accounts: seq<Account>) {
    && ValidAccounts(accounts)
    && (forall k :: HasId(accounts, k) ==> k in b.touched)
    && (forall k :: k in b.touched ==> (HasId(accounts, k) <==> Present(b, k)))
  }

  ghost predicate StateNonces(b: Batch, accounts: seq<Account>) {
    forall k :: k in b.touched ==> NextNonce(accounts, k) == NextNonce(b.state, k)
  }

  /** Any list with the witnessed and the deposited ids is a guest list. */
  lemma GuestIds(b: Batch, input: BatchInput, accounts: seq<Account>)
    requires Reachable(b) && SortedById(b.state) && BuildBatch(b) == Ok(input) && ValidAccounts(accounts)
    requires forall k :: HasId(accounts, k) <==> HasId(input.accounts, k) || DepositsTo(input.deposits, k)
    ensures GuestList(b, accounts)
  {
    hide BuildBatch, RootFromProof, ComputeRoot, Host.Witness, Reachable, AllSequential, SortBooks, RankForced, RankOrders,
      RankWithdrawals, Rank, HasId, ValidAccounts, SortedById;
    ReachableTouched(b);
    BuildUnfold(b, input);
    BuiltWitness(b, input);
    forall k ensures DepositsTo(input.deposits, k) <==> DepositsTo(b.deposits, k) {
      SameDeposits(b, k);
    }
  }

  lemma SelectedCanonical(state: seq<Account>, selected: seq<Account>)
    requires ValidAccounts(state) && forall x :: x in selected ==> x in state
    ensures CanonicalAccounts(selected)
    ensures NoncesFit(state) ==> NoncesFit(selected)
  {
    forall i | 0 <= i < |selected|
      ensures CanonicalBalances(selected[i].balances) && (NoncesFit(state) ==> selected[i].nextNonce <= U64_MAX)
    {
      assert selected[i] in state;
      var k :| 0 <= k < |state| && state[k] == selected[i];
    }
  }

  /** Everything before the account is accounted for, and so is the account. */
  ghost predicate PresentUpTo(b: Batch, id: AccountId) {
    forall k :: k in b.touched && k <= id ==> Present(b, k)
  }

  lemma RankMatches(b: Batch, accounts: seq<Account>, id: AccountId)
    requires SortedKeys(b.touched) && GuestList(b, accounts) && id in b.touched
    ensures IndexMatches(Rank(b, id), accounts, id) <==> PresentUpTo(b, id)
  {
    hide Present;
    forall i | 0 <= i < |accounts| ensures accounts[i].id in b.touched {
      assert HasId(accounts, accounts[i].id);
    }
    RankIsPosition(b.touched, accounts, id);
    PositionMatches(accounts, id, Rank(b, id));
    if AllBelow(b.touched, accounts, id) {
      if HasId(accounts, id) {
        forall k | k in b.touched && k <= id ensures Present(b, k) {
          assert k < id ==> HasId(accounts, k);
        }
      } else {
        assert !Present(b, id);
      }
    } else {
      var k :| k in b.touched && k < id && !HasId(accounts, k);
      assert !Present(b, k);
    }
  }

  lemma PositionMatches(accounts: seq<Account>, id: AccountId, index: nat)
    requires SortedById(accounts)
    ensures IndexMatches(index, accounts, id) <==> HasId(accounts, id) && index == IdPosition(accounts, id)
  {
    SearchFinds(accounts, id);
    if IndexMatches(index, accounts, id) {
      if index > 0 { OrderAt(accounts, index - 1, index); }
      SearchIdUnique(accounts, id, index);
    }
  }

  /** THEOREM (rank hints). The rank the builder attaches is the account's
      position in the guest's list exactly when every touched account up to it
      exists or is deposited to. */
  lemma HintsExactly(b: Batch, input: BatchInput, accounts: seq<Account>, id: AccountId)
    requires Reachable(b) && ValidAccounts(b.state) && BuildBatch(b) == Ok(input)
    requires DepositsFit(b.deposits) && ApplyDeposits(input.accounts, input.deposits) == Ok(accounts)
    requires id in b.touched
    ensures IndexMatches(Rank(b, id), accounts, id) <==> PresentUpTo(b, id)
  {
    hide BuildBatch, ApplyDeposits, Reachable, GuestList, HasId, DepositsTo, SortBooks, RankForced, RankOrders, RankWithdrawals;
    ReachableTouched(b);
    BuildUnfold(b, input);
    BuiltWitness(b, input);
    SelectedCanonical(b.state, input.accounts);
    DepositsRefineAddition(input.accounts, input.deposits, accounts);
    GuestIds(b, input, accounts);
    RankMatches(b, accounts, id);
  }

  // ----- forced withdrawals

  /** What the guest grants the first `n` forced requests: the smaller of the
      amount asked for and what the earlier requests left of the state's balance
      and the deposits, but nothing behind an account that does not exist. */
  ghost function Grants(b: Batch, n: nat): (r: seq<ForcedWithdrawal>)
    requires n <= |b.forced|
    ensures |r| == n
  {
    if n == 0 then []
    else
      var before := Grants(b, n - 1);
      var f := b.forced[n - 1];
      var held := Holding(b.state, f.account, f.asset) + Deposited(b.deposits, f.account, f.asset);
      var taken := Drained(before, f.account, f.asset);
      before + [f.(index := Some(Rank(b, f.account)),
                   amount := if PresentUpTo(b, f.account) && taken <= held then Min(f.amount, held - taken) else 0)]
  }

  lemma {:induction false} DepositedRanks(deposits: seq<Deposit>, ranked: seq<Deposit>, id: AccountId, asset: AssetId)
    requires |ranked| == |deposits| && forall i :: 0 <= i < |deposits| ==> ranked[i] == deposits[i].(index := ranked[i].index)
    ensures Deposited(ranked, id, asset) == Deposited(deposits, id, asset)
    ensures DepositedTotal(ranked, asset) == DepositedTotal(deposits, asset)
  {
    if deposits != [] {
      DepositedRanks(deposits[1..], ranked[1..], id, asset);
    }
  }

  lemma {:induction false} WithdrawnRanks(withdrawals: seq<Withdrawal>, ranked: seq<Withdrawal>, id: AccountId, asset: AssetId)
    requires |ranked| == |withdrawals|
    requires forall i :: 0 <= i < |withdrawals| ==> ranked[i] == withdrawals[i].(index := ranked[i].index)
    ensures Withdrawn(ranked, id, asset) == Withdrawn(withdrawals, id, asset)
  {
    if withdrawals != [] {
      WithdrawnRanks(withdrawals[1..], ranked[1..], id, asset);
    }
  }

  /** The witness holds what the state holds at every touched key. */
  lemma WitnessHolds(b: Batch, input: BatchInput, id: AccountId)
    requires Reachable(b) && SortedById(b.state) && BuildBatch(b) == Ok(input)
    ensures id in b.touched ==> forall a :: Holding(input.accounts, id, a) == Holding(b.state, id, a)
    ensures id !in b.touched ==> forall a :: Holding(input.accounts, id, a) == 0
  {
    hide BuildBatch, Reachable, RootFromProof, ComputeRoot;
    BuiltWitness(b, input);
    SortedDistinct(b.state);
    SortedDistinct(input.accounts);
    if id in b.touched {
      LookupSame(input.accounts, b.state, id);
    } else {
      forall i | 0 <= i < |input.accounts| ensures input.accounts[i].id != id {
        assert input.accounts[i] in input.accounts;
      }
      LookupAbsent(input.accounts, id);
    }
  }

  /** Lists that drain as the guest drains are the grants. */
  lemma {:induction false} DrainsAreGrants(b: Batch, input: BatchInput, accounts: seq<Account>, executed: seq<ForcedWithdrawal>, n: nat)
    requires Reachable(b) && SortedById(b.state) && BuildBatch(b) == Ok(input) && GuestList(b, accounts)
    requires |executed| == |input.forced| && forall i :: 0 <= i < |input.forced| ==> DrainedAt(input, accounts, executed, i)
    requires n <= |executed|
    ensures |input.forced| == |b.forced| && executed[..n] == Grants(b, n)
    decreases n
  {
    hide BuildBatch, Reachable, GuestList, SortedById, SortBooks, RankOrders, RankWithdrawals, Rank, PresentUpTo, Host.Witness, ComputeRoot;
    BuildUnfold(b, input);
    if n > 0 {
      DrainsAreGrants(b, input, accounts, executed, n - 1);
      var f := b.forced[n - 1];
      assert DrainedAt(input, accounts, executed, n - 1);
      ForcedTouched(b, n - 1);
      WitnessHolds(b, input, f.account);
      DepositedRanks(b.deposits, input.deposits, f.account, f.asset);
      RankMatches(b, accounts, f.account);
      assert executed[..n] == executed[..n - 1] + [executed[n - 1]];
    }
  }

  lemma ForcedTouched(b: Batch, i: nat)
    requires Reachable(b) && i < |b.forced|
    ensures b.forced[i].account in b.touched && SortedKeys(b.touched)
  {
    hide Reachable;
    ReachableTouched(b);
  }

  /** THEOREM (forced amounts). A settled built batch executes exactly the
      grants. */
  lemma ForcedAmounts(b: Batch, input: BatchInput, out: BatchOutput)
    requires Reachable(b) && SortedById(b.state) && BuildBatch(b) == Ok(input)
    requires Typed(input) && Outcome(input) == Ok(out)
    ensures out.forced == Grants(b, |b.forced|)
  {
    hide BuildBatch, Reachable, Outcome, Typed, GuestList, DrainedAt, Grants, SortedById, HasId, DepositsTo, ConsumesRuns, Pairs;
    SettlementConserves(input, out);
    GuestIds(b, input, out.accounts);
    DrainsAreGrants(b, input, out.accounts, out.forced, |out.forced|);
    assert out.forced[..|out.forced|] == out.forced;
  }

  /** THEOREM (who is drained). In a settled built batch a request whose account
      still has something left of the asset is executed for a positive amount
      exactly when every touched account up to it exists or is deposited to. */
  lemma DrainedExactlyWhenPresent(b: Batch, input: BatchInput, out: BatchOutput, i: nat)
    requires Reachable(b) && SortedById(b.state) && BuildBatch(b) == Ok(input) && i < |b.forced|
    requires Typed(input) && Outcome(input) == Ok(out)
    ensures |out.forced| == |b.forced|
    ensures var f := b.forced[i];
            var left := Holding(b.state, f.account, f.asset) + Deposited(b.deposits, f.account, f.asset)
                        - Drained(out.forced[..i], f.account, f.asset);
            && left >= 0
            && out.forced[i].amount == (if PresentUpTo(b, f.account) then Min(f.amount, left) else 0)
            && (left > 0 ==> (out.forced[i].amount > 0 <==> PresentUpTo(b, f.account)))
  {
    hide BuildBatch, Reachable, Outcome, Typed, Holding, Deposited, PresentUpTo, SortedById, Drained;
    ForcedAmounts(b, input, out);
    GrantsPrefix(b, |b.forced|, i);
    GrantsPrefix(b, |b.forced|, i + 1);
    GrantsBounded(b, i, b.forced[i].account, b.forced[i].asset);
    ReachableQueues(b);
    assert Grants(b, i + 1)[i] == out.forced[..i + 1][i];
  }

  lemma {:induction false} GrantsPrefix(b: Batch, n: nat, i: nat)
    requires i <= n <= |b.forced|
    ensures Grants(b, n)[..i] == Grants(b, i)
    decreases n
  {
    hide PresentUpTo;
    if i < n {
      GrantsPrefix(b, n - 1, i);
      assert Grants(b, n)[..i] == Grants(b, n - 1)[..i];
    } else {
      assert Grants(b, n)[..i] == Grants(b, n);
    }
  }

  lemma {:induction false} DrainedAppend(executed: seq<ForcedWithdrawal>, f: ForcedWithdrawal, id: AccountId, asset: AssetId)
    ensures Drained(executed + [f], id, asset) ==
            Drained(executed, id, asset) + (if f.account == id && f.asset == asset then f.amount else 0)
  {
    if executed == [] {
      assert (executed + [f])[1..] == [];
    } else {
      DrainedAppend(executed[1..], f, id, asset);
      assert (executed + [f])[1..] == executed[1..] + [f];
    }
  }

  /** The grants never exceed what there is. */
  lemma {:induction false} GrantsBounded(b: Batch, n: nat, id: AccountId, asset: AssetId)
    requires n <= |b.forced|
    ensures Drained(Grants(b, n), id, asset) <= Holding(b.state, id, asset) + Deposited(b.deposits, id, asset)
    ensures (forall i :: 0 <= i < n ==> b.forced[i].account != id || b.forced[i].asset != asset) ==> Drained(Grants(b, n), id, asset) == 0
    decreases n
  {
    hide PresentUpTo;
    if n > 0 {
      GrantsBounded(b, n - 1, id, asset);
      DrainedAppend(Grants(b, n - 1), Grants(b, n)[n - 1], id, asset);
    }
  }

  // ----- nonces

  lemma {:induction false} SequentialIsRun(nonces: seq<nat>, expected: nat)
    requires Sequential(nonces, expected)
    ensures forall v: nat :: v in nonces <==> expected <= v < expected + |nonces|
    ensures nonces != [] ==> expected + |nonces| <= U64_MAX
    decreases |nonces|
  {
    if nonces != [] {
      SequentialIsRun(nonces[1..], expected + 1);
      assert nonces == [nonces[0]] + nonces[1..];
    }
  }

  /** An account that uses exactly the nonces of a run uses that many. */
  lemma {:induction false} RunCounts(uses: seq<Use>, x: nat, start: nat, n: nat)
    requires forall v: nat :: multiset(uses)[Use(x, v)] == if start <= v < start + n then 1 else 0
    ensures CountUses(uses, x) == n
    decreases n
  {
    if n == 0 {
      forall i | 0 <= i < |uses| ensures uses[i].index != x {
        assert uses[i] in multiset(uses) && uses[i] == Use(uses[i].index, uses[i].nonce);
      }
      CountZero(uses, x);
    } else {
      var last := Use(x, start + n - 1);
      assert last in multiset(uses);
      var i :| 0 <= i < |uses| && uses[i] == last;
      var rest := uses[..i] + uses[i + 1..];
      assert uses == uses[..i] + [last] + uses[i + 1..];
      RunCounts(rest, x, start, n - 1);
      CountAppend(uses[..i], uses[i + 1..], x);
      CountAppend(uses[..i] + [last], uses[i + 1..], x);
      CountAppend(uses[..i], [last], x);
      assert CountUses([last], x) == 1 by { assert [last][1..] == []; }
    }
  }

  lemma PairsOfBuilt(b: Batch, input: BatchInput)
    requires input.orders == RankOrders(b) && input.withdrawals == RankWithdrawals(b)
    ensures Pairs(input.orders, input.withdrawals) == Pairs(b.orders, b.withdrawals)
  {
  }

  /** Recorded, consecutive nonces form the run the guest expects. */
  lemma BuiltRun(b: Batch, input: BatchInput, accounts: seq<Account>, x: nat)
    requires Reachable(b) && ValidAccounts(b.state) && BuildBatch(b) == Ok(input)
    requires GuestList(b, accounts) && StateNonces(b, accounts) && x < |accounts|
    requires OrdersAt(accounts, input.orders) && WithdrawalsResolved(input.withdrawals, accounts)
    ensures ExactRun(Uses(input.orders, input.withdrawals), x, accounts[x].nextNonce)
  {
    hide BuildBatch, Reachable, Present, NoncesKept, AllSequential, PairsMatch, OrdersAt, WithdrawalsResolved, Pairs, Uses,
      ComputeRoot, Host.Witness, SortBooks, StateNonce, ExactRun;
    ReachableNonces(b);
    BuildUnfold(b, input);
    PairsOfBuilt(b, input);
    PairsFit(input.orders, input.withdrawals, accounts);
    LookupAt(accounts, x);
    assert HasId(accounts, accounts[x].id);
    StateNonceIs(b.state, accounts[x].id);
    RunOfRecorded(b, input, accounts, x);
  }

  lemma RunOfRecorded(b: Batch, input: BatchInput, accounts: seq<Account>, x: nat)
    requires NoncesKept(b) && AllSequential(b) && DistinctIds(accounts) && x < |accounts|
    requires accounts[x].nextNonce == StateNonce(b.state, accounts[x].id)
    requires Pairs(input.orders, input.withdrawals) == Pairs(b.orders, b.withdrawals)
    requires PairsMatch(Pairs(input.orders, input.withdrawals), Uses(input.orders, input.withdrawals), accounts)
    ensures ExactRun(Uses(input.orders, input.withdrawals), x, accounts[x].nextNonce)
  {
    hide Pairs, Uses, StateNonce, PairsMatch, DistinctIds;
    var id, start := accounts[x].id, accounts[x].nextNonce;
    var uses := Uses(input.orders, input.withdrawals);
    var nonces := NoncesOf(b.nonces, id);
    RecordedRun(b, id);
    forall v: nat ensures multiset(uses)[Use(x, v)] == if start <= v < start + |nonces| then 1 else 0 {
      PairsCountUses(Pairs(input.orders, input.withdrawals), uses, accounts, x, v);
    }
    RunCounts(uses, x, start, |nonces|);
  }

  /** An account's recorded nonces are exactly the run from its next nonce. */
  lemma RecordedRun(b: Batch, id: AccountId)
    requires NoncesKept(b) && AllSequential(b)
    ensures var start, n := StateNonce(b.state, id), |NoncesOf(b.nonces, id)|;
            && (n > 0 ==> start + n <= U64_MAX)
            && forall v: nat :: multiset(Pairs(b.orders, b.withdrawals))[(id, v)] == if start <= v < start + n then 1 else 0
  {
    hide Pairs, StateNonce;
    assert Sequential(NoncesOf(b.nonces, id), StateNonce(b.state, id));
    SequentialIsRun(NoncesOf(b.nonces, id), StateNonce(b.state, id));
  }

  lemma StateNonceIs(state: seq<Account>, id: AccountId)
    requires SortedById(state)
    ensures StateNonce(state, id) == NextNonce(state, id)
  {
    SearchFinds(state, id);
    match SearchId(state, id)
    case Found(i) => LookupAt(state, i);
    case Missing(_) =>
      forall i | 0 <= i < |state| ensures state[i].id != id {
        assert HasId(state, state[i].id);
      }
      LookupAbsent(state, id);
  }

  // ----- books

  lemma EarlierOrder(orders: seq<Order>, side: Side)
    ensures StrictWeakOrder(Earlier(orders, side))
  {
  }

  /** Sorting a side by priority lists it strictly, sequences being distinct. */
  lemma SortedSideListed(orders: seq<Order>, market: MarketId, side: Side, list: seq<nat>)
    requires SideKept(orders, market, side, list) && DistinctSequences(orders)
    ensures Listed(orders, market, side, Sort(list, Earlier(orders, side)))
    ensures forall i :: i in Sort(list, Earlier(orders, side)) <==> i in list
  {
    var sorted := Sort(list, Earlier(orders, side));
    EarlierOrder(orders, side);
    SortAscending(list, Earlier(orders, side));
    SameElements(sorted, list);
    forall i, j | 0 <= i < j < |list| ensures Identity(list[i]) != Identity(list[j]) {
    }
    DistinctPermutes(list, sorted, Identity);
    forall p | 0 <= p < |sorted| ensures sorted[p] < |orders| && orders[sorted[p]].market == market && orders[sorted[p]].side == side {
      assert sorted[p] in list;
    }
    forall p, q | 0 <= p < q < |sorted| ensures Before(side, orders[sorted[p]], orders[sorted[q]]) {
      assert Identity(sorted[p]) != Identity(sorted[q]);
      assert !Earlier(orders, side)(sorted[q], sorted[p]);
      SequencesApart(orders, sorted[p], sorted[q]);
    }
  }

  lemma SequencesApart(orders: seq<Order>, i: nat, j: nat)
    requires DistinctSequences(orders) && i < |orders| && j < |orders| && i != j
    ensures orders[i].sequence != orders[j].sequence
  {
    if i < j { assert orders[i].sequence != orders[j].sequence; } else { assert orders[j].sequence != orders[i].sequence; }
  }

  lemma {:induction false} KeptAt(orders: seq<Order>, books: seq<OrderBook>, k: nat)
    requires BooksKept(orders, books) && k < |books|
    ensures BookKept(orders, books[k])
    ensures forall l :: k < l < |books| ==> books[k].market < books[l].market
  {
    if k > 0 {
      KeptAt(orders, books[1..], k - 1);
      assert forall l :: k < l < |books| ==> books[l] == books[1..][l - 1];
    } else if |books| > 1 {
      KeptAt(orders, books[1..], 0);
      forall l | 0 < l < |books| ensures books[0].market < books[l].market {
        assert books[l] == books[1..][l - 1] && books[1] == books[1..][0];
      }
    }
  }

  /** What the orders of a book mean does not depend on their hints. */
  lemma {:induction false} KeptUnderHints(orders: seq<Order>, ranked: seq<Order>, books: seq<OrderBook>)
    requires BooksKept(orders, books) && |ranked| == |orders|
    requires forall i :: 0 <= i < |orders| ==> ranked[i] == orders[i].(index := ranked[i].index)
    ensures BooksKept(ranked, books)
  {
    if books != [] {
      KeptUnderHints(orders, ranked, books[1..]);
    }
  }

  /** Sorted books arrange the orders the one way the guest accepts. */
  lemma SortedBooksArranged(orders: seq<Order>, books: seq<OrderBook>)
    requires BooksKept(orders, books) && DistinctSequences(orders)
    requires forall i :: 0 <= i < |orders| ==> InSomeBook(books, i)
    ensures Arranged(orders, SortBooks(orders, books))
  {
    var sorted := SortBooks(orders, books);
    forall k | 0 <= k < |sorted|
      ensures BookProper(orders, sorted[k])
      ensures forall i :: (i in sorted[k].buys <==> i in books[k].buys) && (i in sorted[k].sells <==> i in books[k].sells)
      ensures forall l :: k < l < |sorted| ==> sorted[k].market < sorted[l].market
    {
      KeptAt(orders, books, k);
      SortedSideListed(orders, books[k].market, Buy, books[k].buys);
      SortedSideListed(orders, books[k].market, Sell, books[k].sells);
      if books[k].buys != [] { assert books[k].buys[0] in sorted[k].buys; }
      if books[k].sells != [] { assert books[k].sells[0] in sorted[k].sells; }
    }
    forall i | 0 <= i < |orders| ensures InSomeBook(sorted, i) {
      assert InSomeBook(books, i);
      var k :| 0 <= k < |books| && (i in books[k].buys || i in books[k].sells);
      assert i in sorted[k].buys || i in sorted[k].sells;
    }
  }

  lemma BuiltBooksAccepted(b: Batch, input: BatchInput)
    requires Reachable(b) && SortedById(b.state) && BuildBatch(b) == Ok(input)
    requires ValidateMarkets(b.config, b.config.markets, None).Pass?
    ensures BuildValidatedBooks(input.orders, input.books, input.config).Ok?
  {
    hide BuildBatch, Reachable, OperationsKept, AllShelved, RankOrders, SortBooks, BuildValidatedBooks, ComputeRoot, Host.Witness,
      ValidateMarkets;
    ReachableOperations(b);
    BuildUnfold(b, input);
    ShelvedBooksAccepted(b);
  }

  /** The built books list every order in priority. */
  lemma BuiltBooksArranged(b: Batch)
    requires Reachable(b)
    ensures Arranged(RankOrders(b), SortBooks(RankOrders(b), b.books))
  {
    ReachableOperations(b);
    hide Reachable, Arranged, SortBooks, Rank;
    KeptUnderHints(b.orders, RankOrders(b), b.books);
    assert DistinctSequences(RankOrders(b));
    SortedBooksArranged(RankOrders(b), b.books);
  }

  lemma ShelvedBooksAccepted(b: Batch)
    requires OperationsKept(b) && AllShelved(b)
    requires ValidateMarkets(b.config, b.config.markets, None).Pass?
    ensures BuildValidatedBooks(RankOrders(b), SortBooks(RankOrders(b), b.books), b.config).Ok?
  {
    var orders := RankOrders(b);
    var books := SortBooks(orders, b.books);
    KeptUnderHints(b.orders, orders, b.books);
    assert DistinctSequences(orders);
    SortedBooksArranged(orders, b.books);
    MarketsGuarantee(b.config, b.config.markets, None);
    forall k | 0 <= k < |books| ensures MarketKnown(b.config, books[k].market) {
      var i := MarketsOfBooks(orders, books, k);
      assert FindMarket(b.config.markets, b.orders[i].market).Some?;
    }
    BooksAcceptedExactly(orders, books, b.config);
  }

  // ----- acceptance

  ghost predicate OrdersGood(b: Batch) {
    forall i :: 0 <= i < |b.orders| ==> b.orders[i].authentic && PresentUpTo(b, b.orders[i].trader)
  }

  ghost predicate WithdrawalsGood(b: Batch) {
    forall i :: 0 <= i < |b.withdrawals| ==> b.withdrawals[i].authentic && PresentUpTo(b, b.withdrawals[i].account)
  }

  /** What each account withdraws is still there once the forced withdrawals
      before it are paid. */
  ghost predicate WithdrawalsCovered(b: Batch) {
    forall id, a :: Withdrawn(b.withdrawals, id, a) + Drained(Grants(b, |b.forced|), id, a)
                    <= Holding(b.state, id, a) + Deposited(b.deposits, id, a)
  }

  lemma BuiltOrdersAccepted(b: Batch, input: BatchInput, accounts: seq<Account>)
    requires TouchedKept(b) && OperationsKept(b) && GuestList(b, accounts)
    requires input.orders == RankOrders(b) && input.config == b.config
    ensures ValidateOrders(input.orders, accounts, input.config).Pass? <==> OrdersGood(b)
  {
    hide FindMarket, FindAsset, GuestList, PresentUpTo, Rank;
    OrdersAccepted(input.orders, accounts, input.config);
    assert DistinctSequences(input.orders);
    forall i | 0 <= i < |b.orders|
      ensures OrderAccepted(input.orders[i], accounts, input.config) <==> b.orders[i].authentic && PresentUpTo(b, b.orders[i].trader)
    {
      RankMatches(b, accounts, b.orders[i].trader);
    }
  }

  lemma BuiltWithdrawalsAccepted(b: Batch, input: BatchInput, accounts: seq<Account>)
    requires TouchedKept(b) && OperationsKept(b) && GuestList(b, accounts)
    requires input.withdrawals == RankWithdrawals(b) && input.config == b.config
    ensures ValidateWithdrawals(input.withdrawals, accounts, input.config).Pass? <==> WithdrawalsGood(b)
  {
    hide FindMarket, FindAsset, GuestList, PresentUpTo, Rank;
    WithdrawalsAccepted(input.withdrawals, accounts, input.config);
    forall i | 0 <= i < |b.withdrawals|
      ensures WithdrawalAccepted(input.withdrawals[i], accounts, input.config) <==>
              b.withdrawals[i].authentic && PresentUpTo(b, b.withdrawals[i].account)
    {
      RankMatches(b, accounts, b.withdrawals[i].account);
    }
  }

  lemma BuiltNoncesAccepted(b: Batch, input: BatchInput, accounts: seq<Account>)
    requires Reachable(b) && ValidAccounts(b.state) && BuildBatch(b) == Ok(input)
    requires GuestList(b, accounts) && StateNonces(b, accounts)
    requires OrdersAt(accounts, input.orders) && WithdrawalsResolved(input.withdrawals, accounts)
    requires UsesResolved(Uses(input.orders, input.withdrawals), accounts)
    ensures ValidateNonces(input.orders, input.withdrawals, accounts).Pass?
  {
    hide BuildBatch, ValidateNonces, Uses, Reachable, StateNonces, OrdersAt, WithdrawalsResolved, UsesResolved, ExactRun;
    GuestDistinct(b, accounts);
    NoncesFormRuns(input.orders, input.withdrawals, accounts);
    forall x | 0 <= x < |accounts| ensures ExactRun(Uses(input.orders, input.withdrawals), x, accounts[x].nextNonce) {
      BuiltRun(b, input, accounts, x);
    }
  }

  lemma GuestDistinct(b: Batch, accounts: seq<Account>)
    requires GuestList(b, accounts)
    ensures ValidAccounts(accounts)
  {
  }

  /** Over a guest list with the state's nonces only signatures and unaccounted
      ids decide about the operations of a built batch. */
  lemma BuiltOperations(b: Batch, input: BatchInput, accounts: seq<Account>)
    requires Reachable(b) && ValidAccounts(b.state) && BuildBatch(b) == Ok(input)
    requires GuestList(b, accounts) && StateNonces(b, accounts)
    ensures ValidateOperations(input, accounts).Pass? <==> OrdersGood(b) && WithdrawalsGood(b)
  {
    hide BuildBatch, ValidateNonces, Uses, Reachable, StateNonces, OrdersAt, WithdrawalsResolved, UsesResolved, GuestList,
      OperationsKept, TouchedKept, OrdersGood, WithdrawalsGood, ScanOrders, DistinctSequences, ValidateWithdrawals, SortBooks,
      Host.Witness, ComputeRoot, RankOrders, RankWithdrawals, RankForced, RankDeposits;
    ReachableTouched(b);
    ReachableOperations(b);
    BuildUnfold(b, input);
    BuiltOrdersAccepted(b, input, accounts);
    BuiltWithdrawalsAccepted(b, input, accounts);
    if OrdersGood(b) && WithdrawalsGood(b) {
      AcceptedResolved(input, accounts);
      BuiltNoncesAccepted(b, input, accounts);
    }
  }

  /** The accounts after the built deposits and the drains. */
  lemma DrainedGuest(b: Batch, input: BatchInput, deposited: seq<Account>)
    requires Reachable(b) && ValidAccounts(b.state) && NoncesFit(b.state) && BuildBatch(b) == Ok(input)
    requires DepositsFit(b.deposits) && ApplyDeposits(input.accounts, input.deposits) == Ok(deposited)
    ensures ApplyForced(deposited, input.forced).Ok?
    ensures var (drained, executed) := ApplyForced(deposited, input.forced).value;
            && GuestList(b, drained) && StateNonces(b, drained) && executed == Grants(b, |b.forced|)
            && (forall id, a :: Holding(drained, id, a) ==
                  Holding(input.accounts, id, a) + Deposited(input.deposits, id, a) - Drained(executed, id, a))
  {
    hide BuildBatch, ApplyDeposits, ApplyForced, Reachable, GuestList, HasId, DepositsTo, SortBooks, RankForced, RankOrders,
      RankWithdrawals, DrainedAt, Grants, NoncesFit, SameIds, Host.Witness, ComputeRoot;
    BuildUnfold(b, input);
    BuiltWitness(b, input);
    SelectedCanonical(b.state, input.accounts);
    DrainedAccounts(input, deposited);
    var (drained, executed) := ApplyForced(deposited, input.forced).value;
    GuestIds(b, input, drained);
    DepositedDrains(input, deposited);
    DrainsAreGrants(b, input, drained, executed, |executed|);
    assert executed[..|executed|] == executed;
  }

  lemma CoveredExactly(b: Batch, input: BatchInput, drained: seq<Account>)
    requires Reachable(b) && SortedById(b.state) && BuildBatch(b) == Ok(input)
    requires forall id, a :: Holding(drained, id, a) ==
               Holding(input.accounts, id, a) + Deposited(input.deposits, id, a) - Drained(Grants(b, |b.forced|), id, a)
    ensures Operations.Covered(input.withdrawals, drained) <==> WithdrawalsCovered(b)
  {
    hide BuildBatch, Reachable, Grants, Holding, Deposited, Drained, Withdrawn, SortBooks, Host.Witness, ComputeRoot, SortedById;
    BuildUnfold(b, input);
    forall id, a
      ensures Withdrawn(input.withdrawals, id, a) <= Holding(drained, id, a) <==>
              Withdrawn(b.withdrawals, id, a) + Drained(Grants(b, |b.forced|), id, a)
              <= Holding(b.state, id, a) + Deposited(b.deposits, id, a)
    {
      WithdrawnRanks(b.withdrawals, input.withdrawals, id, a);
      DepositedRanks(b.deposits, input.deposits, id, a);
      WitnessHolds(b, input, id);
      if id !in b.touched {
        UntouchedIdle(b, id, a);
      }
    }
    if WithdrawalsCovered(b) {
      forall id, a ensures Withdrawn(input.withdrawals, id, a) <= Holding(drained, id, a) {
        assert Withdrawn(b.withdrawals, id, a) + Drained(Grants(b, |b.forced|), id, a)
            <= Holding(b.state, id, a) + Deposited(b.deposits, id, a);
      }
    }
    if Operations.Covered(input.withdrawals, drained) {
      forall id, a ensures Withdrawn(b.withdrawals, id, a) + Drained(Grants(b, |b.forced|), id, a)
                             <= Holding(b.state, id, a) + Deposited(b.deposits, id, a)
      {
        assert Withdrawn(input.withdrawals, id, a) <= Holding(drained, id, a);
      }
    }
  }

  lemma UntouchedIdle(b: Batch, id: AccountId, asset: AssetId)
    requires Reachable(b) && id !in b.touched
    ensures Withdrawn(b.withdrawals, id, asset) == 0 && Drained(Grants(b, |b.forced|), id, asset) == 0
  {
    hide Reachable, Grants;
    ReachableTouched(b);
    GrantsBounded(b, |b.forced|, id, asset);
    NoneWithdrawn(b.withdrawals, id, asset);
  }

  lemma {:induction false} NoneWithdrawn(withdrawals: seq<Withdrawal>, id: AccountId, asset: AssetId)
    requires forall i :: 0 <= i < |withdrawals| ==> withdrawals[i].account != id || withdrawals[i].asset != asset
    ensures Withdrawn(withdrawals, id, asset) == 0
  {
    if withdrawals != [] {
      NoneWithdrawn(withdrawals[1..], id, asset);
    }
  }

  /** The builder's own check suffices for whatever is not also forced out. */
  lemma UnforcedWithdrawalsCovered(b: Batch)
    requires Reachable(b) && ValidAccounts(b.state)
    requires forall i, j :: 0 <= i < |b.forced| && 0 <= j < |b.withdrawals| ==>
               b.forced[i].account != b.withdrawals[j].account || b.forced[i].asset != b.withdrawals[j].asset
    ensures WithdrawalsCovered(b)
  {
    hide Reachable, Grants, StateBalance, Holding;
    ReachableBounds(b);
    forall id, a ensures Withdrawn(b.withdrawals, id, a) + Drained(Grants(b, |b.forced|), id, a)
                           <= Holding(b.state, id, a) + Deposited(b.deposits, id, a)
    {
      GrantsBounded(b, |b.forced|, id, a);
      if exists j :: 0 <= j < |b.withdrawals| && b.withdrawals[j].account == id && b.withdrawals[j].asset == a {
        assert Withdrawn(b.withdrawals, id, a) <= StateBalance(b.state, id, a);
        StateBalanceIs(b.state, id, a);
      } else {
        NoneWithdrawn(b.withdrawals, id, a);
      }
    }
  }

  lemma StateBalanceIs(state: seq<Account>, id: AccountId, asset: AssetId)
    requires ValidAccounts(state)
    ensures StateBalance(state, id, asset) == Holding(state, id, asset)
  {
    SearchFinds(state, id);
    match SearchId(state, id)
    case Found(i) =>
      BalanceIsSum(state[i].balances, asset);
      LookupAt(state, i);
    case Missing(_) =>
      forall i | 0 <= i < |state| ensures state[i].id != id {
        assert HasId(state, state[i].id);
      }
      LookupAbsent(state, id);
  }

  /** THEOREM (the guest on a built batch). Once its deposits are in, the guest
      grants the forced requests what the builder can foresee, accepts the
      operations exactly when they are signed and no unaccounted id comes before
      theirs, and covers the withdrawals exactly when the state does. */
  lemma GuestAccepts(b: Batch, input: BatchInput, deposited: seq<Account>)
    requires Reachable(b) && ValidAccounts(b.state) && NoncesFit(b.state) && BuildBatch(b) == Ok(input)
    requires DepositsFit(b.deposits) && ApplyDeposits(input.accounts, input.deposits) == Ok(deposited)
    requires ValidateMarkets(b.config, b.config.markets, None).Pass?
    ensures RootFromProof(input.accounts, input.proof) == Ok(input.expectedRoot) == ComputeRoot(b.state)
    ensures ApplyForced(deposited, input.forced).Ok?
    ensures var (drained, executed) := ApplyForced(deposited, input.forced).value;
            && executed == Grants(b, |b.forced|)
            && (ValidateOperations(input, drained).Pass? <==> OrdersGood(b) && WithdrawalsGood(b))
            && (Operations.Covered(input.withdrawals, drained) <==> WithdrawalsCovered(b))
    ensures BuildValidatedBooks(input.orders, input.books, input.config).Ok?
  {
    hide BuildBatch, ApplyDeposits, ApplyForced, RootFromProof, ComputeRoot, ValidateOperations, BuildValidatedBooks, Reachable,
      Grants, GuestList, StateNonces, Operations.Covered, WithdrawalsCovered, OrdersGood, WithdrawalsGood, SortBooks, Host.Witness,
      ValidateMarkets, DepositsFit, NoncesFit, AllSequential;
    BuildUnfold(b, input);
    BuiltWitness(b, input);
    DrainedGuest(b, input, deposited);
    var drained := ApplyForced(deposited, input.forced).value.0;
    BuiltOperations(b, input, drained);
    CoveredExactly(b, input, drained);
    BuiltBooksAccepted(b, input);
  }

  /** The queues of a built batch pass as long as their ends fit a uint64. */
  lemma QueuesAccepted(b: Batch, input: BatchInput)
    requires Reachable(b) && SortedById(b.state) && BuildBatch(b) == Ok(input)
    ensures ValidateDeposits(input.deposits, input.depositCursor, input.config).Ok? <==>
              (b.deposits != [] ==> b.depositCursor + |b.deposits| <= U64_MAX)
    ensures ValidateForced(input.forced, input.forcedCursor).Pass? <==>
              (b.forced != [] ==> b.forcedCursor + |b.forced| <= U64_MAX)
  {
    hide BuildBatch, Rank, Reachable, ComputeRoot, Host.Witness, SortBooks, RankOrders, RankWithdrawals, AllSequential, FindAsset;
    ReachableQueues(b);
    BuildUnfold(b, input);
    DepositsConsecutive(input.deposits, input.depositCursor, input.config);
    ForcedConsecutive(input.forced, input.forcedCursor);
  }

  /** Over a good configuration only the fee recipient matters: it must exist
      before the batch, a deposit in the batch comes too late. */
  lemma ConfigAccepted(b: Batch, input: BatchInput)
    requires Reachable(b) && SortedById(b.state) && BuildBatch(b) == Ok(input)
    requires ValidateAssets(b.config.assets, None).Pass? && ValidateMarkets(b.config, b.config.markets, None).Pass?
    requires b.config.fees.buyerFeeBps <= BPS_DENOMINATOR
    ensures ValidateConfig(input.config, input.accounts).Pass? <==> HasId(b.state, b.config.fees.recipient)
  {
    BuildUnfold(b, input);
    BuiltWitness(b, input);
    ReachableTouched(b);
    hide BuildBatch, RootFromProof, ComputeRoot, ValidateAssets, ValidateMarkets;
    assert HasId(input.accounts, b.config.fees.recipient) <==> HasId(b.state, b.config.fees.recipient);
  }

  // ----- the exact condition to settle

  /** Configurations the guest accepts apart from the fee recipient. */
  ghost predicate GoodConfig(config: ExchangeConfig) {
    && |config.assets| <= MAX_ASSETS && |config.markets| <= MAX_MARKETS
    && ValidateAssets(config.assets, None).Pass? && ValidateMarkets(config, config.markets, None).Pass?
    && config.fees.buyerFeeBps <= BPS_DENOMINATOR
  }

  lemma {:induction false} SelectLength(accounts: seq<Account>, ids: seq<Key>)
    ensures |Select(accounts, ids)| <= |ids|
  {
    if ids != [] {
      SelectLength(accounts, ids[1..]);
    }
  }

  lemma {:induction false} MarketCount(books: seq<OrderBook>, known: set<MarketId>)
    requires forall k :: 0 <= k < |books| ==> books[k].market in known
    requires forall k, l :: 0 <= k < l < |books| ==> books[k].market < books[l].market
    ensures |books| <= |known|
  {
    if books != [] {
      var rest := known - {books[0].market};
      forall k | 0 <= k < |books[1..]| ensures books[1..][k].market in rest {
        assert books[0].market < books[k + 1].market;
      }
      MarketCount(books[1..], rest);
      assert known == rest + {books[0].market};
    }
  }

  lemma {:induction false} KnownCount(markets: seq<MarketConfig>) returns (known: set<MarketId>)
    ensures |known| <= |markets| && forall m :: m in markets ==> m.id in known
  {
    if markets == [] {
      known := {};
    } else {
      var rest := KnownCount(markets[1..]);
      known := rest + {markets[0].id};
      assert markets == [markets[0]] + markets[1..];
    }
  }

  lemma BooksFit(b: Batch)
    requires Reachable(b)
    ensures |b.books| <= |b.config.markets|
    ensures b.orders == [] ==> b.books == []
  {
    hide Reachable;
    ReachableOperations(b);
    var known := KnownCount(b.config.markets);
    forall k | 0 <= k < |b.books|
      ensures b.books[k].market in known && b.orders != []
      ensures forall l :: k < l < |b.books| ==> b.books[k].market < b.books[l].market
    {
      KeptAt(b.orders, b.books, k);
      var i := if b.books[k].buys != [] then b.books[k].buys[0] else b.books[k].sells[0];
      assert b.orders[i].market == b.books[k].market && FindMarket(b.config.markets, b.orders[i].market).Some?;
    }
    MarketCount(b.books, known);
    if b.books != [] { assert b.books[0].market in known; }
  }

  predicate QueueEndsFit(b: Batch) {
    && (b.deposits != [] ==> b.depositCursor + |b.deposits| <= U64_MAX)
    && (b.forced != [] ==> b.forcedCursor + |b.forced| <= U64_MAX)
  }

  lemma BuiltLimits(b: Batch, input: BatchInput)
    requires Reachable(b) && SortedById(b.state) && BuildBatch(b) == Ok(input) && GoodConfig(b.config)
    ensures ValidateLimits(input).Pass?
  {
    hide BuildBatch, Reachable, ComputeRoot, BuildMultiproof, ValidateAssets, ValidateMarkets, SortedById;
    BuildUnfold(b, input);
    ReachableBounds(b);
    BooksFit(b);
    SelectLength(b.state, b.touched);
  }

  /** A built batch over a good configuration is valid once the fee recipient
      exists and the deposits end below 2^64. */
  lemma BuiltValidates(b: Batch, input: BatchInput)
    requires Reachable(b) && ValidAccounts(b.state) && BuildBatch(b) == Ok(input) && GoodConfig(b.config)
    ensures Validate(input).Ok? <==>
              && HasId(b.state, b.config.fees.recipient)
              && (b.deposits != [] ==> b.depositCursor + |b.deposits| <= U64_MAX)
  {
    hide BuildBatch, Reachable, ComputeRoot, RootFromProof, Host.Witness, ValidateLimits, ValidateConfig, ValidateAccounts,
      ValidateDeposits, HasId, CanonicalAccounts, AllSequential, SortBooks, ValidateAssets, ValidateMarkets;
    BuildUnfold(b, input);
    BuiltWitness(b, input);
    BuiltLimits(b, input);
    ConfigAccepted(b, input);
    SelectedCanonical(b.state, input.accounts);
    CanonicalFit(input.accounts);
    AccountsValidated(input.accounts);
    QueuesAccepted(b, input);
  }

  /** Machine integers: u128 amounts and quantities. */
  ghost predicate BatchTyped(b: Batch) {
    DepositsFit(b.deposits) && QuantitiesFit(b.orders) && forall i :: 0 <= i < |b.forced| ==> b.forced[i].amount <= U128_MAX
  }

  lemma BuiltTyped(b: Batch, input: BatchInput)
    requires Reachable(b) && ValidAccounts(b.state) && NoncesFit(b.state) && BuildBatch(b) == Ok(input) && BatchTyped(b)
    ensures Typed(input)
  {
    hide BuildBatch, Reachable, ComputeRoot, RootFromProof, Host.Witness, Rank, SortBooks;
    BuildUnfold(b, input);
    BuiltWitness(b, input);
    SelectedCanonical(b.state, input.accounts);
    CanonicalFit(input.accounts);
    assert DepositsFit(input.deposits) by {
      assert forall i :: 0 <= i < |b.deposits| ==> input.deposits[i].amount == b.deposits[i].amount;
    }
    assert QuantitiesFit(input.orders) by {
      assert forall i :: 0 <= i < |b.orders| ==> input.orders[i].quantity == b.orders[i].quantity;
    }
  }

  lemma CanonicalFit(accounts: seq<Account>)
    requires CanonicalAccounts(accounts)
    ensures BalancesFit(accounts)
  {
    forall i | 0 <= i < |accounts|
      ensures forall k :: 0 <= k < |accounts[i].balances| ==> accounts[i].balances[k].available <= U128_MAX
    {
      CanonicalMeans(accounts[i].balances);
    }
  }

  /** What the touched accounts and the deposits hold together fits a u128. */
  ghost predicate TouchedFit(b: Batch) {
    forall a :: Total(Select(b.state, b.touched), a) + DepositedTotal(b.deposits, a) <= U128_MAX
  }

  /** What a host can check before it builds: the fee recipient exists, the
      queues end below 2^64, what the touched accounts and the deposits hold
      together fits a u128, every operation is signed with every account up to
      its own accounted for, and the withdrawals are covered. */
  ghost predicate Settleable(b: Batch) {
    && HasId(b.state, b.config.fees.recipient) && QueueEndsFit(b)
    && TouchedFit(b)
    && OrdersGood(b) && WithdrawalsGood(b) && WithdrawalsCovered(b)
  }

  lemma BuiltFunded(b: Batch, input: BatchInput)
    requires Reachable(b) && SortedById(b.state) && BuildBatch(b) == Ok(input)
    ensures Funded(input) <==> TouchedFit(b)
  {
    hide BuildBatch, Reachable, ComputeRoot, Rank, SortBooks, BuildMultiproof, RankForced, RankOrders, RankWithdrawals, Total,
      DepositedTotal, SortedById, Select;
    BuildUnfold(b, input);
    assert input.accounts == Select(b.state, b.touched);
    forall a ensures DepositedTotal(input.deposits, a) == DepositedTotal(b.deposits, a) {
      DepositedRanks(b.deposits, input.deposits, 0, a);
    }
    if TouchedFit(b) {
      forall a ensures Total(input.accounts, a) + DepositedTotal(input.deposits, a) <= U128_MAX {
        assert Total(Select(b.state, b.touched), a) + DepositedTotal(b.deposits, a) <= U128_MAX;
      }
    }
    if Funded(input) {
      forall a ensures Total(Select(b.state, b.touched), a) + DepositedTotal(b.deposits, a) <= U128_MAX {
        assert Total(input.accounts, a) + DepositedTotal(input.deposits, a) <= U128_MAX;
      }
    }
  }

  function KeySet(keys: seq<Key>): set<AccountId> {
    set k | k in keys
  }

  lemma {:induction false} KeySetSize(keys: seq<Key>)
    ensures |KeySet(keys)| <= |keys|
  {
    if keys == [] {
      assert KeySet(keys) == {};
    } else {
      KeySetSize(keys[1..]);
      assert keys == [keys[0]] + keys[1..];
      assert KeySet(keys) == {keys[0]} + KeySet(keys[1..]);
      SubsetSize(KeySet(keys) - {keys[0]}, KeySet(keys[1..]));
    }
  }

  lemma BuiltRoom(b: Batch, input: BatchInput)
    requires Reachable(b) && SortedById(b.state) && BuildBatch(b) == Ok(input)
    ensures RoomFor(IdSet(input.accounts), DepositIds(input.deposits))
  {
    hide BuildBatch, Reachable, ComputeRoot, RootFromProof, Rank, SortBooks, Host.Witness, IdSet, HasId, SortedById, RankForced,
      RankOrders, RankWithdrawals, AllSequential;
    BuildUnfold(b, input);
    BuiltWitness(b, input);
    ReachableTouched(b);
    ReachableBounds(b);
    KeySetSize(b.touched);
    IdSetHasId(input.accounts);
    TouchedRoom(b.touched, IdSet(input.accounts), DepositIds(input.deposits));
  }

  lemma TouchedRoom(touched: seq<Key>, accounts: set<AccountId>, deposits: set<AccountId>)
    requires |touched| <= MAX_TOUCHED_ACCOUNTS_PER_BATCH
    requires (forall id :: id in accounts ==> id in touched) && forall id :: id in deposits ==> id in touched
    ensures RoomFor(accounts, deposits)
  {
    KeySetSize(touched);
    SubsetSize(accounts + deposits, KeySet(touched));
  }

  /** What an account brings to matching. */
  ghost function BroughtBy(b: Batch, id: AccountId, asset: AssetId): int {
    if id !in b.touched then 0
    else
      Holding(b.state, id, asset) + Deposited(b.deposits, id, asset)
      - Drained(Grants(b, |b.forced|), id, asset) - Withdrawn(b.withdrawals, id, asset)
  }

  /** Trade `k` passes its checks, and its parties can give what it takes from
      what they bring and what the trades before it leave them. */
  ghost predicate TradeCovered(b: Batch, trades: seq<Trade>, k: nat)
    requires k < |trades|
  {
    var t := trades[k];
    var market := FindMarket(b.config.markets, t.market);
    && market.Some?
    && Affordable(t, b.config.fees.buyerFeeBps,
                  BroughtBy(b, t.buyer, market.value.quote) + BatchNet(trades[..k], b.config, t.buyer, market.value.quote),
                  BroughtBy(b, t.seller, market.value.base) + BatchNet(trades[..k], b.config, t.seller, market.value.base))
  }

  ghost predicate TradesCovered(b: Batch, trades: seq<Trade>) {
    forall k :: 0 <= k < |trades| ==> TradeCovered(b, trades, k)
  }

  lemma BuiltBrings(b: Batch, input: BatchInput, id: AccountId, asset: AssetId)
    requires Reachable(b) && ValidAccounts(b.state) && NoncesFit(b.state) && BuildBatch(b) == Ok(input) && Typed(input)
    requires DepositsFit(b.deposits) && Prepare(input).Ok?
    ensures Holding(Prepare(input).value, id, asset) == BroughtBy(b, id, asset)
  {
    hide BuildBatch, Reachable, ComputeRoot, RootFromProof, Host.Witness, SortBooks, Rank, Prepare, Typed, ApplyDeposits, ApplyForced, Grants,
      GuestList, StateNonces, HasId, DepositsTo, Holding, Deposited, Drained, Withdrawn, NoncesFit, RankForced, RankOrders, SortedById,
      CanonicalAccounts;
    BuildUnfold(b, input);
    PreparedHoldings(input);
    var deposited := ApplyDeposits(input.accounts, input.deposits).value;
    DrainedGuest(b, input, deposited);
    WitnessHolds(b, input, id);
    DepositedRanks(b.deposits, input.deposits, id, asset);
    WithdrawnRanks(b.withdrawals, input.withdrawals, id, asset);
    if id !in b.touched {
      UntouchedIdle(b, id, asset);
      UntouchedUnfunded(b, id, asset);
    }
  }

  lemma UntouchedUnfunded(b: Batch, id: AccountId, asset: AssetId)
    requires Reachable(b) && id !in b.touched
    ensures Deposited(b.deposits, id, asset) == 0
  {
    hide Reachable;
    ReachableTouched(b);
    NoneDeposited(b.deposits, id, asset);
  }

  lemma {:induction false} NoneDeposited(deposits: seq<Deposit>, id: AccountId, asset: AssetId)
    requires forall i :: 0 <= i < |deposits| ==> deposits[i].account != id
    ensures Deposited(deposits, id, asset) == 0
  {
    if deposits != [] {
      NoneDeposited(deposits[1..], id, asset);
    }
  }

  lemma BuiltPayable(b: Batch, input: BatchInput)
    requires Reachable(b) && ValidAccounts(b.state) && NoncesFit(b.state) && BuildBatch(b) == Ok(input) && Typed(input)
    requires DepositsFit(b.deposits) && Prepare(input).Ok?
    ensures AllPayable(Prepare(input).value, input.config, TradesFor(input)) <==> TradesCovered(b, TradesFor(input))
  {
    hide BuildBatch, Reachable, Prepare, Typed, Holding, BroughtBy, BatchNet, Affordable, TradesFor, NoncesFit, ValidAccounts, ComputeRoot,
      Host.Witness, SortBooks, RankForced, RankOrders, DepositsFit;
    ValidMeansSorted(b.state);
    BuildUnfold(b, input);
    var trades := TradesFor(input);
    forall k | 0 <= k < |trades| ensures Payable(Prepare(input).value, input.config, trades, k) <==> TradeCovered(b, trades, k) {
      var t := trades[k];
      if FindMarket(b.config.markets, t.market).Some? {
        var market := FindMarket(b.config.markets, t.market).value;
        BuiltBrings(b, input, t.buyer, market.quote);
        BuiltBrings(b, input, t.seller, market.base);
      }
    }
    PayableMeans(b, Prepare(input).value, input.config, trades);
  }

  lemma ValidMeansSorted(accounts: seq<Account>)
    requires ValidAccounts(accounts)
    ensures SortedById(accounts)
  {
  }

  lemma PayableMeans(b: Batch, accounts: seq<Account>, config: ExchangeConfig, trades: seq<Trade>)
    requires forall k :: 0 <= k < |trades| ==> (Payable(accounts, config, trades, k) <==> TradeCovered(b, trades, k))
    ensures AllPayable(accounts, config, trades) <==> TradesCovered(b, trades)
  {
  }

  /** THEOREM (when a built batch settles). A batch the host builds reaches
      matching exactly when it is settleable; it settles exactly when moreover
      each trade of its books is covered in turn, so always when there is nothing
      to match. Nothing else the guest checks can fail. */
  lemma BuiltSettlesExactly(b: Batch, input: BatchInput)
    requires Reachable(b) && ValidAccounts(b.state) && NoncesFit(b.state) && BuildBatch(b) == Ok(input)
    requires GoodConfig(b.config) && BatchTyped(b)
    ensures Typed(input)
    ensures Prepare(input).Ok? <==> Settleable(b)
    ensures Outcome(input).Ok? <==> Settleable(b) && TradesCovered(b, TradesFor(input))
    ensures b.orders == [] ==> (Outcome(input).Ok? <==> Settleable(b))
  {
    hide Stages, Outcome, Prepare, Reachable, Typed, HasId, Settleable, BuildBatch, SortedById, Clears, ValidateAssets, ValidateMarkets,
      TradesCovered, TradesFor, AllPayable, BuildValidatedBooks, NoncesFit;
    BuiltTyped(b, input);
    BuiltPrepares(b, input);
    StagesClear(input);
    BuiltOutcome(b, input);
    BuiltIdle(b, input);
    if Prepare(input).Ok? {
      BuiltBooksAccepted(b, input);
      ClearsExactly(input);
      BuiltPayable(b, input);
    }
  }

  lemma BuiltIdle(b: Batch, input: BatchInput)
    requires Reachable(b) && SortedById(b.state) && BuildBatch(b) == Ok(input) && Typed(input)
    ensures b.orders == [] && Settleable(b) && Prepare(input).Ok? ==> Clears(input)
  {
    hide Prepare, Reachable, Typed, HasId, BuildBatch, SortedById, Clears, WithdrawalsCovered, OrdersGood, WithdrawalsGood,
      ComputeRoot, RootFromProof, Host.Witness, RankForced, RankDeposits, RankWithdrawals;
    if b.orders == [] && Settleable(b) && Prepare(input).Ok? {
      BuildUnfold(b, input);
      BuiltWitness(b, input);
      BooksFit(b);
      ReachableTouched(b);
      IdleClears(input);
    }
  }

  lemma BuiltOutcome(b: Batch, input: BatchInput)
    requires Reachable(b) && SortedById(b.state) && BuildBatch(b) == Ok(input) && Typed(input)
    ensures Outcome(input).Ok? <==> Stages(input).Ok?
  {
    hide Stages, Outcome, RootFromProof, ComputeRoot, Typed, Host.Witness, BuildBatch, Reachable, SortedById;
    BuildUnfold(b, input);
    ReachableTouched(b);
    if Outcome(input).Ok? {
      OutcomeUnfold(input);
    }
    if Stages(input).Ok? {
      forall i | 0 <= i < |input.deposits| ensures input.deposits[i].account in b.touched {
        assert b.deposits[i].account in b.touched;
      }
      WitnessedBatchSettles(b.state, b.touched, input);
    }
  }

  lemma BuiltPrepares(b: Batch, input: BatchInput)
    requires Reachable(b) && ValidAccounts(b.state) && NoncesFit(b.state) && BuildBatch(b) == Ok(input) && Typed(input)
    requires GoodConfig(b.config) && BatchTyped(b)
    ensures Prepare(input).Ok? <==> Settleable(b)
  {
    hide Validate, Prepare, Reachable, HasId, BuildBatch, Operations.Covered, WithdrawalsCovered, OrdersGood, WithdrawalsGood,
      ApplyDeposits, ApplyForced, ValidateForced, ValidateOperations, RoomFor, IdSet, DepositIds, Funded, Typed, Total, DepositedTotal,
      NoncesFit, TouchedFit, ComputeRoot, RootFromProof, BuildValidatedBooks, Grants, QuantitiesFit, ValidateAssets, ValidateMarkets;
    BuiltValidates(b, input);
    QueuesAccepted(b, input);
    BuiltFunded(b, input);
    BuiltRoom(b, input);
    UnpreparedInvalid(input);
    if Validate(input).Ok? {
      PreparedExactly(input);
      ValidateUnfold(input);
      TypedMeans(input);
      AccountsValidated(input.accounts);
      if Funded(input) {
        FundedDeposits(input);
        GuestAccepts(b, input, ApplyDeposits(input.accounts, input.deposits).value);
      }
    }
  }

  lemma TypedMeans(input: BatchInput)
    requires Typed(input)
    ensures BalancesFit(input.accounts) && DepositsFit(input.deposits)
  {
  }

  /** THEOREM (host and guest in step). Build, settle, apply: once the stages of
      a built batch succeed it settles, and the host ends on the proven root
      with every untouched account as it was, ready to build again. */
  lemma BuildSettleApply(b: Batch, input: BatchInput)
    requires Reachable(b) && ValidAccounts(b.state) && NoncesFit(b.state) && BuildBatch(b) == Ok(input)
    requires Typed(input) && Stages(input).Ok?
    ensures Outcome(input).Ok?
    ensures var out := Outcome(input).value;
            var after := NextState(b.state, out.accounts);
            && ComputeRoot(after) == Ok(out.public.newRoot)
            && (forall x: Account :: x.id !in b.touched ==> (x in b.state <==> x in after))
            && ValidAccounts(after) && NoncesFit(after)
  {
    hide Stages, Outcome, RootFromProof, ComputeRoot, Typed, Host.Witness, BuildBatch, NextState, Reachable, SortBooks;
    BuildUnfold(b, input);
    BuiltWitness(b, input);
    BuiltOutcome(b, input);
    HostFollowsGuest(b.state, input, Outcome(input).value);
  }

  // ----- a batch that always settles

  /** A prepared batch without operations changes nothing. */
  lemma IdleStages(input: BatchInput)
    requires input.deposits == [] && input.forced == [] && input.orders == [] && input.withdrawals == [] && input.books == []
    requires Typed(input) && Prepare(input).Ok? && HasId(input.accounts, input.config.fees.recipient)
    ensures Stages(input).Ok? && Stages(input).value.accounts == input.accounts
  {
    hide Validate, Baseline, HasId;
    ValidateUnfold(input);
    AccountsValidated(input.accounts);
    var baseline := Baseline(input).value;
    assert Admit(input, baseline) == Ok((input.accounts, [], baseline));
    IdleOperations(input);
    ConfigGuarantees(input.config, input.accounts);
    IdleMatching(input, input.accounts);
  }

  lemma IdleOperations(input: BatchInput)
    requires input.orders == [] && input.withdrawals == [] && NoncesFit(input.accounts)
    ensures ValidateOperations(input, input.accounts).Pass?
    ensures Consume(input, input.accounts) == Ok(input.accounts)
  {
    var uses := Uses(input.orders, input.withdrawals);
    assert uses == [];
    NoncesFormRuns(input.orders, input.withdrawals, input.accounts);
    forall x | 0 <= x < |input.accounts| ensures ExactRun(uses, x, input.accounts[x].nextNonce) {
    }
    forall i | 0 <= i < |input.accounts| ensures CountUses(uses, i) == 0 {
    }
    assert Advanced(input.accounts, uses) == input.accounts;
  }

  /** THEOREM. Over every valid state that holds the fee recipient, and every
      good configuration, a batch without operations builds, settles and keeps
      the root. */
  lemma IdleBatchSettles(state: seq<Account>, config: ExchangeConfig, domain: SigningDomain, batchId: nat,
                         depositCursor: nat, forcedCursor: nat)
    requires ValidAccounts(state) && NoncesFit(state) && GoodConfig(config) && HasId(state, config.fees.recipient)
    ensures var built := BuildBatch(NewBatch(state, config, domain, batchId, depositCursor, forcedCursor));
            && built.Ok? && Typed(built.value) && Outcome(built.value).Ok?
            && ComputeRoot(state) == Ok(Outcome(built.value).value.public.oldRoot)
            && Outcome(built.value).value.public.newRoot == Outcome(built.value).value.public.oldRoot
  {
    hide RootFromProof, ComputeRoot, Stages, Outcome, GoodConfig, Prepare, Typed, Clears, BuildMultiproof, Reachable, HasId;
    var b := NewBatch(state, config, domain, batchId, depositCursor, forcedCursor);
    NewIsReachable(state, config, domain, batchId, depositCursor, forcedCursor);
    WitnessOpens(state, b.touched);
    var input := BuildBatch(b).value;
    BuiltWitness(b, input);
    IdleFits(state, config.fees.recipient);
    UnforcedWithdrawalsCovered(b);
    BuiltSettlesExactly(b, input);
    IdleStages(input);
    OutcomeUnfold(input);
  }

  /** A single account fits the tracker. */
  lemma IdleFits(state: seq<Account>, recipient: AccountId)
    requires ValidAccounts(state)
    ensures forall a :: Total(Select(state, [recipient]), a) + DepositedTotal([], a) <= U128_MAX
  {
    assert Select(state, [recipient][1..]) == [];
    var selected := Select(state, [recipient]);
    forall a ensures Total(selected, a) + DepositedTotal([], a) <= U128_MAX {
      if selected != [] {
        EntryFits(selected[0].balances, a);
        assert selected[1..] == [];
      }
    }
  }

  // ----- what an unknown account does to the others

  lemma SelectTotal(state: seq<Account>, keys: seq<Key>, asset: AssetId)
    requires SortedById(state) && SortedKeys(keys)
    ensures Total(Select(state, keys), asset) <= Total(state, asset)
  {
    SelectMembers(state, keys);
    SelectSorted(state, keys);
    SortedDistinct(state);
    SortedDistinct(Select(state, keys));
    OutsideMembers(state, keys);
    OutsideDistinct(state, keys);
    TotalOfSet(Select(state, keys), Inside(state, keys), asset);
    TotalOutside(state, keys, asset);
  }

  /** The batch builds and settles, executing its forced requests for exactly
      these amounts. */
  ghost predicate SettlesFor(b: Batch, amounts: seq<nat>) {
    && BuildBatch(b).Ok? && Outcome(BuildBatch(b).value).Ok?
    && |Outcome(BuildBatch(b).value).value.forced| == |amounts|
    && forall i :: 0 <= i < |amounts| ==> Outcome(BuildBatch(b).value).value.forced[i].amount == amounts[i]
  }

  /** A state, a configuration and a batch of forced requests only that nothing
      but the requests themselves can spoil. */
  ghost predicate ForcedOnly(b: Batch) {
    && Reachable(b) && b.deposits == [] && b.orders == [] && b.withdrawals == [] && b.nonces == map[]
    && ValidAccounts(b.state) && NoncesFit(b.state) && (forall a :: Total(b.state, a) <= U128_MAX)
    && GoodConfig(b.config) && HasId(b.state, b.config.fees.recipient)
    && b.forcedCursor + |b.forced| <= U64_MAX && forall i :: 0 <= i < |b.forced| ==> b.forced[i].amount <= U128_MAX
  }

  lemma ForcedOnlySettles(b: Batch)
    requires ForcedOnly(b)
    ensures SettlesFor(b, seq(|b.forced|, i requires 0 <= i < |b.forced| => Grants(b, |b.forced|)[i].amount))
  {
    hide Outcome, Grants, ComputeRoot, RootFromProof, Reachable, Typed, Clears, Prepare, GoodConfig, BuildMultiproof, HasId, SortBooks;
    ReachableTouched(b);
    WitnessOpens(b.state, b.touched);
    var input := BuildBatch(b).value;
    BuiltSettlesExactly(b, input);
    forall a ensures Total(Select(b.state, b.touched), a) + DepositedTotal(b.deposits, a) <= U128_MAX {
      SelectTotal(b.state, b.touched, a);
    }
    UnforcedWithdrawalsCovered(b);
    ForcedAmounts(b, input, Outcome(input).value);
  }

  /** A batch that asks for one amount of one asset, for each account in turn. */
  function Requests(b: Batch, accounts: seq<AccountId>, asset: AssetId, amount: nat): Batch
    decreases |accounts|
  {
    if accounts == [] then b
    else Requests(Perform(b, Force(ForcedWithdrawal(b.forcedCursor + |b.forced|, accounts[0], asset, amount, None))),
                  accounts[1..], asset, amount)
  }

  lemma RequestAdmitted(b: Batch, account: AccountId, asset: AssetId, amount: nat)
    requires |b.forced| <= 1 && |b.touched| <= 2 && b.forcedCursor + 2 <= U64_MAX && amount > 0
    ensures var f := ForcedWithdrawal(b.forcedCursor + |b.forced|, account, asset, amount, None);
            Perform(b, Force(f)) == b.(touched := InsertKey(b.touched, account), forced := b.forced + [f])
  {
    hide KeyPosition, InsertKey;
  }

  /** THEOREM (an unknown account starves the others). Over every valid state,
      whoever holds the asset: a request by an account that exists is executed
      for all it asks for and has, but for nothing when a request by a smaller
      account that does not exist comes first. Both batches build and settle. */
  lemma UnknownRequestStarvesOthers(state: seq<Account>, config: ExchangeConfig, domain: SigningDomain, batchId: nat,
                                    depositCursor: nat, forcedCursor: nat,
                                    unknown: AccountId, known: AccountId, asset: AssetId, amount: nat)
    requires ValidAccounts(state) && NoncesFit(state) && forall a :: Total(state, a) <= U128_MAX
    requires GoodConfig(config) && HasId(state, config.fees.recipient)
    requires 0 < unknown < known && !HasId(state, unknown) && HasId(state, known)
    requires 0 < amount <= U128_MAX && forcedCursor + 2 <= U64_MAX
    ensures var start := NewBatch(state, config, domain, batchId, depositCursor, forcedCursor);
            && SettlesFor(Requests(start, [known], asset, amount), [Min(amount, Holding(state, known, asset))])
            && SettlesFor(Requests(start, [unknown, known], asset, amount), [0, 0])
  {
    hide Reachable, GoodConfig, SettlesFor, Perform, InsertKey, HasId;
    var start := NewBatch(state, config, domain, batchId, depositCursor, forcedCursor);
    NewIsReachable(state, config, domain, batchId, depositCursor, forcedCursor);
    var none: seq<AccountId> := [];
    assert [known][1..] == none && [unknown, known][1..] == [known];

    RequestAdmitted(start, known, asset, amount);
    var f := ForcedWithdrawal(forcedCursor, known, asset, amount, None);
    var alone := Perform(start, Force(f));
    StaysReachable(start, Force(f));
    assert Requests(alone, none, asset, amount) == alone;
    assert Requests(start, [known], asset, amount) == alone;
    ForcedOnlySettles(alone);
    GrantedAlone(alone, f);

    RequestAdmitted(start, unknown, asset, amount);
    var u := ForcedWithdrawal(forcedCursor, unknown, asset, amount, None);
    var first := Perform(start, Force(u));
    StaysReachable(start, Force(u));
    InsertKeyLength(start.touched, unknown);
    RequestAdmitted(first, known, asset, amount);
    var g := ForcedWithdrawal(forcedCursor + 1, known, asset, amount, None);
    var both := Perform(first, Force(g));
    StaysReachable(first, Force(g));
    assert Requests(both, none, asset, amount) == both;
    assert Requests(first, [known], asset, amount) == both;
    ForcedOnlySettles(both);
    GrantedBehind(both, u, g);
  }

  lemma GrantedAlone(b: Batch, f: ForcedWithdrawal)
    requires b.forced == [f] && b.deposits == [] && HasId(b.state, f.account)
    requires HasId(b.state, b.config.fees.recipient)
    requires forall k :: k in b.touched ==> k == f.account || k == b.config.fees.recipient
    ensures seq(|b.forced|, i requires 0 <= i < |b.forced| => Grants(b, |b.forced|)[i].amount)
            == [Min(f.amount, Holding(b.state, f.account, f.asset))]
  {
    assert PresentUpTo(b, f.account);
    assert Grants(b, 0) == [];
    assert Drained([], f.account, f.asset) == 0 && Deposited(b.deposits, f.account, f.asset) == 0;
  }

  lemma GrantedBehind(b: Batch, u: ForcedWithdrawal, g: ForcedWithdrawal)
    requires b.forced == [u, g] && b.deposits == [] && u.account < g.account
    requires u.account in b.touched && !HasId(b.state, u.account)
    ensures seq(|b.forced|, i requires 0 <= i < |b.forced| => Grants(b, |b.forced|)[i].amount) == [0, 0]
  {
    assert !Present(b, u.account);
    assert !PresentUpTo(b, u.account) && !PresentUpTo(b, g.account);
    GrantsPrefix(b, 2, 1);
    assert Grants(b, 2)[0] == Grants(b, 1)[0];
  }
}
