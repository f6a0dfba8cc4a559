/** The guarantees the exchange state rests on. */
module PatriciaTheorems {
  import opened Keys
  import opened Results
  import opened Sorting
  import opened Types
  import opened Patricia
  import opened PatriciaShape
  import opened PatriciaProofs

  ghost predicate SameAccounts(a: seq<Account>, b: seq<Account>) {
    forall x :: x in a <==> x in b
  }

  ghost predicate DistinctKeys(keys: seq<Key>) {
    forall i, j :: 0 <= i < j < |keys| ==> keys[i] != keys[j]
  }

  /** The root is the canonical commitment to the account set, in any order. */
  lemma RootOfSet(values: seq<Account>, top: Option<Commitment>)
    requires DistinctIds(values)
    requires top.Some? ==> Canonical(top.value) && SameAccounts(values, Leaves(top.value))
    requires top.None? ==> values == []
    ensures ComputeRoot(values) == Ok(Finalize(top))
  {
    SortAccountsDistinct(values);
    var sorted := SortAccounts(values).value;
    BuildCanonical(sorted);
    SameElements(sorted, values);
    if top.Some? {
      CanonicalRange(top.value);
      SortedUnique(sorted, Leaves(top.value));
      CanonicalUnique(Build(sorted).value.commitment, top.value);
    }
  }

  /** Every distinct account set has a root, and the root opens to the set. */
  lemma RootExists(values: seq<Account>) returns (top: Option<Commitment>)
    requires DistinctIds(values)
    ensures ComputeRoot(values) == Ok(Finalize(top))
    ensures top.Some? <==> values != []
    ensures top.Some? ==> Canonical(top.value) && SameAccounts(values, Leaves(top.value))
  {
    SortAccountsDistinct(values);
    var sorted := SortAccounts(values).value;
    SameElements(sorted, values);
    BuildCanonical(sorted);
    top := Build(sorted).value.Committed();
  }

  /** The root depends on the set of accounts only, and binds it. */
  lemma RootBindsAccounts(a: seq<Account>, b: seq<Account>)
    requires DistinctIds(a) && DistinctIds(b)
    ensures ComputeRoot(a).Ok? && ComputeRoot(b).Ok?
    ensures ComputeRoot(a) == ComputeRoot(b) <==> SameAccounts(a, b)
  {
    var s := RootExists(a);
    var t := RootExists(b);
    if SameAccounts(a, b) {
      if a != [] { assert a[0] in b; }
      if b != [] { assert b[0] in a; }
      RootOfSet(a, t);
    }
  }

  /** The nodes a successful reconstruction combines. */
  function ProofNodes(values: seq<Account>, proof: Multiproof): seq<Commitment>
    requires SortAccounts(values).Ok?
  {
    Merge(LeafNodes(SortAccounts(values).value), proof.sideNodes)
  }

  /** Reading a successful reconstruction. */
  lemma RootFromProofUnfold(values: seq<Account>, proof: Multiproof)
    requires RootFromProof(values, proof).Ok?
    ensures ProofWellOrdered(proof) && DistinctIds(values) && SortAccounts(values).Ok?
    ensures Combine(ProofNodes(values, proof)).Ok?
    ensures RootFromProof(values, proof) == Ok(Finalize(Combine(ProofNodes(values, proof)).value))
    ensures forall a :: a in values ==> a.id in proof.leafKeys
    ensures SortedKeys(proof.leafKeys)
    ensures forall i, k :: 0 <= i < |proof.sideNodes| && k in proof.leafKeys ==>
              !(proof.sideNodes[i].min <= k <= proof.sideNodes[i].max)
  {
    SortAccountsDistinct(values);
    SortedFromAdjacent(proof.leafKeys);
    forall a | a in values ensures a.id in proof.leafKeys {
      var sorted := SortAccounts(values).value;
      assert a in sorted;
      var i :| 0 <= i < |sorted| && sorted[i] == a;
    }
    forall i, k | 0 <= i < |proof.sideNodes| && k in proof.leafKeys
      ensures !(proof.sideNodes[i].min <= k <= proof.sideNodes[i].max)
    {
      SelectedInMeans(proof.leafKeys, proof.sideNodes[i]);
    }
  }

  lemma SortedFromAdjacent(keys: seq<Key>)
    requires forall i :: 0 <= i < |keys| - 1 ==> keys[i] < keys[i + 1]
    ensures SortedKeys(keys)
  {
    forall i, j | 0 <= i < j < |keys| ensures keys[i] < keys[j] {
      AscendingFrom(keys, i, j);
    }
  }

  lemma {:induction false} AscendingFrom(keys: seq<Key>, i: nat, j: nat)
    requires forall k :: 0 <= k < |keys| - 1 ==> keys[k] < keys[k + 1]
    requires i < j < |keys|
    ensures keys[i] < keys[j]
    decreases j
  {
    if i + 1 < j {
      AscendingFrom(keys, i, j - 1);
    }
  }

  /** What the merged nodes open to. */
  lemma ProofNodesOpen(values: seq<Account>, proof: Multiproof)
    requires SortAccounts(values).Ok?
    ensures forall a :: a in LeavesOf(ProofNodes(values, proof)) <==> a in values || a in LeavesOf(proof.sideNodes)
    ensures forall n :: n in ProofNodes(values, proof) <==>
              n in LeafNodes(SortAccounts(values).value) || n in proof.sideNodes
  {
    var sorted := SortAccounts(values).value;
    SortAccountsDistinct(values);
    MergeMembers(LeafNodes(sorted), proof.sideNodes);
    MergeOpens(LeafNodes(sorted), proof.sideNodes);
    LeavesOfLeafNodes(sorted);
    var all := LeavesOf(ProofNodes(values, proof));
    forall a ensures a in all <==> a in values || a in LeavesOf(proof.sideNodes) {
      assert a in all <==> a in multiset(all);
      assert a in sorted <==> a in multiset(sorted);
      assert a in LeavesOf(proof.sideNodes) <==> a in multiset(LeavesOf(proof.sideNodes));
    }
  }

  /** A reconstruction over canonical side nodes reaches the canonical root of
      the supplied accounts together with what the side nodes open to. */
  lemma ReconstructionIsCanonical(values: seq<Account>, proof: Multiproof, accounts: seq<Account>)
    requires RootFromProof(values, proof).Ok?
    requires AllCanonical(proof.sideNodes)
    requires DistinctIds(accounts)
    requires forall a :: a in accounts <==> a in values || a in LeavesOf(proof.sideNodes)
    ensures RootFromProof(values, proof) == ComputeRoot(accounts)
  {
    RootFromProofUnfold(values, proof);
    ProofNodesOpen(values, proof);
    var nodes := ProofNodes(values, proof);
    LeavesOfLeafNodes(SortAccounts(values).value);
    forall i | 0 <= i < |nodes| ensures Canonical(nodes[i]) {
      assert nodes[i] in nodes;
    }
    if accounts != [] { assert accounts[0] in LeavesOf(nodes); }
    if nodes == [] {
      RootOfSet(accounts, None);
    } else {
      var top := Combine(nodes).value.value;
      CombineSound(nodes, top);
      RootOfSet(accounts, Some(top));
    }
  }

  lemma {:induction false} OpensWithin(nodes: seq<Commitment>, a: Account) returns (i: nat)
    requires AllCanonical(nodes) && a in LeavesOf(nodes)
    ensures i < |nodes| && nodes[i].min <= a.id <= nodes[i].max
  {
    if a in Leaves(nodes[0]) {
      i := 0;
      var k :| 0 <= k < |Leaves(nodes[0])| && Leaves(nodes[0])[k] == a;
      CanonicalInRange(nodes[0], k);
    } else {
      var j := OpensWithin(nodes[1..], a);
      i := j + 1;
    }
  }

  /** Any proof, honest or not, that reaches the root of an account set is made
      of canonical pieces of that set. */
  lemma AcceptedProofOpens(accounts: seq<Account>, values: seq<Account>, proof: Multiproof)
    requires DistinctIds(accounts)
    requires RootFromProof(values, proof).Ok? && RootFromProof(values, proof) == ComputeRoot(accounts)
    ensures AllCanonical(proof.sideNodes)
    ensures forall a :: a in accounts <==> a in values || a in LeavesOf(proof.sideNodes)
  {
    RootFromProofUnfold(values, proof);
    ProofNodesOpen(values, proof);
    var nodes := ProofNodes(values, proof);
    var root := RootExists(accounts);
    if nodes != [] {
      var top := Combine(nodes).value.value;
      assert root == Some(top);
      CombineInvert(nodes, top);
    }
    forall i | 0 <= i < |proof.sideNodes| ensures Canonical(proof.sideNodes[i]) {
      assert proof.sideNodes[i] in nodes;
      var j :| 0 <= j < |nodes| && nodes[j] == proof.sideNodes[i];
    }
  }

  /** THEOREM (authenticity). A proof that reconstructs the root of an account
      set carries exactly that set's accounts at the proof's keys: none is
      altered, hidden or invented. */
  lemma ProofIsAuthentic(accounts: seq<Account>, values: seq<Account>, proof: Multiproof)
    requires DistinctIds(accounts)
    requires RootFromProof(values, proof).Ok? && RootFromProof(values, proof) == ComputeRoot(accounts)
    ensures forall a :: a in values <==> a in accounts && a.id in proof.leafKeys
  {
    RootFromProofUnfold(values, proof);
    AcceptedProofOpens(accounts, values, proof);
    forall a | a in accounts && a.id in proof.leafKeys ensures a in values {
      if a !in values {
        var i := OpensWithin(proof.sideNodes, a);
        assert false;
      }
    }
  }

  /** THEOREM (transition). Run again on other leaves, the same proof either
      fails or gives the root of the set with just its keys replaced. */
  lemma ProofCarriesUpdates(accounts: seq<Account>, values: seq<Account>, proof: Multiproof,
                            updated: seq<Account>, result: seq<Account>)
    requires DistinctIds(accounts) && DistinctIds(result)
    requires RootFromProof(values, proof).Ok? && RootFromProof(values, proof) == ComputeRoot(accounts)
    requires RootFromProof(updated, proof).Ok?
    requires forall a :: a in result <==> a in updated || (a in accounts && a.id !in proof.leafKeys)
    ensures RootFromProof(updated, proof) == ComputeRoot(result)
  {
    RootFromProofUnfold(values, proof);
    AcceptedProofOpens(accounts, values, proof);
    forall a ensures a in result <==> a in updated || a in LeavesOf(proof.sideNodes) {
      if a in LeavesOf(proof.sideNodes) {
        var i := OpensWithin(proof.sideNodes, a);
      }
    }
    ReconstructionIsCanonical(updated, proof, result);
  }

  /** THEOREM (round trip). The proof built from the old accounts reconstructs
      the root of every new set that agrees with them outside the selected
      keys: updates, insertions, deletions and absent keys alike. */
  lemma MultiproofRoundTrip(before: seq<Account>, after: seq<Account>, keys: seq<Key>, selected: seq<Account>)
    requires DistinctIds(before) && DistinctIds(after)
    requires keys != [] && DistinctKeys(keys)
    requires forall a: Account :: a.id !in keys ==> (a in before <==> a in after)
    requires DistinctIds(selected)
    requires forall a :: a in selected <==> a in after && a.id in keys
    ensures BuildMultiproof(before, keys).Ok?
    ensures RootFromProof(selected, BuildMultiproof(before, keys).value) == ComputeRoot(after)
    ensures ComputeRoot(after).Ok?
  {
    SortKeysDistinct(keys);
    SameElements(SortKeys(keys).value, keys);
    SortAccountsDistinct(before);
    var sortedKeys, sorted := SortKeys(keys).value, SortAccounts(before).value;
    BuildCanonical(sorted);
    BuildFaithful(sorted);
    BuildWellFormed(sorted);
    SideNodesCover(Build(sorted).value, sortedKeys);
    var proof := BuildMultiproof(before, keys).value;
    HonestProofSucceeds(selected, proof);
    UnselectedMembers(sorted, sortedKeys);
    assert LeavesOf(proof.sideNodes) == Unselected(sorted, sortedKeys);
    ReconstructionIsCanonical(selected, proof, after);
    var top := RootExists(after);
  }

  /** Apart side nodes and leaves at the proof's keys always reconstruct. */
  lemma HonestProofSucceeds(values: seq<Account>, proof: Multiproof)
    requires proof.leafKeys != [] && SortedKeys(proof.leafKeys)
    requires PairwiseApart(proof.sideNodes) && KeysApart(proof.leafKeys, proof.sideNodes)
    requires DistinctIds(values)
    requires forall a :: a in values ==> a.id in proof.leafKeys
    ensures RootFromProof(values, proof).Ok?
  {
    SortAccountsDistinct(values);
    SidesWellOrdered(proof);
    forall i | 0 <= i < |proof.sideNodes| ensures !SelectedIn(proof.leafKeys, proof.sideNodes[i]) {
      SelectedInMeans(proof.leafKeys, proof.sideNodes[i]);
      RangeAt(proof.sideNodes, i);
      assert forall k :: k in proof.leafKeys ==> KeyApart(k, proof.sideNodes[i]);
    }
    HonestNodesApart(SortAccounts(values).value, proof);
    ApartIsOrdered(ProofNodes(values, proof));
    CombineSucceeds(ProofNodes(values, proof));
    ChecksPass(values, proof);
  }

  lemma HonestNodesApart(sorted: seq<Account>, proof: Multiproof)
    requires SortedById(sorted) && PairwiseApart(proof.sideNodes) && KeysApart(proof.leafKeys, proof.sideNodes)
    requires forall a :: a in sorted ==> a.id in proof.leafKeys
    ensures PairwiseApart(Merge(LeafNodes(sorted), proof.sideNodes))
  {
    var leaves, sides := LeafNodes(sorted), proof.sideNodes;
    LeafNodesApart(sorted);
    forall i, j | 0 <= i < |leaves| && 0 <= j < |sides|
      ensures Apart(leaves[i], sides[j]) || Apart(sides[j], leaves[i])
    {
      assert sorted[i] in sorted;
      assert KeyApart(sorted[i].id, sides[j]);
    }
    MergeApart(leaves, sides);
  }

  lemma ChecksPass(values: seq<Account>, proof: Multiproof)
    requires ProofWellOrdered(proof) && SortAccounts(values).Ok?
    requires forall a :: a in SortAccounts(values).value ==> a.id in proof.leafKeys
    requires forall i :: 0 <= i < |proof.sideNodes| ==> !SelectedIn(proof.leafKeys, proof.sideNodes[i])
    requires Ordered(ProofNodes(values, proof)) && Combine(ProofNodes(values, proof)).Ok?
    ensures RootFromProof(values, proof).Ok?
  {
    var sorted := SortAccounts(values).value;
    forall i | 0 <= i < |sorted| ensures sorted[i].id in proof.leafKeys {
      assert sorted[i] in sorted;
    }
  }

  lemma SidesWellOrdered(proof: Multiproof)
    requires proof.leafKeys != [] && SortedKeys(proof.leafKeys)
    requires PairwiseApart(proof.sideNodes)
    ensures ProofWellOrdered(proof)
  {
    var sides := proof.sideNodes;
    forall i | 0 <= i < |sides| ensures sides[i].min <= sides[i].max {
      RangeAt(sides, i);
    }
    ApartIsOrdered(sides);
  }

  lemma ApartIsOrdered(nodes: seq<Commitment>)
    requires PairwiseApart(nodes)
    ensures Ordered(nodes)
  {
    forall i | 0 <= i < |nodes| - 1 ensures nodes[i].max < nodes[i + 1].min {
      ApartAt(nodes, i, i + 1);
    }
  }
}
