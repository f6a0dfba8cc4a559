/** The dense Merkle tree (trees/dmt.rs): a table of levels, the recursion it
    stands for, and proofs that consume every side node. A width is always a
    power of two; its exponent is the level. */
module Dense {
  import opened Keys
  import opened Results

  const U32_MAX: nat := 0xFFFF_FFFF

  datatype Hash =
    | Opaque(bytes: nat)
    | EmptyLeaf
    | LeafOf(content: nat)
    | NodeOf(left: Hash, right: Hash)
    | RootOf(count: nat, tree: Hash)

  datatype DenseProof = DenseProof(leafCount: nat, leafIndices: seq<nat>, sideNodes: seq<Hash>)

  datatype DenseError = TooManyLeaves | BadMultiproof

  datatype Outcome<+T> = Fine(value: T) | Refused(error: DenseError)

  /** The level of the root: the tree is the next power of two wide. */
  function Height(count: nat): nat {
    if count <= 1 then 0 else 1 + Height((count + 1) / 2)
  }

  /** The least power of two that holds every leaf. */
  lemma {:induction false} HeightLeast(count: nat)
    ensures count <= Pow2(Height(count))
    ensures count > 1 ==> Pow2(Height(count)) < 2 * count
  {
    if count > 1 {
      HeightLeast((count + 1) / 2);
    }
  }

  /** The leaf level, padded with empty leaves. */
  function Row(leaves: seq<nat>): (r: seq<Hash>)
    ensures |r| == Pow2(Height(|leaves|)) && |leaves| <= |r|
    ensures forall i :: 0 <= i < |leaves| ==> r[i] == LeafOf(leaves[i])
    ensures forall i :: |leaves| <= i < |r| ==> r[i] == EmptyLeaf
  {
    HeightLeast(|leaves|);
    seq(Pow2(Height(|leaves|)), i requires 0 <= i => if i < |leaves| then LeafOf(leaves[i]) else EmptyLeaf)
  }

  /** The root of the subtree of a level over the leaves from `start` on. */
  function Tree(row: seq<Hash>, start: nat, level: nat): Hash
    requires start + Pow2(level) <= |row|
    decreases level
  {
    if level == 0 then row[start]
    else NodeOf(Tree(row, start, level - 1), Tree(row, start + Pow2(level - 1), level - 1))
  }

  /** First index at or after the midpoint. */
  function Cut(indices: seq<nat>, midpoint: nat): (cut: nat)
    ensures cut <= |indices|
    ensures forall i :: 0 <= i < cut ==> indices[i] < midpoint
    ensures cut < |indices| ==> indices[cut] >= midpoint
  {
    if indices == [] || indices[0] >= midpoint then 0 else 1 + Cut(indices[1..], midpoint)
  }

  function SideNodes(row: seq<Hash>, selected: seq<nat>, start: nat, level: nat): seq<Hash>
    requires start + Pow2(level) <= |row|
    decreases level
  {
    if selected == [] then [Tree(row, start, level)]
    else if level == 0 then []
    else
      var midpoint := start + Pow2(level - 1);
      var cut := Cut(selected, midpoint);
      SideNodes(row, selected[..cut], start, level - 1) + SideNodes(row, selected[cut..], midpoint, level - 1)
  }

  /** A subtree's root and the side nodes that are left. */
  function Rebuild(leaves: seq<nat>, indices: seq<nat>, start: nat, level: nat, sides: seq<Hash>): Outcome<(Hash, seq<Hash>)>
    requires |leaves| == |indices|
    decreases level
  {
    if indices == [] then
      if sides == [] then Refused(BadMultiproof) else Fine((sides[0], sides[1..]))
    else if level == 0 then
      if |indices| != 1 || indices[0] != start then Refused(BadMultiproof) else Fine((LeafOf(leaves[0]), sides))
    else
      var midpoint := start + Pow2(level - 1);
      var cut := Cut(indices, midpoint);
      var left := Rebuild(leaves[..cut], indices[..cut], start, level - 1, sides);
      if left.Refused? then left
      else
        var right := Rebuild(leaves[cut..], indices[cut..], midpoint, level - 1, left.value.1);
        if right.Refused? then right
        else Fine((NodeOf(left.value.0, right.value.0), right.value.1))
  }

  predicate Increasing(indices: seq<nat>) {
    forall i :: 0 <= i < |indices| - 1 ==> indices[i] < indices[i + 1]
  }

  function ComputeRoot(leaves: seq<nat>): Hash
    requires |leaves| <= U32_MAX
  {
    RootOf(|leaves|, Tree(Row(leaves), 0, Height(|leaves|)))
  }

  function BuildMultiproof(leaves: seq<nat>, indices: seq<nat>): Outcome<DenseProof> {
    if |leaves| > U32_MAX then Refused(TooManyLeaves)
    else if |leaves| == 0 || indices == [] || !Increasing(indices) || indices[|indices| - 1] >= |leaves| then
      Refused(BadMultiproof)
    else Fine(DenseProof(|leaves|, indices, SideNodes(Row(leaves), indices, 0, Height(|leaves|))))
  }

  function RootFromProof(leaves: seq<nat>, proof: DenseProof): Outcome<Hash> {
    var indices := proof.leafIndices;
    if |leaves| != |indices| || proof.leafCount == 0 || !Increasing(indices)
       || (indices != [] && indices[|indices| - 1] >= proof.leafCount) then
      Refused(BadMultiproof)
    else
      var tree := Rebuild(leaves, indices, 0, Height(proof.leafCount), proof.sideNodes);
      if tree.Refused? then Refused(tree.error)
      else if tree.value.1 != [] then Refused(BadMultiproof)
      else Fine(RootOf(proof.leafCount, tree.value.0))
  }

  // ----- the round trip

  ghost predicate Ascending(indices: seq<nat>) {
    forall i, j :: 0 <= i < j < |indices| ==> indices[i] < indices[j]
  }

  lemma {:induction false} AscendingFrom(indices: seq<nat>, i: nat, j: nat)
    requires Increasing(indices) && i < j < |indices|
    ensures indices[i] < indices[j]
    decreases j
  {
    if i + 1 < j {
      AscendingFrom(indices, i, j - 1);
    }
  }

  lemma IncreasingAscends(indices: seq<nat>)
    requires Increasing(indices)
    ensures Ascending(indices)
  {
    forall i, j | 0 <= i < j < |indices| ensures indices[i] < indices[j] {
      AscendingFrom(indices, i, j);
    }
  }

  lemma {:induction false} TreeFrame(a: seq<Hash>, b: seq<Hash>, start: nat, level: nat)
    requires start + Pow2(level) <= |a| == |b|
    requires forall i :: start <= i < start + Pow2(level) ==> a[i] == b[i]
    ensures Tree(a, start, level) == Tree(b, start, level)
    decreases level
  {
    if level > 0 {
      TreeFrame(a, b, start, level - 1);
      TreeFrame(a, b, start + Pow2(level - 1), level - 1);
    }
  }

  /** Old and new row of one subtree: selected indices inside it, the new
      leaves at them, everything else unchanged. */
  ghost predicate Replaces(before: seq<Hash>, after: seq<Hash>, leaves: seq<nat>, indices: seq<nat>, start: nat, level: nat) {
    && start + Pow2(level) <= |before| == |after| && |leaves| == |indices|
    && Ascending(indices)
    && (forall k :: 0 <= k < |indices| ==> start <= indices[k] < start + Pow2(level) && after[indices[k]] == LeafOf(leaves[k]))
    && (forall i :: start <= i < start + Pow2(level) && i !in indices ==> before[i] == after[i])
  }

  lemma HalfPow(level: nat)
    requires level > 0
    ensures Pow2(level) == 2 * Pow2(level - 1)
  {
  }

  lemma CutSplits(indices: seq<nat>, midpoint: nat)
    requires Ascending(indices)
    ensures var cut := Cut(indices, midpoint);
            && (forall k :: cut <= k < |indices| ==> indices[k] >= midpoint)
            && Ascending(indices[..cut]) && Ascending(indices[cut..])
            && (forall i :: i in indices && i < midpoint ==> i in indices[..cut])
            && (forall i :: i in indices && i >= midpoint ==> i in indices[cut..])
  {
    var cut := Cut(indices, midpoint);
    assert forall k :: cut < k < |indices| ==> indices[cut] < indices[k];
    SplitMembers(indices, cut);
  }

  lemma SplitMembers(indices: seq<nat>, cut: nat)
    requires cut <= |indices|
    ensures forall i :: i in indices <==> i in indices[..cut] || i in indices[cut..]
  {
    assert indices == indices[..cut] + indices[cut..];
  }

  lemma ReplacesHalves(before: seq<Hash>, after: seq<Hash>, leaves: seq<nat>, indices: seq<nat>, start: nat, level: nat)
    requires level > 0 && Replaces(before, after, leaves, indices, start, level)
    ensures var midpoint := start + Pow2(level - 1);
            var cut := Cut(indices, midpoint);
            && Replaces(before, after, leaves[..cut], indices[..cut], start, level - 1)
            && Replaces(before, after, leaves[cut..], indices[cut..], midpoint, level - 1)
  {
    hide Pow2, Ascending, Cut, Replaces;
    ReplacesLeft(before, after, leaves, indices, start, level);
    ReplacesRight(before, after, leaves, indices, start, level);
  }

  lemma ReplacesLeft(before: seq<Hash>, after: seq<Hash>, leaves: seq<nat>, indices: seq<nat>, start: nat, level: nat)
    requires level > 0 && Replaces(before, after, leaves, indices, start, level)
    ensures |leaves| == |indices|
    ensures var cut := Cut(indices, start + Pow2(level - 1));
            Replaces(before, after, leaves[..cut], indices[..cut], start, level - 1)
  {
    hide Pow2, Ascending, Cut;
    HalfPow(level);
    CutSplits(indices, start + Pow2(level - 1));
  }

  lemma ReplacesRight(before: seq<Hash>, after: seq<Hash>, leaves: seq<nat>, indices: seq<nat>, start: nat, level: nat)
    requires level > 0 && Replaces(before, after, leaves, indices, start, level)
    ensures |leaves| == |indices|
    ensures var cut := Cut(indices, start + Pow2(level - 1));
            Replaces(before, after, leaves[cut..], indices[cut..], start + Pow2(level - 1), level - 1)
  {
    hide Pow2, Ascending, Cut;
    HalfPow(level);
    CutSplits(indices, start + Pow2(level - 1));
  }

  /** Reading the side nodes of the old row with the new leaves rebuilds the
      new subtree and leaves exactly what follows. */
  lemma {:induction false} RebuildsNode(before: seq<Hash>, after: seq<Hash>, leaves: seq<nat>, indices: seq<nat>,
                                        start: nat, level: nat, more: seq<Hash>)
    requires Replaces(before, after, leaves, indices, start, level)
    ensures Rebuild(leaves, indices, start, level, SideNodes(before, indices, start, level) + more) ==
            Fine((Tree(after, start, level), more))
    decreases level
  {
    hide Pow2, Replaces;
    if indices == [] {
      UntouchedNode(before, after, leaves, indices, start, level, more);
    } else if level == 0 {
      LeafNode(before, after, leaves, indices, start, more);
    } else {
      Fits(before, after, leaves, indices, start, level);
      ReplacesHalves(before, after, leaves, indices, start, level);
      var midpoint := start + Pow2(level - 1);
      var cut := Cut(indices, midpoint);
      var left, right := SideNodes(before, indices[..cut], start, level - 1), SideNodes(before, indices[cut..], midpoint, level - 1);
      assert SideNodes(before, indices, start, level) + more == left + (right + more);
      RebuildsNode(before, after, leaves[..cut], indices[..cut], start, level - 1, right + more);
      RebuildsNode(before, after, leaves[cut..], indices[cut..], midpoint, level - 1, more);
    }
  }

  lemma Fits(before: seq<Hash>, after: seq<Hash>, leaves: seq<nat>, indices: seq<nat>, start: nat, level: nat)
    requires level > 0 && Replaces(before, after, leaves, indices, start, level)
    ensures start + Pow2(level - 1) + Pow2(level - 1) == start + Pow2(level) <= |before| == |after|
    ensures |leaves| == |indices|
  {
  }

  lemma UntouchedNode(before: seq<Hash>, after: seq<Hash>, leaves: seq<nat>, indices: seq<nat>, start: nat, level: nat, more: seq<Hash>)
    requires Replaces(before, after, leaves, indices, start, level) && indices == []
    ensures Rebuild(leaves, indices, start, level, SideNodes(before, indices, start, level) + more) ==
            Fine((Tree(after, start, level), more))
  {
    TreeFrame(before, after, start, level);
    assert (SideNodes(before, indices, start, level) + more)[1..] == more;
  }

  lemma LeafNode(before: seq<Hash>, after: seq<Hash>, leaves: seq<nat>, indices: seq<nat>, start: nat, more: seq<Hash>)
    requires Replaces(before, after, leaves, indices, start, 0) && indices != []
    ensures Rebuild(leaves, indices, start, 0, SideNodes(before, indices, start, 0) + more) == Fine((Tree(after, start, 0), more))
  {
    assert Pow2(0) == 1;
    if |indices| > 1 {
      FirstTwo(indices);
      assert false;
    }
    assert SideNodes(before, indices, start, 0) + more == more;
  }

  lemma FirstTwo(indices: seq<nat>)
    requires Ascending(indices) && |indices| > 1
    ensures indices[0] < indices[1]
  {
  }

  /** THEOREM (dense round trip). For any leaf count, any strictly increasing
      selection and any replacement of the selected leaves, the proof over the
      old leaves rebuilds the root of the new ones and no side node is left. */
  lemma DenseRoundTrip(before: seq<nat>, after: seq<nat>, indices: seq<nat>, leaves: seq<nat>)
    requires 0 < |before| == |after| <= U32_MAX
    requires indices != [] && Increasing(indices) && indices[|indices| - 1] < |before|
    requires |leaves| == |indices|
    requires forall k :: 0 <= k < |indices| ==> indices[k] < |after| ==> after[indices[k]] == leaves[k]
    requires forall i :: 0 <= i < |before| && i !in indices ==> before[i] == after[i]
    ensures BuildMultiproof(before, indices).Fine?
    ensures RootFromProof(leaves, BuildMultiproof(before, indices).value) == Fine(ComputeRoot(after))
  {
    IncreasingAscends(indices);
    var row, next, level := Row(before), Row(after), Height(|before|);
    forall k | 0 <= k < |indices| ensures indices[k] < |before| {
      assert k == |indices| - 1 || indices[k] < indices[|indices| - 1];
    }
    forall i | 0 <= i < |row| && i !in indices ensures row[i] == next[i] {
    }
    RebuildsNode(row, next, leaves, indices, 0, level, []);
    assert SideNodes(row, indices, 0, level) + [] == SideNodes(row, indices, 0, level);
  }
}
