/** What a dense root and an accepted dense proof stand for. */
module DenseAuthentic {
  import opened Keys
  import opened Dense

  /** The hashes at the bottom of a tree so many levels high, left to right. */
  function Bottom(tree: Hash, level: nat): seq<Hash>
    decreases level
  {
    if level == 0 then [tree]
    else if tree.NodeOf? then Bottom(tree.left, level - 1) + Bottom(tree.right, level - 1)
    else []
  }

  lemma JoinSlices<T>(row: seq<T>, a: nat, b: nat, c: nat)
    requires a <= b <= c <= |row|
    ensures row[a..b] + row[b..c] == row[a..c]
  {
  }

  /** A tree over a row has the row at its bottom. */
  lemma {:induction false} TreeBottom(row: seq<Hash>, start: nat, level: nat)
    requires start + Pow2(level) <= |row|
    ensures Bottom(Tree(row, start, level), level) == row[start..start + Pow2(level)]
    decreases level
  {
    if level > 0 {
      HalfPow(level);
      var midpoint := start + Pow2(level - 1);
      TreeBottom(row, start, level - 1);
      TreeBottom(row, midpoint, level - 1);
      JoinSlices(row, start, midpoint, midpoint + Pow2(level - 1));
    }
  }

  /** THEOREM. A dense root records the number of leaves and opens, left to
      right, to their hashes and then empty leaves, up to the least power of two. */
  lemma RootOpens(leaves: seq<nat>)
    requires |leaves| <= U32_MAX
    ensures var root := ComputeRoot(leaves);
            && root.RootOf? && root.count == |leaves|
            && var bottom := Bottom(root.tree, Height(|leaves|));
            && |bottom| == Pow2(Height(|leaves|)) >= |leaves|
            && forall i :: 0 <= i < |bottom| ==> bottom[i] == if i < |leaves| then LeafOf(leaves[i]) else EmptyLeaf
  {
    var row := Row(leaves);
    TreeBottom(row, 0, Height(|leaves|));
    assert row[0..|row|] == row;
  }

  /** THEOREM (binding). Two lists have the same dense root exactly when they
      are the same list. */
  lemma DenseBinds(a: seq<nat>, b: seq<nat>)
    requires |a| <= U32_MAX && |b| <= U32_MAX
    ensures ComputeRoot(a) == ComputeRoot(b) <==> a == b
  {
    hide ComputeRoot;
    RootOpens(a);
    RootOpens(b);
    if ComputeRoot(a) == ComputeRoot(b) {
      var bottom := Bottom(ComputeRoot(a).tree, Height(|a|));
      forall i | 0 <= i < |a| ensures a[i] == b[i] {
        assert bottom[i] == LeafOf(a[i]) == LeafOf(b[i]);
      }
    }
  }

  /** The leaves stand at these places of the row. */
  predicate LeavesAt(row: seq<Hash>, leaves: seq<nat>, indices: seq<nat>) {
    |leaves| == |indices| && forall k :: 0 <= k < |indices| ==> indices[k] < |row| && row[indices[k]] == LeafOf(leaves[k])
  }

  lemma LeavesAtHalves(row: seq<Hash>, leaves: seq<nat>, indices: seq<nat>, cut: nat)
    requires cut <= |indices| == |leaves|
    ensures LeavesAt(row, leaves, indices) <==>
              LeavesAt(row, leaves[..cut], indices[..cut]) && LeavesAt(row, leaves[cut..], indices[cut..])
  {
    if LeavesAt(row, leaves[..cut], indices[..cut]) && LeavesAt(row, leaves[cut..], indices[cut..]) {
      forall k | 0 <= k < |indices| ensures indices[k] < |row| && row[indices[k]] == LeafOf(leaves[k]) {
        if k < cut {
          assert indices[..cut][k] == indices[k] && leaves[..cut][k] == leaves[k];
        } else {
          assert indices[cut..][k - cut] == indices[k] && leaves[cut..][k - cut] == leaves[k];
        }
      }
    }
  }

  ghost predicate Inside(indices: seq<nat>, start: nat, level: nat) {
    forall k :: 0 <= k < |indices| ==> start <= indices[k] < start + Pow2(level)
  }

  lemma InsideHalves(indices: seq<nat>, start: nat, level: nat)
    requires level > 0 && Ascending(indices) && Inside(indices, start, level)
    ensures var midpoint := start + Pow2(level - 1);
            var cut := Cut(indices, midpoint);
            && midpoint + Pow2(level - 1) == start + Pow2(level)
            && Ascending(indices[..cut]) && Ascending(indices[cut..])
            && Inside(indices[..cut], start, level - 1) && Inside(indices[cut..], midpoint, level - 1)
  {
    hide Pow2;
    HalfPow(level);
    CutSplits(indices, start + Pow2(level - 1));
  }

  /** What an inner node with selected leaves is made of. */
  lemma InnerNode(row: seq<Hash>, leaves: seq<nat>, indices: seq<nat>, start: nat, level: nat, sides: seq<Hash>)
    requires |leaves| == |indices| > 0 && level > 0 && start + Pow2(level) <= |row|
    ensures var midpoint := start + Pow2(level - 1);
            var cut := Cut(indices, midpoint);
            && midpoint + Pow2(level - 1) <= |row|
            && Tree(row, start, level) == NodeOf(Tree(row, start, level - 1), Tree(row, midpoint, level - 1))
            && SideNodes(row, indices, start, level) ==
                 SideNodes(row, indices[..cut], start, level - 1) + SideNodes(row, indices[cut..], midpoint, level - 1)
            && var left := Rebuild(leaves[..cut], indices[..cut], start, level - 1, sides);
            && (left.Refused? ==> Rebuild(leaves, indices, start, level, sides).Refused?)
            && (left.Fine? ==>
                  var right := Rebuild(leaves[cut..], indices[cut..], midpoint, level - 1, left.value.1);
                  && (right.Refused? ==> Rebuild(leaves, indices, start, level, sides).Refused?)
                  && (right.Fine? ==>
                        Rebuild(leaves, indices, start, level, sides) == Fine((NodeOf(left.value.0, right.value.0), right.value.1))))
  {
    HalfPow(level);
  }

  lemma SideAuthentic(row: seq<Hash>, leaves: seq<nat>, indices: seq<nat>, start: nat, level: nat, sides: seq<Hash>, rest: seq<Hash>)
    requires |leaves| == |indices| == 0 && start + Pow2(level) <= |row|
    ensures Rebuild(leaves, indices, start, level, sides) == Fine((Tree(row, start, level), rest)) <==>
              LeavesAt(row, leaves, indices) && sides == SideNodes(row, indices, start, level) + rest
  {
    hide Tree;
    assert ([Tree(row, start, level)] + rest)[1..] == rest;
    assert sides != [] ==> sides == [sides[0]] + sides[1..];
  }

  /** Whatever side nodes rebuild a node of the tree, they are the tree's own and
      the leaves are the ones below it; and those do rebuild it. */
  lemma {:induction false} NodeAuthentic(row: seq<Hash>, leaves: seq<nat>, indices: seq<nat>, start: nat, level: nat, sides: seq<Hash>,
                                         rest: seq<Hash>)
    requires |leaves| == |indices| && start + Pow2(level) <= |row| && Ascending(indices) && Inside(indices, start, level)
    ensures Rebuild(leaves, indices, start, level, sides) == Fine((Tree(row, start, level), rest)) <==>
              LeavesAt(row, leaves, indices) && sides == SideNodes(row, indices, start, level) + rest
    decreases level
  {
    hide Rebuild, SideNodes, Tree, Pow2, LeavesAt, Ascending, Inside, Cut;
    if indices == [] {
      SideAuthentic(row, leaves, indices, start, level, sides, rest);
    } else if level == 0 {
      LeafAuthentic(row, leaves, indices, start, sides, rest);
    } else {
      InnerNode(row, leaves, indices, start, level, sides);
      InsideHalves(indices, start, level);
      var midpoint := start + Pow2(level - 1);
      var cut := Cut(indices, midpoint);
      LeavesAtHalves(row, leaves, indices, cut);
      var left, right := SideNodes(row, indices[..cut], start, level - 1), SideNodes(row, indices[cut..], midpoint, level - 1);
      Regroup(left, right, rest);
      var first := Rebuild(leaves[..cut], indices[..cut], start, level - 1, sides);
      if first.Fine? {
        NodeAuthentic(row, leaves[..cut], indices[..cut], start, level - 1, sides, first.value.1);
        NodeAuthentic(row, leaves[cut..], indices[cut..], midpoint, level - 1, first.value.1, rest);
      }
      NodeAuthentic(row, leaves[..cut], indices[..cut], start, level - 1, sides, right + rest);
    }
  }

  lemma Regroup(a: seq<Hash>, b: seq<Hash>, c: seq<Hash>)
    ensures (a + b) + c == a + (b + c)
  {
  }

  lemma LeafAuthentic(row: seq<Hash>, leaves: seq<nat>, indices: seq<nat>, start: nat, sides: seq<Hash>, rest: seq<Hash>)
    requires |leaves| == |indices| > 0 && start + Pow2(0) <= |row| && Ascending(indices) && Inside(indices, start, 0)
    ensures Rebuild(leaves, indices, start, 0, sides) == Fine((Tree(row, start, 0), rest)) <==>
              LeavesAt(row, leaves, indices) && sides == SideNodes(row, indices, start, 0) + rest
  {
    assert Pow2(0) == 1;
    assert indices[0] == start;
    if |indices| > 1 {
      FirstTwo(indices);
      assert false;
    }
    assert [] + rest == rest;
  }

  /** THEOREM (which proofs a dense root accepts). Whoever made the proof, it
      yields the root of a list for the supplied leaves exactly when it names the
      list's length and strictly increasing places in it, carries the side nodes
      the writer makes for those places and no others, and the supplied leaves
      are the list's own at those places. */
  lemma DenseProofsExactly(all: seq<nat>, leaves: seq<nat>, proof: DenseProof)
    requires |all| <= U32_MAX
    ensures RootFromProof(leaves, proof) == Fine(ComputeRoot(all)) <==>
              && proof.leafCount == |all| > 0 && Increasing(proof.leafIndices)
              && |leaves| == |proof.leafIndices|
              && (forall k :: 0 <= k < |leaves| ==> proof.leafIndices[k] < |all| && leaves[k] == all[proof.leafIndices[k]])
              && proof.sideNodes == SideNodes(Row(all), proof.leafIndices, 0, Height(|all|))
  {
    var indices := proof.leafIndices;
    hide Pow2, Height, SideNodes, Rebuild, Row, Tree;
    if |leaves| == |indices| && Increasing(indices) && proof.leafCount == |all| > 0 {
      IncreasingAscends(indices);
      if indices == [] || indices[|indices| - 1] < |all| {
        LastBounds(indices, |all|);
        ListAuthentic(all, leaves, indices, proof.sideNodes);
      }
    }
  }

  lemma LastBounds(indices: seq<nat>, count: nat)
    requires Ascending(indices) && (indices == [] || indices[|indices| - 1] < count)
    ensures forall k :: 0 <= k < |indices| ==> indices[k] < count
  {
    forall k | 0 <= k < |indices| ensures indices[k] < count {
      assert k == |indices| - 1 || indices[k] < indices[|indices| - 1];
    }
  }

  lemma ListAuthentic(all: seq<nat>, leaves: seq<nat>, indices: seq<nat>, sides: seq<Hash>)
    requires |leaves| == |indices| && Ascending(indices) && forall k :: 0 <= k < |indices| ==> indices[k] < |all|
    ensures Rebuild(leaves, indices, 0, Height(|all|), sides) == Fine((Tree(Row(all), 0, Height(|all|)), [])) <==>
              && (forall k :: 0 <= k < |leaves| ==> leaves[k] == all[indices[k]])
              && sides == SideNodes(Row(all), indices, 0, Height(|all|))
  {
    hide Pow2, Height, SideNodes, Rebuild, Tree, Row;
    var row, level := Row(all), Height(|all|);
    NodeAuthentic(row, leaves, indices, 0, level, sides, []);
    assert SideNodes(row, indices, 0, level) + [] == SideNodes(row, indices, 0, level);
    assert forall k :: 0 <= k < |indices| ==> row[indices[k]] == LeafOf(all[indices[k]]);
  }
}
