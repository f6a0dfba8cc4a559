/** The dense tree as it runs: the level table built bottom up, side nodes
    looked up in it, and a reader that walks the nodes (trees/dmt.rs). */
module DenseTree {
  import opened Keys
  import opened Dense

  /** Where node `j` of a level starts: j times the level's width. */
  ghost function Offset(j: nat, level: nat): nat {
    if j == 0 then 0 else Offset(j - 1, level) + Pow2(level)
  }

  /** Every entry of a level is the root of the subtree it stands for. */
  ghost predicate LevelOf(row: seq<Hash>, nodes: seq<Hash>, level: nat) {
    && Offset(|nodes|, level) == |row|
    && forall j :: 0 <= j < |nodes| ==> RootAt(row, nodes[j], j, level)
  }

  ghost predicate RootAt(row: seq<Hash>, node: Hash, j: nat, level: nat) {
    Offset(j, level) + Pow2(level) <= |row| && node == Tree(row, Offset(j, level), level)
  }

  /** Two widths make one of the next level. */
  lemma {:induction false} OffsetDouble(j: nat, level: nat)
    ensures Offset(2 * j, level) == Offset(j, level + 1)
    ensures Offset(2 * j + 1, level) == Offset(j, level + 1) + Pow2(level)
  {
    if j > 0 {
      OffsetDouble(j - 1, level);
      HalfPow(level + 1);
      assert Offset(2 * j, level) == Offset(2 * j - 1, level) + Pow2(level);
      assert Offset(2 * j - 1, level) == Offset(2 * (j - 1), level) + Pow2(level);
    }
  }

  lemma {:induction false} OffsetGrows(a: nat, b: nat, level: nat)
    requires a < b
    ensures Offset(a, level) < Offset(b, level)
    decreases b
  {
    if a < b - 1 {
      OffsetGrows(a, b - 1, level);
    }
  }

  lemma {:induction false} OffsetIsProduct(j: nat, level: nat)
    ensures Offset(j, level) == j * Pow2(level)
  {
    if j > 0 {
      OffsetIsProduct(j - 1, level);
      OneMore(j - 1, Pow2(level));
    }
  }

  lemma OneMore(j: nat, w: nat)
    ensures j * w + w == (j + 1) * w
  {
  }

  /** A power of two is made of smaller ones, an even number of them. */
  lemma {:induction false} OffsetOfPower(level: nat, height: nat)
    requires level <= height
    ensures Offset(Pow2(height - level), level) == Pow2(height)
    decreases height - level
  {
    if level == height {
      assert Pow2(0) == 1;
      assert Offset(1, level) == Offset(0, level) + Pow2(level);
    } else {
      OffsetOfPower(level + 1, height);
      HalfPow(height - level);
      OffsetDouble(Pow2(height - level - 1), level);
    }
  }

  /** One level up, entry by entry. */
  lemma PairUp(row: seq<Hash>, nodes: seq<Hash>, level: nat, j: nat)
    requires LevelOf(row, nodes, level) && 2 * j + 1 < |nodes|
    ensures RootAt(row, NodeOf(nodes[2 * j], nodes[2 * j + 1]), j, level + 1)
  {
    hide Pow2, Offset;
    HalfPow(level + 1);
    OffsetDouble(j, level);
    assert RootAt(row, nodes[2 * j], 2 * j, level) && RootAt(row, nodes[2 * j + 1], 2 * j + 1, level);
  }

  /** chunks_exact(2): pairs of neighbours. */
  method NextLevel(ghost row: seq<Hash>, previous: seq<Hash>, ghost level: nat) returns (next: seq<Hash>)
    requires LevelOf(row, previous, level) && |previous| % 2 == 0
    ensures LevelOf(row, next, level + 1) && |next| == |previous| / 2
  {
    next := [];
    for j := 0 to |previous| / 2
      invariant |next| == j
      invariant forall k :: 0 <= k < j ==> next[k] == NodeOf(previous[2 * k], previous[2 * k + 1])
    {
      next := next + [NodeOf(previous[2 * j], previous[2 * j + 1])];
    }
    PairsAreLevel(row, previous, next, level);
  }

  lemma PairsAreLevel(row: seq<Hash>, previous: seq<Hash>, next: seq<Hash>, level: nat)
    requires LevelOf(row, previous, level) && |previous| == 2 * |next|
    requires forall k :: 0 <= k < |next| ==> next[k] == NodeOf(previous[2 * k], previous[2 * k + 1])
    ensures LevelOf(row, next, level + 1)
  {
    hide Pow2, Offset, Tree;
    OffsetDouble(|next|, level);
    forall j | 0 <= j < |next| ensures RootAt(row, next[j], j, level + 1) {
      PairUp(row, previous, level, j);
    }
  }

  ghost predicate LevelsOf(row: seq<Hash>, levels: seq<seq<Hash>>) {
    forall k :: 0 <= k < |levels| ==> LevelOf(row, levels[k], k)
  }

  /** A level of more than one node has an even number of them. */
  lemma SplitsEvenly(count: nat, level: nat, height: nat)
    requires Offset(count, level) == Pow2(height) && level <= height && count > 1
    ensures level < height && count % 2 == 0
  {
    hide Pow2, Offset;
    OffsetOfPower(level, height);
    var n := Pow2(height - level);
    if count < n {
      OffsetGrows(count, n, level);
      assert false;
    } else if n < count {
      OffsetGrows(n, count, level);
      assert false;
    }
    if level == height {
      PowZero();
      assert false;
    }
    HalfPow(height - level);
  }

  lemma PowZero()
    ensures Pow2(0) == 1
  {
  }

  /** The table from the leaves up to a single root. */
  method BuildLevels(leaves: seq<nat>) returns (levels: seq<seq<Hash>>)
    ensures LevelsOf(Row(leaves), levels)
    ensures |levels| == Height(|leaves|) + 1 && |levels[|levels| - 1]| == 1
  {
    hide LevelOf, Pow2, Row, Height;
    ghost var row, height := Row(leaves), Height(|leaves|);
    var level: seq<Hash> := Row(leaves);
    BottomLevel(row);
    levels := [level];
    while |levels[|levels| - 1]| > 1
      invariant 0 < |levels| <= height + 1
      invariant LevelsOf(row, levels)
      decreases height + 1 - |levels|
    {
      ghost var k := |levels| - 1;
      var previous := levels[|levels| - 1];
      LevelSize(row, previous, k);
      SplitsEvenly(|previous|, k, height);
      var next := NextLevel(row, previous, k);
      levels := levels + [next];
    }
    LevelSize(row, levels[|levels| - 1], |levels| - 1);
    RootAlone(|levels[|levels| - 1]|, |levels| - 1, height);
  }

  lemma BottomLevel(row: seq<Hash>)
    ensures LevelOf(row, row, 0)
  {
    PowZero();
    forall j: nat ensures Offset(j, 0) == j {
      OffsetIsProduct(j, 0);
    }
  }

  lemma LevelSize(row: seq<Hash>, nodes: seq<Hash>, level: nat)
    requires LevelOf(row, nodes, level)
    ensures Offset(|nodes|, level) == |row|
  {
  }

  lemma RootAlone(count: nat, level: nat, height: nat)
    requires count <= 1 && Offset(count, level) == Pow2(height) && level <= height
    ensures count == 1 && level == height
  {
    if count == 1 && level < height {
      assert Offset(1, level) == Offset(0, level) + Pow2(level);
      PowersGrow(level, height - 1);
      assert false;
    }
  }

  lemma {:induction false} PowersGrow(a: nat, b: nat)
    requires a <= b
    ensures Pow2(a) <= Pow2(b) < Pow2(b + 1)
    decreases b
  {
    if a < b {
      PowersGrow(a, b - 1);
    }
  }

  /** The table lookup by level and position `start / width`. */
  method SubtreeRoot(ghost row: seq<Hash>, levels: seq<seq<Hash>>, start: nat, level: nat, ghost j: nat) returns (root: Hash)
    requires LevelsOf(row, levels) && level < |levels|
    requires start == Offset(j, level) && start + Pow2(level) <= |row|
    ensures root == Tree(row, start, level)
  {
    hide Pow2, Tree, Offset, LevelOf;
    PositionInLevel(row, levels[level], j, level);
    root := levels[level][start / Pow2(level)];
  }

  lemma PositionInLevel(row: seq<Hash>, nodes: seq<Hash>, j: nat, level: nat)
    requires LevelOf(row, nodes, level) && Offset(j, level) + Pow2(level) <= |row|
    ensures j < |nodes| && Offset(j, level) / Pow2(level) == j
    ensures nodes[j] == Tree(row, Offset(j, level), level)
  {
    hide Pow2, Tree, Offset;
    OffsetIsProduct(j, level);
    QuotientUnique(Offset(j, level), Pow2(level), j, 0);
    if j > |nodes| {
      OffsetGrows(|nodes|, j, level);
      assert false;
    }
    assert j < |nodes|;
    assert RootAt(row, nodes[j], j, level);
  }

  lemma SideNodesCases(row: seq<Hash>, selected: seq<nat>, start: nat, level: nat)
    requires start + Pow2(level) <= |row|
    ensures selected == [] ==> SideNodes(row, selected, start, level) == [Tree(row, start, level)]
    ensures selected != [] && level == 0 ==> SideNodes(row, selected, start, level) == []
    ensures level > 0 ==> start + Pow2(level - 1) + Pow2(level - 1) <= |row|
    ensures selected != [] && level > 0 ==>
              var midpoint := start + Pow2(level - 1);
              var cut := Cut(selected, midpoint);
              SideNodes(row, selected, start, level) ==
              SideNodes(row, selected[..cut], start, level - 1) + SideNodes(row, selected[cut..], midpoint, level - 1)
  {
    hide Tree;
  }

  /** Appends the side nodes of a subtree, read off the table. */
  method BuildSideNodes(ghost row: seq<Hash>, levels: seq<seq<Hash>>, selected: seq<nat>, start: nat, level: nat,
                        output: seq<Hash>, ghost j: nat)
    returns (collected: seq<Hash>)
    requires LevelsOf(row, levels) && level < |levels|
    requires start == Offset(j, level) && start + Pow2(level) <= |row|
    ensures collected == output + SideNodes(row, selected, start, level)
    decreases level
  {
    hide Pow2, Tree, LevelsOf, SideNodes, Offset;
    SideNodesCases(row, selected, start, level);
    if selected == [] {
      var root := SubtreeRoot(row, levels, start, level, j);
      return output + [root];
    }
    if level == 0 {
      return output;
    }
    var midpoint := start + Pow2(level - 1);
    var cut := Cut(selected, midpoint);
    OffsetDouble(j, level - 1);
    collected := BuildSideNodes(row, levels, selected[..cut], start, level - 1, output, 2 * j);
    collected := BuildSideNodes(row, levels, selected[cut..], midpoint, level - 1, collected, 2 * j + 1);
  }

  /** A reader over the side nodes. */
  class NodeReader {
    const nodes: seq<Hash>
    var cursor: nat

    constructor (sides: seq<Hash>)
      ensures nodes == sides && cursor == 0
    {
      nodes, cursor := sides, 0;
    }

    method TreeRoot(leaves: seq<nat>, indices: seq<nat>, start: nat, level: nat) returns (r: Outcome<Hash>)
      requires |leaves| == |indices| && cursor <= |nodes|
      modifies this
      ensures cursor <= |nodes|
      ensures match Rebuild(leaves, indices, start, level, old(nodes[cursor..]))
              case Fine(p) => r == Fine(p.0) && nodes[cursor..] == p.1
              case Refused(e) => r == Refused(e)
      decreases level
    {
      hide Pow2, Rebuild;
      RebuildCases(leaves, indices, start, level, nodes[cursor..]);
      if indices == [] {
        if cursor == |nodes| {
          return Refused(BadMultiproof);
        }
        cursor := cursor + 1;
        return Fine(nodes[cursor - 1]);
      }
      if level == 0 {
        if |indices| != 1 || indices[0] != start {
          return Refused(BadMultiproof);
        }
        return Fine(LeafOf(leaves[0]));
      }
      var midpoint := start + Pow2(level - 1);
      var cut := Cut(indices, midpoint);
      var left := TreeRoot(leaves[..cut], indices[..cut], start, level - 1);
      if left.Refused? {
        return left;
      }
      var right := TreeRoot(leaves[cut..], indices[cut..], midpoint, level - 1);
      if right.Refused? {
        return right;
      }
      r := Fine(NodeOf(left.value, right.value));
    }
  }

  lemma RebuildCases(leaves: seq<nat>, indices: seq<nat>, start: nat, level: nat, sides: seq<Hash>)
    requires |leaves| == |indices|
    ensures indices == [] ==>
              Rebuild(leaves, indices, start, level, sides) ==
              if sides == [] then Refused(BadMultiproof) else Fine((sides[0], sides[1..]))
    ensures indices != [] && level == 0 ==>
              Rebuild(leaves, indices, start, level, sides) ==
              if |indices| != 1 || indices[0] != start then Refused(BadMultiproof) else Fine((LeafOf(leaves[0]), sides))
    ensures indices != [] && level > 0 ==>
              var midpoint := start + Pow2(level - 1);
              var cut := Cut(indices, midpoint);
              var left := Rebuild(leaves[..cut], indices[..cut], start, level - 1, sides);
              Rebuild(leaves, indices, start, level, sides) ==
              if left.Refused? then left
              else
                var right := Rebuild(leaves[cut..], indices[cut..], midpoint, level - 1, left.value.1);
                if right.Refused? then right else Fine((NodeOf(left.value.0, right.value.0), right.value.1))
  {
  }

  // ----- the tree's entry points

  method ComputeRoot(leaves: seq<nat>) returns (root: Hash)
    requires |leaves| <= U32_MAX
    ensures root == Dense.ComputeRoot(leaves)
  {
    var levels := BuildLevels(leaves);
    TopIsTree(Row(leaves), levels, Height(|leaves|));
    root := RootOf(|leaves|, levels[|levels| - 1][0]);
  }

  lemma TopIsTree(row: seq<Hash>, levels: seq<seq<Hash>>, height: nat)
    requires LevelsOf(row, levels) && |levels| == height + 1 && |levels[height]| == 1 && |row| == Pow2(height)
    ensures levels[height][0] == Tree(row, 0, height)
  {
    assert LevelOf(row, levels[height], height);
    assert RootAt(row, levels[height][0], 0, height);
  }

  method BuildMultiproof(leaves: seq<nat>, indices: seq<nat>) returns (r: Outcome<DenseProof>)
    ensures r == Dense.BuildMultiproof(leaves, indices)
  {
    if |leaves| > U32_MAX {
      return Refused(TooManyLeaves);
    }
    if |leaves| == 0 || indices == [] || !Increasing(indices) || indices[|indices| - 1] >= |leaves| {
      return Refused(BadMultiproof);
    }
    var levels := BuildLevels(leaves);
    var sides := BuildSideNodes(Row(leaves), levels, indices, 0, Height(|leaves|), [], 0);
    assert [] + SideNodes(Row(leaves), indices, 0, Height(|leaves|)) == SideNodes(Row(leaves), indices, 0, Height(|leaves|));
    r := Fine(DenseProof(|leaves|, indices, sides));
  }

  method ComputeRootFromProof(leaves: seq<nat>, proof: DenseProof) returns (r: Outcome<Hash>)
    ensures r == Dense.RootFromProof(leaves, proof)
  {
    var indices := proof.leafIndices;
    if |leaves| != |indices| || proof.leafCount == 0 || !Increasing(indices)
       || (indices != [] && indices[|indices| - 1] >= proof.leafCount) {
      return Refused(BadMultiproof);
    }
    var reader := new NodeReader(proof.sideNodes);
    var tree := reader.TreeRoot(leaves, indices, 0, Height(proof.leafCount));
    if tree.Refused? {
      return Refused(tree.error);
    }
    if reader.cursor < |reader.nodes| {
      return Refused(BadMultiproof);
    }
    r := Fine(RootOf(proof.leafCount, tree.value));
  }
}
