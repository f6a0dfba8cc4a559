/** The pruned multiproof is the shortest there is (trees/patricia.rs). */
module PatriciaMinimal {
  import opened Keys
  import opened Results
  import opened Sorting
  import opened Types
  import opened Patricia
  import opened PatriciaShape
  import opened PatriciaProofs

  /** Canonical subtrees that keep apart from each other and from the selected
      keys, and open to exactly the unselected accounts. */
  ghost predicate Covers(nodes: seq<Commitment>, keys: seq<Key>, accounts: seq<Account>) {
    AllCanonical(nodes) && PairwiseApart(nodes) && KeysApart(keys, nodes) && LeavesOf(nodes) == Unselected(accounts, keys)
  }

  lemma LeafOf(nodes: seq<Commitment>, i: nat, j: nat)
    requires i < |nodes| && j < |Leaves(nodes[i])|
    ensures Leaves(nodes[i])[j] in LeavesOf(nodes)
  {
    LeavesOfSplit(nodes, i);
    LeavesOfSplit(nodes[i..], 1);
    assert nodes[i..][..1] == [nodes[i]];
    LeavesOfOne(nodes[i]);
  }

  lemma LeavesOfOne(node: Commitment)
    ensures LeavesOf([node]) == Leaves(node)
  {
    var none: seq<Commitment> := [];
    assert [node][1..] == none && LeavesOf(none) == [];
  }

  lemma {:induction false} UnselectedMembers(accounts: seq<Account>, keys: seq<Key>)
    ensures forall x :: x in Unselected(accounts, keys) ==> x in accounts
  {
    if accounts != [] {
      UnselectedMembers(accounts[1..], keys);
    }
  }

  /** The ends of a covering node lie below the tree's top. */
  lemma CoverInRange(nodes: seq<Commitment>, keys: seq<Key>, top: Commitment, i: nat)
    requires Canonical(top) && Covers(nodes, keys, Leaves(top)) && i < |nodes|
    ensures top.min <= nodes[i].min <= nodes[i].max <= top.max
  {
    hide Canonical, Leaves, PairwiseApart, KeysApart;
    CanonicalRange(nodes[i]);
    var mine := Leaves(nodes[i]);
    LeafOf(nodes, i, 0);
    LeafOf(nodes, i, |mine| - 1);
    UnselectedMembers(Leaves(top), keys);
    var a :| 0 <= a < |Leaves(top)| && Leaves(top)[a] == mine[0];
    var b :| 0 <= b < |Leaves(top)| && Leaves(top)[b] == mine[|mine| - 1];
    CanonicalInRange(top, a);
    CanonicalInRange(top, b);
  }

  /** A key that affects a branch agrees with it up to the branch bit. */
  lemma AffectingKey(node: Node, keys: seq<Key>) returns (k: Key)
    requires SortedKeys(keys) && Faithful(node) && node.BranchNode? && Affected(node, keys)
    ensures k in keys && node.commitment.root.depth <= DifferingBit(k, node.commitment.min)
    ensures node.commitment.root.depth == Span(node.commitment)
  {
    var c := node.commitment;
    BranchDepth(c);
    CanonicalRange(c);
    if SelectedIn(keys, c) {
      SelectedInMeans(keys, c);
      k :| k in keys && c.min <= k <= c.max;
      Between(c.min, k, c.max, Span(c));
      DifferingBitSymmetric(c.min, k);
    } else {
      var i :| 0 <= i < |keys| && LandsBelow(keys[i], c, DifferingBit(node.left.commitment.max, node.right.commitment.min));
      k := keys[i];
      if k >= c.min {
        DifferingBitSymmetric(c.min, c.max);
        SharedTransitive(k, c.max, c.min, Span(c));
      }
    }
  }

  /** No covering node spans an affected branch. */
  lemma OneSided(node: Node, keys: seq<Key>, nodes: seq<Commitment>, i: nat)
    requires SortedKeys(keys) && Faithful(node) && node.BranchNode? && Affected(node, keys)
    requires Covers(nodes, keys, Leaves(node.commitment)) && i < |nodes|
    ensures Bit(nodes[i].min, node.commitment.root.depth) == Bit(nodes[i].max, node.commitment.root.depth)
  {
    var c, n := node.commitment, nodes[i];
    var k := AffectingKey(node, keys);
    var depth := c.root.depth;
    assert KeyApart(k, n);
    CoverInRange(nodes, keys, c, i);
    Between(c.min, n.min, c.max, depth);
    Between(c.min, n.max, c.max, depth);
    if Bit(n.min, depth) != Bit(n.max, depth) {
      DifferingBitSymmetric(c.min, n.min);
      SharedTransitive(n.min, c.min, n.max, depth);
      DifferingBitUnique(n.min, n.max, depth);
      SharedTransitive(k, c.min, n.min, depth);
      SharedTransitive(k, c.min, n.max, depth);
      DifferingBitSymmetric(k, n.max);
      assert false;
    }
  }

  ghost predicate AllBit(accounts: seq<Account>, depth: nat, on: bool)
    requires depth < BITS
  {
    forall i :: 0 <= i < |accounts| ==> Bit(accounts[i].id, depth) == on
  }

  lemma BitAt(a: seq<Account>, b: seq<Account>, depth: nat, i: nat)
    requires depth < BITS && AllBit(a, depth, false) && AllBit(b, depth, true) && i < |a| + |b|
    ensures Bit((a + b)[i].id, depth) <==> i >= |a|
  {
  }

  /** Two ways to cut a list where a bit turns on are one. */
  lemma SameParts(a: seq<Account>, b: seq<Account>, x: seq<Account>, y: seq<Account>, depth: nat)
    requires depth < BITS && a + b == x + y
    requires AllBit(a, depth, false) && AllBit(x, depth, false) && AllBit(b, depth, true) && AllBit(y, depth, true)
    ensures a == x && b == y
  {
    hide AllBit;
    assert |a| + |b| == |x| + |y| by { assert |a + b| == |x + y|; }
    if |a| < |x| {
      BitAt(a, b, depth, |a|);
      BitAt(x, y, depth, |a|);
      assert false;
    } else if |x| < |a| {
      BitAt(a, b, depth, |x|);
      BitAt(x, y, depth, |x|);
      assert false;
    } else {
      assert a == (a + b)[..|a|] && b == (a + b)[|a|..] && x == (x + y)[..|x|] && y == (x + y)[|x|..];
    }
  }

  lemma {:induction false} LeavesBit(nodes: seq<Commitment>, depth: nat, on: bool)
    requires depth < BITS && AllCanonical(nodes)
    requires forall i :: 0 <= i < |nodes| ==> depth < Span(nodes[i]) && Bit(nodes[i].min, depth) == on
    ensures AllBit(LeavesOf(nodes), depth, on)
  {
    hide Canonical, Span;
    if nodes != [] {
      LeavesBit(nodes[1..], depth, on);
      forall i | 0 <= i < |Leaves(nodes[0])| ensures Bit(Leaves(nodes[0])[i].id, depth) == on {
        BelowSpan(nodes[0], depth, i);
      }
    }
  }

  lemma {:induction false} UnselectedBit(accounts: seq<Account>, keys: seq<Key>, depth: nat, on: bool)
    requires depth < BITS && AllBit(accounts, depth, on)
    ensures AllBit(Unselected(accounts, keys), depth, on)
  {
    if accounts != [] {
      UnselectedBit(accounts[1..], keys, depth, on);
    }
  }

  lemma BranchBits(node: Commitment)
    requires Canonical(node) && node.root.BranchHash?
    ensures AllBit(Leaves(node.root.left), node.root.depth, false) && AllBit(Leaves(node.root.right), node.root.depth, true)
    ensures Leaves(node) == Leaves(node.root.left) + Leaves(node.root.right)
  {
    var left, right := Leaves(node.root.left), Leaves(node.root.right);
    forall i | 0 <= i < |left| ensures !Bit(left[i].id, node.root.depth) {
      BranchBit(node, i);
      assert Leaves(node)[i] == left[i];
    }
    forall i | 0 <= i < |right| ensures Bit(right[i].id, node.root.depth) {
      BranchBit(node, |left| + i);
      assert Leaves(node)[|left| + i] == right[i];
    }
  }

  /** On which side of an affected branch each covering node lies. */
  lemma CoverSides(node: Node, keys: seq<Key>, nodes: seq<Commitment>) returns (split: nat)
    requires SortedKeys(keys) && Faithful(node) && node.BranchNode? && Affected(node, keys)
    requires Covers(nodes, keys, Leaves(node.commitment))
    ensures split <= |nodes|
    ensures forall i :: 0 <= i < |nodes| ==>
              node.commitment.root.depth < Span(nodes[i]) && (Bit(nodes[i].min, node.commitment.root.depth) <==> i >= split)
  {
    var c, depth := node.commitment, node.commitment.root.depth;
    split := SplitPoint(nodes, depth);
    forall i | 0 <= i < |nodes| ensures depth < Span(nodes[i]) && (Bit(nodes[i].min, depth) <==> i >= split) {
      OneSided(node, keys, nodes, i);
      CoverInRange(nodes, keys, c, i);
      CoverNarrow(c, nodes[i], depth);
      if i > split {
        CoverInRange(nodes, keys, c, split);
        ApartAt(nodes, split, i);
        Between(c.min, nodes[split].max, c.max, Span(c));
        Between(nodes[split].max, nodes[i].min, c.max, depth);
      }
    }
  }

  lemma CoverNarrow(top: Commitment, n: Commitment, depth: nat)
    requires Canonical(top) && top.root.BranchHash? && depth == top.root.depth < BITS
    requires top.min <= n.min <= n.max <= top.max && Bit(n.min, depth) == Bit(n.max, depth)
    ensures depth == Span(top) && depth < Span(n)
  {
    BranchDepth(top);
    Between(top.min, n.min, top.max, depth);
    Between(top.min, n.max, top.max, depth);
    DifferingBitSymmetric(top.min, n.min);
    SharedTransitive(n.min, top.min, n.max, depth);
    DifferingBitLater(n.min, n.max, depth);
  }

  /** A cover of an affected branch is a cover of each side. */
  lemma CoverParts(node: Node, keys: seq<Key>, nodes: seq<Commitment>) returns (split: nat)
    requires SortedKeys(keys) && Faithful(node) && node.BranchNode? && Affected(node, keys)
    requires Covers(nodes, keys, Leaves(node.commitment))
    ensures split <= |nodes|
    ensures Covers(nodes[..split], keys, Leaves(node.left.commitment))
    ensures Covers(nodes[split..], keys, Leaves(node.right.commitment))
  {
    hide Affected, Span, KeyApart, PairwiseApart, Leaves;
    var c, depth := node.commitment, node.commitment.root.depth;
    split := CoverSides(node, keys, nodes);
    AllCanonicalSplit(nodes, split);
    PairwiseApartSlice(nodes, split);
    LeavesBit(nodes[..split], depth, false);
    LeavesBit(nodes[split..], depth, true);
    BranchBits(c);
    UnselectedBit(Leaves(node.left.commitment), keys, depth, false);
    UnselectedBit(Leaves(node.right.commitment), keys, depth, true);
    UnselectedAppend(Leaves(node.left.commitment), Leaves(node.right.commitment), keys);
    LeavesOfSplit(nodes, split);
    SameParts(LeavesOf(nodes[..split]), LeavesOf(nodes[split..]),
              Unselected(Leaves(node.left.commitment), keys), Unselected(Leaves(node.right.commitment), keys), depth);
  }

  /** A subtree with something unselected needs at least one node. */
  lemma CoverNonEmpty(nodes: seq<Commitment>, keys: seq<Key>, accounts: seq<Account>)
    requires Covers(nodes, keys, accounts) && Unselected(accounts, keys) != []
    ensures |nodes| >= 1
  {
  }

  lemma {:induction false} SidesFewest(node: Node, keys: seq<Key>, nodes: seq<Commitment>)
    requires SortedKeys(keys) && Faithful(node) && WellFormed(node)
    requires Covers(nodes, keys, if node.Empty? then [] else Leaves(node.commitment))
    ensures |SideNodes(node, keys)| <= |nodes|
    decreases node
  {
    match node
    case Empty =>
    case LeafNode(c) =>
      hide Covers, Canonical;
      SelectedLeaf(c, keys);
      if !SelectedIn(keys, c) {
        LeavesOfOne(c);
        CanonicalRange(c);
        CoverNonEmpty(nodes, keys, Leaves(c));
      }
    case BranchNode(c, left, right) =>
      hide Covers, Canonical, Affected;
      if Affected(node, keys) {
        var split := CoverParts(node, keys, nodes);
        SidesFewest(left, keys, nodes[..split]);
        SidesFewest(right, keys, nodes[split..]);
      } else {
        UnaffectedApart(node, keys);
        WholeNode(c, keys);
        LeavesOfOne(c);
        CanonicalRange(c);
        CoverNonEmpty(nodes, keys, Leaves(c));
      }
  }

  lemma SortKeysAscend(selected: seq<Key>)
    requires SortKeys(selected).Ok?
    ensures SortedKeys(SortKeys(selected).value)
  {
    var sorted := SortKeys(selected).value;
    SortAscending(selected, KeyBefore);
    forall i, j | 0 <= i < j < |sorted| ensures sorted[i] < sorted[j] {
      assert !KeyBefore(sorted[i + 1], sorted[i]) && sorted[i] != sorted[i + 1];
      assert i + 1 == j || !KeyBefore(sorted[j], sorted[i + 1]);
    }
  }

  /** THEOREM (pruning). The proof of a set covers exactly its unselected accounts
      by canonical subtrees apart from each other and from every selected key,
      and no such cover is shorter. */
  lemma ProofIsShortest(values: seq<Account>, selected: seq<Key>, cover: seq<Commitment>)
    requires DistinctIds(values) && BuildMultiproof(values, selected).Ok?
    ensures SortAccounts(values).Ok?
    ensures var proof := BuildMultiproof(values, selected).value;
            && Covers(proof.sideNodes, proof.leafKeys, SortAccounts(values).value)
            && (Covers(cover, proof.leafKeys, SortAccounts(values).value) ==> |proof.sideNodes| <= |cover|)
  {
    hide Covers, SideNodes;
    SortAccountsDistinct(values);
    SortKeysAscend(selected);
    var sorted, proof := SortAccounts(values).value, BuildMultiproof(values, selected).value;
    BuildCanonical(sorted);
    BuildFaithful(sorted);
    BuildWellFormed(sorted);
    var tree := Build(sorted).value;
    SideNodesCover(tree, proof.leafKeys);
    SidesCover(tree, proof.leafKeys);
    if Covers(cover, proof.leafKeys, sorted) {
      SidesFewest(tree, proof.leafKeys, cover);
    }
  }

  lemma SidesCover(tree: Node, keys: seq<Key>)
    requires Faithful(tree) && SortedKeys(keys) && WellFormed(tree)
    ensures Covers(SideNodes(tree, keys), keys, if tree.Empty? then [] else Leaves(tree.commitment))
  {
    SideNodesCover(tree, keys);
  }
}
