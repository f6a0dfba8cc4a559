/** What the multiproofs guarantee: one proof rebuilds the old root and the root
    of every change confined to its keys, and no proof can lie about its keys. */
module PatriciaProofs {
  import opened Keys
  import opened Results
  import opened Sorting
  import opened Types
  import opened Patricia
  import opened PatriciaShape

  /** The selected key lies outside the node's prefix, on one side or the other. */
  predicate KeyApart(key: Key, node: Commitment) {
    || (key < node.min && DifferingBit(key, node.min) < Span(node))
    || (node.max < key && DifferingBit(node.max, key) < Span(node))
  }

  ghost predicate KeysApart(keys: seq<Key>, nodes: seq<Commitment>) {
    forall k, i :: k in keys && 0 <= i < |nodes| ==> KeyApart(k, nodes[i])
  }

  ghost predicate Within(nodes: seq<Commitment>, lo: Key, hi: Key) {
    forall i :: 0 <= i < |nodes| ==> lo <= nodes[i].min && nodes[i].max <= hi
  }

  function Unselected(values: seq<Account>, keys: seq<Key>): seq<Account> {
    if values == [] then []
    else if values[0].id in keys then Unselected(values[1..], keys)
    else [values[0]] + Unselected(values[1..], keys)
  }

  lemma UnselectedMembers(values: seq<Account>, keys: seq<Key>)
    ensures forall a :: a in Unselected(values, keys) <==> a in values && a.id !in keys
  {
  }

  lemma {:induction false} UnselectedAppend(a: seq<Account>, b: seq<Account>, keys: seq<Key>)
    ensures Unselected(a + b, keys) == Unselected(a, keys) + Unselected(b, keys)
  {
    if a == [] {
      assert a + b == b;
    } else {
      UnselectedAppend(a[1..], b, keys);
      assert (a + b)[0] == a[0] && (a + b)[1..] == a[1..] + b;
      var head := if a[0].id in keys then [] else [a[0]];
      assert head + (Unselected(a[1..], keys) + Unselected(b, keys)) == (head + Unselected(a[1..], keys)) + Unselected(b, keys);
    }
  }

  lemma UnselectedNone(values: seq<Account>, keys: seq<Key>)
    requires forall a :: a in values ==> a.id !in keys
    ensures Unselected(values, keys) == values
  {
  }

  // ----- sorting

  function IdOf(account: Account): Key {
    account.id
  }

  lemma SortAccountsDistinct(values: seq<Account>)
    ensures SortAccounts(values).Ok? <==> DistinctIds(values)
    ensures SortAccounts(values).Ok? ==>
              && SortedById(SortAccounts(values).value)
              && multiset(SortAccounts(values).value) == multiset(values)
              && forall a :: a in SortAccounts(values).value <==> a in values
  {
    var sorted := Sort(values, AccountBefore);
    SortAscending(values, AccountBefore);
    SameElements(sorted, values);
    forall i, j | 0 <= i < j < |sorted| ensures sorted[i].id <= sorted[j].id {
      assert !AccountBefore(sorted[j], sorted[i]);
    }
    if SortAccounts(values).Ok? {
      forall i, j | 0 <= i < j < |sorted| ensures sorted[i].id < sorted[j].id {
        assert sorted[i].id <= sorted[i + 1].id && sorted[i].id != sorted[i + 1].id;
        assert i + 1 == j || sorted[i + 1].id <= sorted[j].id;
      }
      DistinctPermutes(sorted, values, IdOf);
    } else if DistinctIds(values) {
      DistinctPermutes(values, sorted, IdOf);
      assert false;
    }
  }

  lemma SortedUnique(a: seq<Account>, b: seq<Account>)
    requires SortedById(a) && SortedById(b)
    requires forall x :: x in a <==> x in b
    ensures a == b
  {
    StrictlyAscendingUnique(a, b, AccountBefore);
  }

  lemma SortKeysDistinct(keys: seq<Key>)
    requires forall i, j :: 0 <= i < j < |keys| ==> keys[i] != keys[j]
    ensures SortKeys(keys).Ok? && SortedKeys(SortKeys(keys).value)
    ensures multiset(SortKeys(keys).value) == multiset(keys)
    ensures forall k :: k in SortKeys(keys).value <==> k in keys
  {
    var sorted := Sort(keys, KeyBefore);
    SortAscending(keys, KeyBefore);
    SameElements(sorted, keys);
    DistinctPermutes(keys, sorted, Identity);
    forall i, j | 0 <= i < j < |sorted| ensures sorted[i] < sorted[j] {
      assert !KeyBefore(sorted[j], sorted[i]) && Identity(sorted[i]) != Identity(sorted[j]);
    }
  }

  // ----- the writer

  lemma SelectedInMeans(keys: seq<Key>, node: Commitment)
    requires SortedKeys(keys)
    ensures SelectedIn(keys, node) <==> exists k :: k in keys && node.min <= k <= node.max
  {
    var index := FirstNotBelow(keys, node.min);
    if SelectedIn(keys, node) {
      assert keys[index] in keys;
    } else {
      forall k | k in keys ensures !(node.min <= k <= node.max) {
        var i :| 0 <= i < |keys| && keys[i] == k;
        if index < i {
          assert keys[index] < keys[i];
        }
      }
    }
  }

  /** A branch that no selected key affects keeps every selected key apart. */
  lemma UnaffectedApart(node: Node, keys: seq<Key>)
    requires SortedKeys(keys)
    requires Faithful(node) && node.BranchNode?
    requires !Affected(node, keys)
    ensures KeysApart(keys, [node.commitment])
    ensures forall k :: k in keys ==> !(node.commitment.min <= k <= node.commitment.max)
  {
    var c := node.commitment;
    SelectedInMeans(keys, c);
    CanonicalRange(c);
    BranchDepth(c);
    forall k | k in keys ensures KeyApart(k, c) {
      var i :| 0 <= i < |keys| && keys[i] == k;
      assert !LandsBelow(keys[i], c, c.root.depth);
      DifferingBitSymmetric(c.max, k);
    }
  }

  /** Nodes below two sibling subtrees are apart. */
  lemma SiblingsApart(a: Commitment, b: Commitment, left: Commitment, right: Commitment, depth: nat)
    requires left.min <= a.min <= a.max <= left.max
    requires right.min <= b.min <= b.max <= right.max
    requires Joins(left, right, depth)
    ensures Apart(a, b)
  {
    BitInside(left.min, a.max, left.max, depth);
    BitInside(left.min, a.min, a.max, depth);
    BitInside(right.min, b.min, right.max, depth);
    BitInside(b.min, b.max, right.max, depth);
    DifferingBitSymmetric(b.min, right.min);
    SharedTransitive(a.max, left.max, right.min, depth);
    SharedTransitive(a.max, right.min, b.min, depth);
    DifferingBitUnique(a.max, b.min, depth);
  }

  lemma {:induction false} PairwiseApartAppend(a: seq<Commitment>, b: seq<Commitment>)
    requires PairwiseApart(a) && PairwiseApart(b)
    requires forall i, j :: 0 <= i < |a| && 0 <= j < |b| ==> Apart(a[i], b[j])
    ensures PairwiseApart(a + b)
  {
    hide Apart;
    if a == [] {
      assert a + b == b;
    } else {
      PairwiseApartAppend(a[1..], b);
      assert (a + b)[1..] == a[1..] + b;
      forall j | 0 <= j < |a[1..] + b| ensures Apart(a[0], (a[1..] + b)[j]) {
        if j < |a| - 1 {
          assert (a[1..] + b)[j] == a[1..][j];
        }
      }
    }
  }

  /** The emitted side nodes are canonical subtrees that open to exactly the
      unselected accounts and keep apart from each other and from every key. */
  lemma {:induction false} SideNodesCover(node: Node, keys: seq<Key>)
    requires Faithful(node) && SortedKeys(keys) && WellFormed(node)
    ensures var sides := SideNodes(node, keys);
            && AllCanonical(sides)
            && PairwiseApart(sides)
            && KeysApart(keys, sides)
            && (!node.Empty? ==> Within(sides, node.commitment.min, node.commitment.max))
            && LeavesOf(sides) == if node.Empty? then [] else Unselected(Leaves(node.commitment), keys)
  {
    match node
    case Empty =>
    case LeafNode(c) =>
      SelectedLeaf(c, keys);
    case BranchNode(c, left, right) =>
      if Affected(node, keys) {
        SideNodesCover(left, keys);
        SideNodesCover(right, keys);
        SideNodesJoin(node, keys);
      } else {
        UnaffectedApart(node, keys);
        WholeNode(c, keys);
      }
  }

  /** A whole subtree none of whose keys is selected. */
  lemma WholeNode(c: Commitment, keys: seq<Key>)
    requires Canonical(c)
    requires forall k :: k in keys ==> !(c.min <= k <= c.max)
    ensures PairwiseApart([c]) && LeavesOf([c]) == Unselected(Leaves(c), keys)
  {
    hide Canonical, Span, Apart;
    CanonicalRange(c);
    forall a | a in Leaves(c) ensures a.id !in keys {
      var i :| 0 <= i < |Leaves(c)| && Leaves(c)[i] == a;
      CanonicalInRange(c, i);
    }
    UnselectedNone(Leaves(c), keys);
    LeavesOfSplit([c], 1);
  }

  lemma SelectedLeaf(c: Commitment, keys: seq<Key>)
    requires Canonical(c) && c.root.LeafHash? && SortedKeys(keys)
    ensures c.min == c.max
    ensures SelectedIn(keys, c) ==> Unselected(Leaves(c), keys) == []
    ensures !SelectedIn(keys, c) ==>
              PairwiseApart([c]) && KeysApart(keys, [c]) && LeavesOf([c]) == Unselected(Leaves(c), keys)
  {
    LeafOrBranch(c);
    SelectedInMeans(keys, c);
    assert Leaves(c) == [Leaves(c)[0]];
    if !SelectedIn(keys, c) {
      WholeNode(c, keys);
    }
  }

  lemma SideNodesJoin(node: Node, keys: seq<Key>)
    requires node.BranchNode? && Faithful(node) && WellFormed(node)
    requires forall child {:trigger Faithful(child)} :: child == node.left || child == node.right ==>
               var sides := SideNodes(child, keys);
               && AllCanonical(sides) && PairwiseApart(sides) && KeysApart(keys, sides)
               && Within(sides, child.commitment.min, child.commitment.max)
               && LeavesOf(sides) == Unselected(Leaves(child.commitment), keys)
    ensures var sides := SideNodes(node.left, keys) + SideNodes(node.right, keys);
            && AllCanonical(sides) && PairwiseApart(sides) && KeysApart(keys, sides)
            && Within(sides, node.commitment.min, node.commitment.max)
            && LeavesOf(sides) == Unselected(Leaves(node.commitment), keys)
  {
    var left, right := node.left.commitment, node.right.commitment;
    var ls, rs := SideNodes(node.left, keys), SideNodes(node.right, keys);
    assert Faithful(node.left) && Faithful(node.right);
    CanonicalRange(left);
    CanonicalRange(right);
    forall i, j | 0 <= i < |ls| && 0 <= j < |rs| ensures Apart(ls[i], rs[j]) {
      CanonicalRange(ls[i]);
      CanonicalRange(rs[j]);
      SiblingsApart(ls[i], rs[j], left, right, node.commitment.root.depth);
    }
    PairwiseApartAppend(ls, rs);
    LeavesOfAppend(ls, rs);
    UnselectedAppend(Leaves(left), Leaves(right), keys);
  }

  // ----- merging leaves and side nodes

  lemma {:induction false} MergeMembers(leaves: seq<Commitment>, sides: seq<Commitment>)
    ensures forall n :: n in Merge(leaves, sides) <==> n in leaves || n in sides
    decreases |leaves| + |sides|
  {
    if leaves == [] && sides == [] {
    } else if sides == [] || (leaves != [] && leaves[0].min < sides[0].min) {
      MergeMembers(leaves[1..], sides);
      assert leaves == [leaves[0]] + leaves[1..];
    } else {
      MergeMembers(leaves, sides[1..]);
      assert sides == [sides[0]] + sides[1..];
    }
  }

  /** Merging neither loses nor invents an account. */
  lemma {:induction false} MergeOpens(leaves: seq<Commitment>, sides: seq<Commitment>)
    ensures multiset(LeavesOf(Merge(leaves, sides))) == multiset(LeavesOf(leaves)) + multiset(LeavesOf(sides))
    decreases |leaves| + |sides|
  {
    if leaves == [] && sides == [] {
    } else if sides == [] || (leaves != [] && leaves[0].min < sides[0].min) {
      MergeOpens(leaves[1..], sides);
      MergeStep(leaves[0], Merge(leaves[1..], sides));
    } else {
      MergeOpens(leaves, sides[1..]);
      MergeStep(sides[0], Merge(leaves, sides[1..]));
    }
  }

  lemma MergeStep(head: Commitment, rest: seq<Commitment>)
    ensures LeavesOf([head] + rest) == Leaves(head) + LeavesOf(rest)
  {
    assert ([head] + rest)[1..] == rest;
  }

  /** Merging two lists that are apart keeps them apart. */
  lemma {:induction false} MergeApart(leaves: seq<Commitment>, sides: seq<Commitment>)
    requires PairwiseApart(leaves) && PairwiseApart(sides)
    requires forall i, j :: 0 <= i < |leaves| && 0 <= j < |sides| ==>
               Apart(leaves[i], sides[j]) || Apart(sides[j], leaves[i])
    ensures PairwiseApart(Merge(leaves, sides))
    decreases |leaves| + |sides|
  {
    if leaves == [] && sides == [] {
    } else if sides == [] || (leaves != [] && leaves[0].min < sides[0].min) {
      MergeApart(leaves[1..], sides);
      MergeMembers(leaves[1..], sides);
      HeadApart(leaves[0], leaves[1..], sides, Merge(leaves[1..], sides));
    } else {
      MergeApart(leaves, sides[1..]);
      MergeMembers(leaves, sides[1..]);
      HeadApart(sides[0], sides[1..], leaves, Merge(leaves, sides[1..]));
    }
  }

  lemma HeadApart(head: Commitment, own: seq<Commitment>, others: seq<Commitment>, merged: seq<Commitment>)
    requires ApartFrom(head, own) && PairwiseApart(others) && PairwiseApart(merged)
    requires forall j :: 0 <= j < |others| ==> Apart(head, others[j]) || Apart(others[j], head)
    requires others == [] || head.min <= others[0].min
    requires forall n :: n in merged ==> n in own || n in others
    ensures PairwiseApart([head] + merged)
  {
    forall k | 0 <= k < |merged| ensures Apart(head, merged[k]) {
      assert merged[k] in merged;
      if merged[k] !in own {
        var j :| 0 <= j < |others| && others[j] == merged[k];
        AfterFirst(others, j);
      }
    }
    assert ([head] + merged)[1..] == merged;
  }

  lemma AfterFirst(nodes: seq<Commitment>, j: nat)
    requires PairwiseApart(nodes) && j < |nodes|
    ensures nodes[0].min <= nodes[j].min <= nodes[j].max
  {
    RangeAt(nodes, 0);
    RangeAt(nodes, j);
    if j > 0 {
      ApartAt(nodes, 0, j);
    }
  }
}
