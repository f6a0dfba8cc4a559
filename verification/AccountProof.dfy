/** The on-chain single-account verifier (contracts/src/PatriciaProof.sol): side
    nodes folded into one leaf, deepest divergence first. */
module AccountProof {
  import opened Keys
  import opened Results
  import opened Sorting
  import opened Types
  import opened Patricia
  import opened PatriciaShape
  import opened PatriciaProofs
  import opened PatriciaTheorems

  /** Where the side node splits off from the path to `id`. */
  function Divergence(id: Key, node: Commitment): nat {
    DifferingBit(id, if node.max < id then node.max else node.min)
  }

  function Deeper(id: Key): (Commitment, Commitment) -> bool {
    (a, b) => Divergence(id, a) > Divergence(id, b)
  }

  predicate RangesValid(id: Key, sides: seq<Commitment>) {
    && (forall i :: 0 <= i < |sides| ==> sides[i].min <= sides[i].max)
    && (forall i :: 0 <= i < |sides| ==> !(sides[i].min <= id <= sides[i].max))
    && (forall i :: 1 <= i < |sides| ==> sides[i - 1].max < sides[i].min)
  }

  /** Each depth carries at most one side node. */
  predicate DistinctDepths(id: Key, sides: seq<Commitment>) {
    forall i, j :: 0 <= i < j < |sides| ==> Divergence(id, sides[i]) != Divergence(id, sides[j])
  }

  function FoldStep(current: Commitment, node: Commitment): Result<Commitment> {
    if node.max < current.min then Branch(node, current) else Branch(current, node)
  }

  function FoldSides(current: Commitment, sides: seq<Commitment>): Result<Commitment>
    decreases |sides|
  {
    if sides == [] then
      Ok(current)
    else
      var next :- FoldStep(current, sides[0]);
      FoldSides(next, sides[1..])
  }

  /** The root implied by an account leaf and its side nodes. */
  function FoldedRoot(account: Account, sides: seq<Commitment>): Result<Digest> {
    if !RangesValid(account.id, sides) || !DistinctDepths(account.id, sides) then
      Err(InvalidMultiproof)
    else
      var top :- FoldSides(Leaf(account), Sort(sides, Deeper(account.id)));
      Ok(RootHash(top))
  }

  // ----- the verifier as written

  /** Checks, sorts the index array by depth in place, folds. */
  method VerifyAccount(account: Account, sides: seq<Commitment>) returns (r: Result<Digest>)
    ensures r == FoldedRoot(account, sides)
  {
    var valid := CheckRanges(account.id, sides);
    if !valid {
      return Err(InvalidMultiproof);
    }
    var order := new nat[|sides|](i => i);
    var sorted, arranged := SortByDepth(account.id, sides, order);
    if !sorted {
      return Err(InvalidMultiproof);
    }
    StrictOrderOfDepths(account.id);
    SortUnique(sides, arranged, Deeper(account.id));
    var top := FoldInOrder(account, sides, order, arranged);
    if top.Err? {
      return Err(top.error);
    }
    r := Ok(RootHash(top.value));
  }

  method CheckRanges(id: Key, sides: seq<Commitment>) returns (valid: bool)
    ensures valid <==> RangesValid(id, sides)
  {
    for i := 0 to |sides|
      invariant forall k :: 0 <= k < i ==> sides[k].min <= sides[k].max && !(sides[k].min <= id <= sides[k].max)
      invariant forall k :: 1 <= k < i ==> sides[k - 1].max < sides[k].min
    {
      if sides[i].min > sides[i].max || sides[i].min <= id <= sides[i].max {
        return false;
      }
      if i > 0 && sides[i - 1].max >= sides[i].min {
        return false;
      }
    }
    valid := true;
  }

  method FoldInOrder(account: Account, sides: seq<Commitment>, order: array<nat>, ghost arranged: seq<Commitment>)
    returns (r: Result<Commitment>)
    requires Arranges(order, sides, arranged)
    ensures r == FoldSides(Leaf(account), arranged)
  {
    var current := Leaf(account);
    for i := 0 to |sides|
      invariant FoldSides(Leaf(account), arranged) == FoldSides(current, arranged[i..])
    {
      assert arranged[i..][0] == sides[order[i]] && arranged[i..][1..] == arranged[i + 1..];
      var next := FoldStep(current, sides[order[i]]);
      if next.Err? {
        return next;
      }
      current := next.value;
    }
    r := Ok(current);
  }

  /** The index array and the side nodes it arranges. */
  ghost predicate Arranges(order: array<nat>, sides: seq<Commitment>, arranged: seq<Commitment>)
    reads order
  {
    && order.Length == |sides| == |arranged|
    && multiset(arranged) == multiset(sides)
    && forall k :: 0 <= k < |sides| ==> 0 <= order[k] < |sides| && arranged[k] == sides[order[k]]
  }

  /** Selection sort of the index array, deepest first, giving up on a tie. */
  method SortByDepth(id: Key, sides: seq<Commitment>, order: array<nat>)
    returns (sorted: bool, ghost arranged: seq<Commitment>)
    requires order.Length == |sides|
    requires forall k :: 0 <= k < |sides| ==> order[k] == k
    modifies order
    ensures sorted <==> DistinctDepths(id, sides)
    ensures Arranges(order, sides, arranged)
    ensures sorted ==> StrictlyAscending(arranged, Deeper(id))
  {
    var n := |sides|;
    arranged := sides;
    for i := 0 to n
      invariant Arranges(order, sides, arranged)
      invariant Selected(id, arranged, i)
    {
      arranged := MoveDeepest(id, sides, order, arranged, i);
      if i > 0 && Divergence(id, sides[order[i]]) == Divergence(id, sides[order[i - 1]]) {
        TieFound(id, sides, arranged, i);
        return false, arranged;
      }
    }
    sorted := true;
    SelectedIsStrict(id, arranged);
    NoTie(id, sides, arranged);
  }

  /** The first `i` positions hold the deepest nodes, strictly descending. */
  ghost predicate Selected(id: Key, arranged: seq<Commitment>, i: nat) {
    && i <= |arranged|
    && (forall p, q :: 0 <= p < i && p < q < |arranged| ==> Divergence(id, arranged[p]) >= Divergence(id, arranged[q]))
    && (forall p :: 0 < p < i ==> Divergence(id, arranged[p - 1]) != Divergence(id, arranged[p]))
  }

  lemma SelectionStep(id: Key, arranged: seq<Commitment>, i: nat, deepest: nat)
    requires Selected(id, arranged, i) && i <= deepest < |arranged|
    requires forall q :: i <= q < |arranged| ==> Divergence(id, arranged[deepest]) >= Divergence(id, arranged[q])
    ensures var swapped := arranged[i := arranged[deepest]][deepest := arranged[i]];
            i == 0 || Divergence(id, swapped[i - 1]) != Divergence(id, swapped[i]) ==> Selected(id, swapped, i + 1)
  {
  }

  lemma SelectedIsStrict(id: Key, arranged: seq<Commitment>)
    requires Selected(id, arranged, |arranged|)
    ensures StrictlyAscending(arranged, Deeper(id))
  {
    forall i, j | 0 <= i < j < |arranged| ensures Deeper(id)(arranged[i], arranged[j]) {
      assert Divergence(id, arranged[i]) != Divergence(id, arranged[i + 1]);
      assert i + 1 == j || Divergence(id, arranged[i + 1]) >= Divergence(id, arranged[j]);
    }
  }

  /** Brings the deepest remaining node to position `i`. */
  method MoveDeepest(id: Key, sides: seq<Commitment>, order: array<nat>, ghost arranged: seq<Commitment>, i: nat)
    returns (ghost moved: seq<Commitment>)
    requires Arranges(order, sides, arranged) && Selected(id, arranged, i) && i < |sides|
    modifies order
    ensures Arranges(order, sides, moved)
    ensures i == 0 || Divergence(id, moved[i - 1]) != Divergence(id, moved[i]) ==> Selected(id, moved, i + 1)
  {
    var deepest := FindDeepest(id, sides, order, arranged, i);
    SelectionStep(id, arranged, i, deepest);
    moved := arranged[i := arranged[deepest]][deepest := arranged[i]];
    if deepest != i {
      order[i], order[deepest] := order[deepest], order[i];
      SwapPermutes(arranged, i, deepest);
    } else {
      assert moved == arranged;
    }
  }

  method FindDeepest(id: Key, sides: seq<Commitment>, order: array<nat>, ghost arranged: seq<Commitment>, from: nat)
    returns (deepest: nat)
    requires Arranges(order, sides, arranged) && from < |sides|
    ensures from <= deepest < |sides|
    ensures forall q :: from <= q < |sides| ==> Divergence(id, arranged[deepest]) >= Divergence(id, arranged[q])
  {
    deepest := from;
    for j := from + 1 to |sides|
      invariant from <= deepest < |sides|
      invariant forall q :: from <= q < j ==> Divergence(id, arranged[deepest]) >= Divergence(id, arranged[q])
    {
      if Divergence(id, sides[order[j]]) > Divergence(id, sides[order[deepest]]) {
        deepest := j;
      }
    }
  }

  lemma TieFound(id: Key, sides: seq<Commitment>, arranged: seq<Commitment>, i: nat)
    requires multiset(arranged) == multiset(sides) && 0 < i < |arranged|
    requires Divergence(id, arranged[i - 1]) == Divergence(id, arranged[i])
    ensures !DistinctDepths(id, sides)
  {
    if DistinctDepths(id, sides) {
      DistinctPermutes(sides, arranged, DepthOf(id));
      assert false;
    }
  }

  lemma NoTie(id: Key, sides: seq<Commitment>, arranged: seq<Commitment>)
    requires multiset(arranged) == multiset(sides)
    requires StrictlyAscending(arranged, Deeper(id))
    ensures DistinctDepths(id, sides)
  {
    forall i, j | 0 <= i < j < |arranged| ensures DepthOf(id)(arranged[i]) != DepthOf(id)(arranged[j]) {
      assert Deeper(id)(arranged[i], arranged[j]);
    }
    DistinctPermutes(arranged, sides, DepthOf(id));
    forall i, j | 0 <= i < j < |sides| ensures Divergence(id, sides[i]) != Divergence(id, sides[j]) {
      assert DepthOf(id)(sides[i]) != DepthOf(id)(sides[j]);
    }
  }

  function DepthOf(id: Key): Commitment -> nat {
    node => Divergence(id, node)
  }

  lemma SwapPermutes<T(!new)>(s: seq<T>, i: nat, j: nat)
    requires i < j < |s|
    ensures multiset(s[i := s[j]][j := s[i]]) == multiset(s)
  {
    assert s == s[..i] + [s[i]] + s[i + 1..j] + [s[j]] + s[j + 1..];
    assert s[i := s[j]][j := s[i]] == s[..i] + [s[j]] + s[i + 1..j] + [s[i]] + s[j + 1..];
  }

  lemma StrictOrderOfDepths(id: Key)
    ensures StrictWeakOrder(Deeper(id))
  {
  }

  // ----- soundness of the fold

  /** Folding can only reach a canonical commitment that contains its start. */
  lemma {:induction false} FoldInvert(current: Commitment, sides: seq<Commitment>, top: Commitment)
    requires FoldSides(current, sides) == Ok(top) && Canonical(top)
    ensures Canonical(current)
    ensures forall a :: a in Leaves(current) ==> a in Leaves(top)
    decreases |sides|
  {
    if sides != [] {
      var next := FoldStep(current, sides[0]).value;
      FoldInvert(next, sides[1..], top);
      assert next.root.left == current || next.root.right == current;
    }
  }

  /** THEOREM (escape soundness). Whatever side nodes are supplied, a fold that
      returns the root of an account set proves that this exact account - id,
      nonce and balances - belongs to the set. */
  lemma FoldProvesMembership(accounts: seq<Account>, account: Account, sides: seq<Commitment>)
    requires DistinctIds(accounts)
    requires FoldedRoot(account, sides).Ok? && FoldedRoot(account, sides) == ComputeRoot(accounts)
    ensures account in accounts
  {
    var root := RootExists(accounts);
    var order := Sort(sides, Deeper(account.id));
    FoldInvert(Leaf(account), order, root.value);
    assert Leaves(Leaf(account)) == [account];
  }

  // ----- agreement with the general reconstruction

  /** The side nodes on the path to `id`, deepest first. */
  function PathSides(node: Node, id: Key): seq<Commitment>
    requires WellFormed(node)
  {
    match node
    case BranchNode(_, left, right) =>
      if id <= left.commitment.max then
        PathSides(left, id) + [right.commitment]
      else
        PathSides(right, id) + [left.commitment]
    case _ => []
  }

  /** A subtree apart from the only selected key is emitted whole. */
  lemma SiblingWhole(node: Node, id: Key)
    requires Faithful(node) && WellFormed(node) && !node.Empty?
    requires KeyApart(id, node.commitment)
    ensures SideNodes(node, [id]) == [node.commitment]
  {
    var c := node.commitment;
    CanonicalRange(c);
    SelectedInMeans([id], c);
    if node.BranchNode? {
      BranchDepth(c);
      DifferingBitSymmetric(id, c.max);
      assert !LandsBelow(id, c, c.root.depth);
    }
  }

  /** Seen from a key on one side, the sibling splits off at the branch bit. */
  lemma SiblingDivergence(left: Commitment, right: Commitment, depth: nat, id: Key)
    requires Joins(left, right, depth)
    requires left.min <= left.max && right.min <= right.max
    ensures left.min <= id <= left.max ==> KeyApart(id, right) && Divergence(id, right) == depth
    ensures right.min <= id <= right.max ==> KeyApart(id, left) && Divergence(id, left) == depth
  {
    if left.min <= id <= left.max {
      BitInside(left.min, id, left.max, depth);
      SharedTransitive(id, left.max, right.min, depth);
      DifferingBitUnique(id, right.min, depth);
    }
    if right.min <= id <= right.max {
      BitInside(right.min, id, right.max, depth);
      SharedTransitive(left.max, right.min, id, depth);
      DifferingBitUnique(left.max, id, depth);
      DifferingBitSymmetric(left.max, id);
    }
  }

  /** The path lists the side nodes, deepest first, within the node's span. */
  ghost predicate PathSorted(node: Node, id: Key)
    requires WellFormed(node)
  {
    && multiset(PathSides(node, id)) == multiset(SideNodes(node, [id]))
    && StrictlyAscending(PathSides(node, id), Deeper(id))
    && forall s :: s in PathSides(node, id) ==> Divergence(id, s) >= Span(node.commitment)
  }

  /** Along the path the side nodes are exactly the emitted ones, strictly
      deeper first, none above the subtree's own branch bit. */
  lemma {:induction false} PathIsSorted(node: Node, account: Account)
    requires Faithful(node) && WellFormed(node) && !node.Empty?
    requires account in Leaves(node.commitment)
    ensures PathSorted(node, account.id)
  {
    var id := account.id;
    if node.BranchNode? {
      var left, right := node.left, node.right;
      if account in Leaves(left.commitment) {
        PathIsSorted(left, account);
      } else {
        PathIsSorted(right, account);
      }
      PathStep(node, account);
    } else {
      LeafRange(node.commitment, account);
      SelectedInMeans([id], node.commitment);
    }
  }

  /** How a branch extends path and side nodes. */
  lemma PathStep(node: Node, account: Account)
    requires Faithful(node) && WellFormed(node) && node.BranchNode?
    requires account in Leaves(node.commitment)
    requires var child := if account in Leaves(node.left.commitment) then node.left else node.right;
             PathSorted(child, account.id)
    ensures PathSorted(node, account.id)
  {
    var id := account.id;
    var c, l, r := node.commitment, node.left.commitment, node.right.commitment;
    CanonicalRange(l);
    CanonicalRange(r);
    BranchDepth(c);
    SiblingDivergence(l, r, c.root.depth, id);
    PathAffected(node, account);
    if account in Leaves(l) {
      LeafRange(l, account);
      SiblingWhole(node.right, id);
      PathExtends(node, node.left, node.right, c.root.depth, id);
    } else {
      LeafRange(r, account);
      SiblingWhole(node.left, id);
      PathExtends(node, node.right, node.left, c.root.depth, id);
    }
  }

  lemma PathExtends(node: Node, child: Node, sibling: Node, depth: nat, id: Key)
    requires WellFormed(node) && node.BranchNode? && Affected(node, [id]) && !child.Empty? && !sibling.Empty?
    requires (child == node.left && sibling == node.right && id <= node.left.commitment.max)
             || (child == node.right && sibling == node.left && id > node.left.commitment.max)
    requires PathSorted(child, id)
    requires SideNodes(sibling, [id]) == [sibling.commitment]
    requires Divergence(id, sibling.commitment) == depth < Span(child.commitment)
    requires Span(node.commitment) <= depth
    ensures PathSorted(node, id)
  {
    PathUnfold(node, child, sibling, id);
    hide Affected, Divergence, Span, PathSides, SideNodes, WellFormed;
    DeeperThenLast(PathSides(child, id), sibling.commitment, id);
  }

  lemma PathUnfold(node: Node, child: Node, sibling: Node, id: Key)
    requires WellFormed(node) && node.BranchNode? && Affected(node, [id]) && !child.Empty? && !sibling.Empty?
    requires (child == node.left && sibling == node.right && id <= node.left.commitment.max)
             || (child == node.right && sibling == node.left && id > node.left.commitment.max)
    ensures PathSides(node, id) == PathSides(child, id) + [sibling.commitment]
    ensures multiset(SideNodes(node, [id])) == multiset(SideNodes(child, [id])) + multiset(SideNodes(sibling, [id]))
  {
    hide Affected;
  }

  lemma PathAffected(node: Node, account: Account)
    requires Faithful(node) && WellFormed(node) && node.BranchNode?
    requires account in Leaves(node.commitment)
    ensures Affected(node, [account.id])
  {
    LeafRange(node.commitment, account);
    SelectedInMeans([account.id], node.commitment);
    assert account.id in [account.id];
  }

  lemma LeafRange(node: Commitment, account: Account)
    requires Canonical(node) && account in Leaves(node)
    ensures node.min <= account.id <= node.max
  {
    var i :| 0 <= i < |Leaves(node)| && Leaves(node)[i] == account;
    CanonicalInRange(node, i);
  }

  lemma DeeperThenLast(sides: seq<Commitment>, last: Commitment, id: Key)
    requires StrictlyAscending(sides, Deeper(id))
    requires forall s :: s in sides ==> Divergence(id, s) > Divergence(id, last)
    ensures StrictlyAscending(sides + [last], Deeper(id))
  {
    forall i, j | 0 <= i < j < |sides + [last]| ensures Deeper(id)((sides + [last])[i], (sides + [last])[j]) {
      assert sides[i] in sides;
    }
  }

  /** Folding the path rebuilds the commitment of the whole subtree. */
  lemma {:induction false} PathFolds(node: Node, account: Account)
    requires Faithful(node) && WellFormed(node) && !node.Empty?
    requires account in Leaves(node.commitment)
    ensures FoldSides(Leaf(account), PathSides(node, account.id)) == Ok(node.commitment)
  {
    LeafOrBranch(node.commitment);
    if node.BranchNode? {
      var l, r := node.left.commitment, node.right.commitment;
      CanonicalRange(l);
      CanonicalRange(r);
      BranchOfJoined(l, r, node.commitment.root.depth);
      if account in Leaves(l) {
        LeafRange(l, account);
        PathFolds(node.left, account);
        FoldSidesAppend(Leaf(account), PathSides(node.left, account.id), r);
      } else {
        LeafRange(r, account);
        PathFolds(node.right, account);
        FoldSidesAppend(Leaf(account), PathSides(node.right, account.id), l);
      }
    }
  }

  lemma {:induction false} FoldSidesAppend(current: Commitment, sides: seq<Commitment>, last: Commitment)
    requires FoldSides(current, sides).Ok?
    ensures FoldSides(current, sides + [last]) == FoldStep(FoldSides(current, sides).value, last)
    decreases |sides|
  {
    if sides == [] {
      assert (sides + [last])[1..] == [];
    } else {
      FoldSidesAppend(FoldStep(current, sides[0]).value, sides[1..], last);
      assert (sides + [last])[1..] == sides[1..] + [last];
    }
  }

  /** Sorting the emitted side nodes by depth recovers the path. */
  lemma PathSortsSides(tree: Node, account: Account)
    requires Faithful(tree) && WellFormed(tree) && !tree.Empty?
    requires account in Leaves(tree.commitment)
    ensures var sides := SideNodes(tree, [account.id]);
            DistinctDepths(account.id, sides) && Sort(sides, Deeper(account.id)) == PathSides(tree, account.id)
  {
    var sides, path := SideNodes(tree, [account.id]), PathSides(tree, account.id);
    PathIsSorted(tree, account);
    NoTie(account.id, sides, path);
    StrictOrderOfDepths(account.id);
    SortUnique(sides, path, Deeper(account.id));
  }

  lemma SidesValid(id: Key, sides: seq<Commitment>)
    requires PairwiseApart(sides) && KeysApart([id], sides)
    ensures RangesValid(id, sides)
  {
    ApartIsOrdered(sides);
    assert id in [id];
    forall i | 0 <= i < |sides| ensures sides[i].min <= sides[i].max && !(sides[i].min <= id <= sides[i].max) {
      RangeAt(sides, i);
    }
  }

  /** THEOREM (agreement). For every present account the on-chain fold over its
      multiproof returns the root, as does the general reconstruction. */
  lemma FoldAgrees(accounts: seq<Account>, account: Account)
    requires DistinctIds(accounts) && account in accounts
    ensures BuildMultiproof(accounts, [account.id]).Ok?
    ensures var proof := BuildMultiproof(accounts, [account.id]).value;
            FoldedRoot(account, proof.sideNodes) == ComputeRoot(accounts) == RootFromProof([account], proof)
  {
    MultiproofRoundTrip(accounts, accounts, [account.id], [account]);
    SortAccountsDistinct(accounts);
    var sorted := SortAccounts(accounts).value;
    BuildCanonical(sorted);
    BuildFaithful(sorted);
    BuildWellFormed(sorted);
    SortOfOne(account.id);
    FoldOfTree(Build(sorted).value, account);
  }

  lemma FoldOfTree(tree: Node, account: Account)
    requires Faithful(tree) && WellFormed(tree) && !tree.Empty?
    requires account in Leaves(tree.commitment)
    ensures FoldedRoot(account, SideNodes(tree, [account.id])) == Ok(RootHash(tree.commitment))
  {
    SideNodesCover(tree, [account.id]);
    SidesValid(account.id, SideNodes(tree, [account.id]));
    PathSortsSides(tree, account);
    PathFolds(tree, account);
  }

  lemma SortOfOne(id: Key)
    ensures SortKeys([id]) == Ok([id])
  {
    var rest: seq<Key> := [id][1..];
    assert rest == [] && Sort(rest, KeyBefore) == [];
    assert Sort([id], KeyBefore) == [id];
  }
}
