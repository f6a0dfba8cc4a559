/** Because hashes are collision-free, a commitment determines the tree below
    it: which accounts it opens to, and whether it is in canonical form. */
module PatriciaShape {
  import opened Keys
  import opened Results
  import opened Sorting
  import opened Types
  import opened Patricia

  /** The accounts a commitment opens to, from left to right. */
  function Leaves(node: Commitment): seq<Account> {
    match node.root
    case LeafHash(_, leaf) => if leaf.AccountHash? then [leaf.account] else []
    case BranchHash(_, left, right) => Leaves(left) + Leaves(right)
    case _ => []
  }

  function LeavesOf(nodes: seq<Commitment>): seq<Account> {
    if nodes == [] then [] else Leaves(nodes[0]) + LeavesOf(nodes[1..])
  }

  /** Width of a node's common prefix; BITS for a single key. */
  function Span(node: Commitment): nat {
    DifferingBit(node.min, node.max)
  }

  /** The nodes meet exactly at bit `depth`, inside neither of them. */
  predicate Joins(left: Commitment, right: Commitment, depth: nat) {
    && left.max < right.min
    && depth == DifferingBit(left.max, right.min)
    && depth < Span(left)
    && depth < Span(right)
  }

  /** The path-compressed form: every branch sits at the first bit in which the
      keys below it differ, and ranges are exact. */
  predicate Canonical(node: Commitment) {
    match node.root
    case LeafHash(_, leaf) => leaf.AccountHash? && node == Leaf(leaf.account)
    case BranchHash(depth, left, right) =>
      Canonical(left) && Canonical(right) && Joins(left, right, depth) && node.min == left.min && node.max == right.max
    case _ => false
  }

  ghost predicate AllCanonical(nodes: seq<Commitment>) {
    forall i :: 0 <= i < |nodes| ==> Canonical(nodes[i])
  }

  lemma AllCanonicalSplit(nodes: seq<Commitment>, split: nat)
    requires split <= |nodes|
    ensures AllCanonical(nodes) <==> AllCanonical(nodes[..split]) && AllCanonical(nodes[split..])
  {
    assert forall i :: 0 <= i < split ==> nodes[..split][i] == nodes[i];
    assert forall i :: split <= i < |nodes| ==> nodes[split..][i - split] == nodes[i];
  }

  /** Neither node's prefix covers the other node. */
  predicate Apart(a: Commitment, b: Commitment) {
    Joins(a, b, DifferingBit(a.max, b.min))
  }

  /** The node is a range and stands apart from everything after it. */
  ghost predicate ApartFrom(node: Commitment, rest: seq<Commitment>) {
    node.min <= node.max && forall j :: 0 <= j < |rest| ==> Apart(node, rest[j])
  }

  ghost predicate PairwiseApart(nodes: seq<Commitment>) {
    nodes == [] || (ApartFrom(nodes[0], nodes[1..]) && PairwiseApart(nodes[1..]))
  }

  lemma {:induction false} RangeAt(nodes: seq<Commitment>, i: nat)
    requires PairwiseApart(nodes) && i < |nodes|
    ensures nodes[i].min <= nodes[i].max
  {
    if i > 0 {
      RangeAt(nodes[1..], i - 1);
    }
  }

  lemma {:induction false} ApartAt(nodes: seq<Commitment>, i: nat, j: nat)
    requires PairwiseApart(nodes) && i < j < |nodes|
    ensures Apart(nodes[i], nodes[j])
  {
    if i > 0 {
      ApartAt(nodes[1..], i - 1, j - 1);
    } else {
      assert nodes[1..][j - 1] == nodes[j];
    }
  }

  lemma {:induction false} PairwiseApartIntro(nodes: seq<Commitment>)
    requires forall i :: 0 <= i < |nodes| ==> nodes[i].min <= nodes[i].max
    requires forall i, j :: 0 <= i < j < |nodes| ==> Apart(nodes[i], nodes[j])
    ensures PairwiseApart(nodes)
  {
    if nodes != [] {
      PairwiseApartIntro(nodes[1..]);
    }
  }

  lemma {:induction false} LeavesOfAppend(a: seq<Commitment>, b: seq<Commitment>)
    ensures LeavesOf(a + b) == LeavesOf(a) + LeavesOf(b)
  {
    if a == [] {
      assert a + b == b;
    } else {
      var tail := a[1..];
      LeavesOfAppend(tail, b);
      assert (a + b)[1..] == tail + b;
      assert Leaves(a[0]) + (LeavesOf(tail) + LeavesOf(b)) == Leaves(a[0]) + LeavesOf(tail) + LeavesOf(b);
    }
  }

  lemma LeavesOfSplit(nodes: seq<Commitment>, split: nat)
    requires split <= |nodes|
    ensures LeavesOf(nodes) == LeavesOf(nodes[..split]) + LeavesOf(nodes[split..])
  {
    LeavesOfAppend(nodes[..split], nodes[split..]);
    assert nodes == nodes[..split] + nodes[split..];
  }

  // ----- keys around a branch

  /** Four ascending keys whose inner pair is split by the first bit in which
      the outer pair differs. */
  lemma JoinAtSplit(a: Key, b: Key, c: Key, d: Key)
    requires a <= b < c <= d
    requires var depth := DifferingBit(a, d); depth < BITS && !Bit(b, depth) && Bit(c, depth)
    ensures var depth := DifferingBit(a, d);
            depth == DifferingBit(b, c) && depth < DifferingBit(a, b) && depth < DifferingBit(c, d)
  {
    var depth := DifferingBit(a, d);
    Between(a, b, d, depth);
    Between(b, c, d, depth);
    DifferingBitUnique(b, c, depth);
    DifferingBitLater(a, b, depth);
    DifferingBitLater(c, d, depth);
  }

  /** The converse: where the parts meet is where the whole first differs. */
  lemma JoinsSpan(left: Commitment, right: Commitment, depth: nat)
    requires Joins(left, right, depth)
    requires left.min <= left.max && right.min <= right.max
    ensures DifferingBit(left.min, right.max) == depth
    ensures !Bit(left.min, depth) && !Bit(left.max, depth) && Bit(right.min, depth) && Bit(right.max, depth)
  {
    BitsAgree(left.min, left.max, depth);
    BitsAgree(right.min, right.max, depth);
    SharedTransitive(left.min, left.max, right.min, depth);
    SharedTransitive(left.min, right.min, right.max, depth);
    DifferingBitUnique(left.min, right.max, depth);
  }

  lemma BranchOfJoined(left: Commitment, right: Commitment, depth: nat)
    requires Joins(left, right, depth)
    requires left.min <= left.max && right.min <= right.max
    ensures Branch(left, right) == Ok(Commitment(BranchHash(depth, left, right), left.min, right.max))
  {
    JoinsSpan(left, right, depth);
  }

  // ----- canonical commitments

  lemma {:induction false} CanonicalRange(node: Commitment)
    requires Canonical(node)
    ensures Leaves(node) != [] && SortedById(Leaves(node))
    ensures Leaves(node)[0].id == node.min && Leaves(node)[|Leaves(node)| - 1].id == node.max
    ensures node.min <= node.max
  {
    if node.root.BranchHash? {
      CanonicalRange(node.root.left);
      CanonicalRange(node.root.right);
      SortedAppend(Leaves(node.root.left), Leaves(node.root.right));
    }
  }

  lemma SortedAppend(a: seq<Account>, b: seq<Account>)
    requires SortedById(a) && SortedById(b)
    requires a != [] && b != [] ==> a[|a| - 1].id < b[0].id
    ensures SortedById(a + b)
  {
  }

  lemma InRange(values: seq<Account>, i: nat)
    requires SortedById(values) && i < |values|
    ensures values[0].id <= values[i].id <= values[|values| - 1].id
  {
  }

  lemma {:induction false} CanonicalInRange(node: Commitment, i: nat)
    requires Canonical(node) && i < |Leaves(node)|
    ensures node.min <= Leaves(node)[i].id <= node.max
  {
    hide Leaves, Canonical;
    CanonicalRange(node);
    InRange(Leaves(node), i);
  }

  /** All accounts below a node agree on the bits before its span. */
  lemma BelowSpan(node: Commitment, depth: nat, i: nat)
    requires Canonical(node) && depth < Span(node) && i < |Leaves(node)|
    ensures Bit(Leaves(node)[i].id, depth) == Bit(node.min, depth)
  {
    CanonicalInRange(node, i);
    BitInside(node.min, Leaves(node)[i].id, node.max, depth);
  }

  /** Below a canonical branch the branch bit tells the two sides apart. */
  lemma BranchBit(node: Commitment, i: nat)
    requires Canonical(node) && node.root.BranchHash?
    requires i < |Leaves(node)|
    ensures Bit(Leaves(node)[i].id, node.root.depth) <==> |Leaves(node.root.left)| <= i
  {
    var depth, left, right := node.root.depth, node.root.left, node.root.right;
    CanonicalRange(left);
    CanonicalRange(right);
    JoinsSpan(left, right, depth);
    if i < |Leaves(left)| {
      BelowSpan(left, depth, i);
    } else {
      BelowSpan(right, depth, i - |Leaves(left)|);
    }
  }

  /** The number of accounts on the left is fixed by the account list. */
  lemma SameCut(a: Commitment, b: Commitment)
    requires Canonical(a) && Canonical(b) && a.root.BranchHash? && b.root.BranchHash?
    requires Leaves(a) == Leaves(b)
    ensures a.root.depth == b.root.depth && a.min == b.min && a.max == b.max
    ensures Leaves(a.root.left) == Leaves(b.root.left) && Leaves(a.root.right) == Leaves(b.root.right)
  {
    CanonicalRange(a);
    CanonicalRange(b);
    BranchDepth(a);
    BranchDepth(b);
    var i, j := |Leaves(a.root.left)|, |Leaves(b.root.left)|;
    CanonicalRange(a.root.right);
    CanonicalRange(b.root.right);
    var k := if i < j then i else j;
    BranchBit(a, k);
    BranchBit(b, k);
    assert Leaves(a)[..i] == Leaves(a.root.left) && Leaves(a)[i..] == Leaves(a.root.right);
    assert Leaves(b)[..j] == Leaves(b.root.left) && Leaves(b)[j..] == Leaves(b.root.right);
  }

  lemma BranchDepth(node: Commitment)
    requires Canonical(node) && node.root.BranchHash?
    ensures node.root.depth == Span(node)
  {
    CanonicalRange(node.root.left);
    CanonicalRange(node.root.right);
    JoinsSpan(node.root.left, node.root.right, node.root.depth);
  }

  /** Only a single account is committed to by a leaf. */
  lemma LeafOrBranch(node: Commitment)
    requires Canonical(node)
    ensures node.root.LeafHash? || node.root.BranchHash?
    ensures node.root.LeafHash? <==> |Leaves(node)| == 1
    ensures node.root.LeafHash? ==> node == Leaf(Leaves(node)[0])
  {
    if node.root.BranchHash? {
      CanonicalRange(node.root.left);
      CanonicalRange(node.root.right);
    }
  }

  /** One account list has one canonical commitment. */
  lemma {:induction false} CanonicalUnique(a: Commitment, b: Commitment)
    requires Canonical(a) && Canonical(b)
    requires Leaves(a) == Leaves(b)
    ensures a == b
  {
    LeafOrBranch(a);
    LeafOrBranch(b);
    if a.root.BranchHash? {
      SameCut(a, b);
      CanonicalUnique(a.root.left, b.root.left);
      CanonicalUnique(a.root.right, b.root.right);
    }
  }

  // ----- the reconstruction

  /** What one step of a successful reconstruction went through. */
  lemma CombineUnfold(nodes: seq<Commitment>)
    returns (depth: nat, split: nat, left: Commitment, right: Commitment)
    requires |nodes| > 1 && Combine(nodes).Ok?
    ensures depth == DifferingBit(nodes[0].min, nodes[|nodes| - 1].max) < BITS
    ensures 0 < split < |nodes| && split == SplitPoint(nodes, depth)
    ensures !Bit(nodes[split - 1].max, depth) && Bit(nodes[split].min, depth)
    ensures Combine(nodes[..split]) == Ok(Some(left)) && Combine(nodes[split..]) == Ok(Some(right))
    ensures Branch(left, right).Ok? && Combine(nodes) == Ok(Some(Branch(left, right).value))
  {
    depth := DifferingBit(nodes[0].min, nodes[|nodes| - 1].max);
    split := SplitPoint(nodes, depth);
    left := Combine(nodes[..split]).value.value;
    right := Combine(nodes[split..]).value.value;
  }

  /** A reconstruction spans from its first node to its last. */
  lemma {:induction false} CombineRange(nodes: seq<Commitment>, top: Commitment)
    requires nodes != [] && Combine(nodes) == Ok(Some(top))
    ensures top.min == nodes[0].min && top.max == nodes[|nodes| - 1].max
    decreases |nodes|
  {
    if |nodes| > 1 {
      var depth, split, left, right := CombineUnfold(nodes);
      CombineRange(nodes[..split], left);
      CombineRange(nodes[split..], right);
    }
  }

  /** One successful step, seen from the two sides it joins. */
  lemma CombineSides(nodes: seq<Commitment>)
    returns (depth: nat, split: nat, left: Commitment, right: Commitment)
    requires |nodes| > 1 && Combine(nodes).Ok?
    ensures 0 < split < |nodes|
    ensures Combine(nodes[..split]) == Ok(Some(left)) && Combine(nodes[split..]) == Ok(Some(right))
    ensures Branch(left, right).Ok? && Combine(nodes) == Ok(Some(Branch(left, right).value))
    ensures depth == DifferingBit(left.min, right.max) < BITS
    ensures !Bit(left.max, depth) && Bit(right.min, depth)
  {
    depth, split, left, right := CombineUnfold(nodes);
    CombineRange(nodes[..split], left);
    CombineRange(nodes[split..], right);
    assert left.min == nodes[0].min && left.max == nodes[split - 1].max;
    assert right.min == nodes[split].min && right.max == nodes[|nodes| - 1].max;
  }

  /** A reconstruction that succeeds over canonical nodes is itself canonical
      and opens to their accounts in order, wherever the cuts were made. */
  lemma {:induction false} CombineSound(nodes: seq<Commitment>, top: Commitment)
    requires AllCanonical(nodes) && nodes != []
    requires Combine(nodes) == Ok(Some(top))
    ensures Canonical(top) && Leaves(top) == LeavesOf(nodes)
    decreases |nodes|
  {
    if |nodes| == 1 {
      LeavesOfSplit(nodes, 1);
    } else {
      var depth, split, left, right := CombineSides(nodes);
      AllCanonicalSplit(nodes, split);
      CombineSound(nodes[..split], left);
      CombineSound(nodes[split..], right);
      CanonicalRange(left);
      CanonicalRange(right);
      JoinAtSplit(left.min, left.max, right.min, right.max);
      LeavesOfSplit(nodes, split);
    }
  }

  /** Conversely a canonical result can only come from canonical nodes. */
  lemma {:induction false} CombineInvert(nodes: seq<Commitment>, top: Commitment)
    requires nodes != [] && Combine(nodes) == Ok(Some(top))
    requires Canonical(top)
    ensures AllCanonical(nodes) && LeavesOf(nodes) == Leaves(top)
    decreases |nodes|
  {
    if |nodes| == 1 {
      LeavesOfSplit(nodes, 1);
    } else {
      var depth, split, left, right := CombineUnfold(nodes);
      CombineInvert(nodes[..split], left);
      CombineInvert(nodes[split..], right);
      AllCanonicalSplit(nodes, split);
      LeavesOfSplit(nodes, split);
    }
  }

  // ----- when the reconstruction succeeds

  /** One step of the reconstruction. */
  lemma CombineStep(nodes: seq<Commitment>, depth: nat, split: nat, left: Commitment, right: Commitment)
    requires |nodes| > 1
    requires depth == DifferingBit(nodes[0].min, nodes[|nodes| - 1].max) < BITS
    requires 0 < split < |nodes| && split == SplitPoint(nodes, depth)
    requires forall i :: 0 <= i < |nodes| ==> (Bit(nodes[i].min, depth) <==> split <= i)
    requires Combine(nodes[..split]) == Ok(Some(left)) && Combine(nodes[split..]) == Ok(Some(right))
    requires Branch(left, right).Ok?
    ensures Combine(nodes) == Ok(Some(Branch(left, right).value))
  {
  }

  /** At the top split no node of a pairwise-apart list lies on both sides. */
  lemma NoStraddle(nodes: seq<Commitment>, i: nat)
    requires PairwiseApart(nodes) && |nodes| > 1 && i < |nodes|
    ensures var depth := DifferingBit(nodes[0].min, nodes[|nodes| - 1].max);
            && depth < BITS
            && nodes[0].min <= nodes[i].min <= nodes[i].max <= nodes[|nodes| - 1].max
            && Bit(nodes[i].min, depth) == Bit(nodes[i].max, depth)
  {
    var n := |nodes|;
    var first, last := nodes[0], nodes[n - 1];
    var node := nodes[i];
    RangeAt(nodes, 0);
    RangeAt(nodes, i);
    RangeAt(nodes, n - 1);
    ApartAt(nodes, 0, n - 1);
    var depth := DifferingBit(first.min, last.max);
    if i + 1 < n {
      ApartAt(nodes, i, n - 1);
      if i > 0 { ApartAt(nodes, 0, i); }
      Between(first.min, node.max, last.max, depth);
      Between(node.max, last.min, last.max, depth);
    } else {
      Between(first.min, node.min, last.max, depth);
      Between(first.min, first.max, node.min, depth);
    }
    BitsAgree(node.min, node.max, depth);
  }

  /** The top split of a pairwise-apart list. */
  lemma ApartSplit(nodes: seq<Commitment>) returns (depth: nat, split: nat)
    requires PairwiseApart(nodes) && |nodes| > 1
    ensures depth == DifferingBit(nodes[0].min, nodes[|nodes| - 1].max) < BITS
    ensures split == SplitPoint(nodes, depth) && 0 < split < |nodes|
    ensures forall i :: 0 <= i < |nodes| ==> (Bit(nodes[i].min, depth) <==> split <= i)
    ensures nodes[0].min <= nodes[split - 1].max < nodes[split].min <= nodes[|nodes| - 1].max
    ensures !Bit(nodes[split - 1].max, depth)
  {
    var n := |nodes|;
    depth := DifferingBit(nodes[0].min, nodes[n - 1].max);
    NoStraddle(nodes, 0);
    NoStraddle(nodes, n - 1);
    split := SplitPoint(nodes, depth);
    forall i | 0 <= i < n ensures Bit(nodes[i].min, depth) <==> split <= i {
      NoStraddle(nodes, i);
      if split < i {
        NoStraddle(nodes, split);
        ApartAt(nodes, split, i);
        Between(nodes[0].min, nodes[split].min, nodes[n - 1].max, depth);
        Between(nodes[split].min, nodes[i].min, nodes[n - 1].max, depth);
      }
    }
    ApartAt(nodes, split - 1, split);
    NoStraddle(nodes, split - 1);
    NoStraddle(nodes, split);
  }

  lemma {:induction false} PairwiseApartSlice(nodes: seq<Commitment>, split: nat)
    requires PairwiseApart(nodes) && split <= |nodes|
    ensures PairwiseApart(nodes[..split]) && PairwiseApart(nodes[split..])
  {
    if split == 0 {
      assert nodes[0..] == nodes;
    } else {
      PairwiseApartSlice(nodes[1..], split - 1);
      assert nodes[..split][1..] == nodes[1..][..split - 1] && nodes[1..][split - 1..] == nodes[split..];
      assert forall j :: 0 <= j < split - 1 ==> nodes[1..][..split - 1][j] == nodes[1..][j];
    }
  }

  /** Halves that combine, of nodes that stand apart, combine together. */
  lemma CombineHalves(nodes: seq<Commitment>, depth: nat, split: nat)
    requires PairwiseApart(nodes) && |nodes| > 1
    requires depth == DifferingBit(nodes[0].min, nodes[|nodes| - 1].max) < BITS
    requires split == SplitPoint(nodes, depth) && 0 < split < |nodes|
    requires forall i :: 0 <= i < |nodes| ==> (Bit(nodes[i].min, depth) <==> split <= i)
    requires nodes[0].min <= nodes[split - 1].max < nodes[split].min <= nodes[|nodes| - 1].max
    requires !Bit(nodes[split - 1].max, depth)
    requires Combine(nodes[..split]).Ok? && Combine(nodes[split..]).Ok?
    ensures Combine(nodes).Ok?
  {
    hide PairwiseApart, Combine;
    var left, right := Combine(nodes[..split]).value.value, Combine(nodes[split..]).value.value;
    CombineRange(nodes[..split], left);
    CombineRange(nodes[split..], right);
    JoinAtSplit(left.min, left.max, right.min, right.max);
    BranchOfJoined(left, right, depth);
    CombineStep(nodes, depth, split, left, right);
  }

  /** The reconstruction never rejects nodes none of which covers another. */
  lemma {:induction false} CombineSucceeds(nodes: seq<Commitment>)
    requires PairwiseApart(nodes)
    ensures Combine(nodes).Ok?
    decreases |nodes|
  {
    hide PairwiseApart, Bit, DifferingBit, Branch;
    if |nodes| > 1 {
      var depth, split := ApartSplit(nodes);
      PairwiseApartSlice(nodes, split);
      CombineSucceeds(nodes[..split]);
      CombineSucceeds(nodes[split..]);
      CombineHalves(nodes, depth, split);
    }
  }

  // ----- the tree of a sorted account list

  lemma LeavesOfLeafNodes(values: seq<Account>)
    ensures AllCanonical(LeafNodes(values)) && LeavesOf(LeafNodes(values)) == values
  {
    if values != [] {
      LeavesOfLeafNodes(values[1..]);
      assert LeafNodes(values)[1..] == LeafNodes(values[1..]);
    }
  }

  lemma LeafNodesApart(values: seq<Account>)
    requires SortedById(values)
    ensures PairwiseApart(LeafNodes(values))
  {
    PairwiseApartIntro(LeafNodes(values));
  }

  lemma LeafNodesSlice(values: seq<Account>, split: nat)
    requires split <= |values|
    ensures LeafNodes(values)[..split] == LeafNodes(values[..split])
    ensures LeafNodes(values)[split..] == LeafNodes(values[split..])
  {
  }

  /** The split point of the accounts is the split point of their leaf nodes. */
  lemma SplitsAgree(values: seq<Account>, depth: nat)
    requires depth < BITS
    ensures SplitPoint(LeafNodes(values), depth) == SplitAccounts(values, depth)
  {
    var leaves := LeafNodes(values);
    assert forall i :: 0 <= i < |values| ==> leaves[i].max == values[i].id;
  }

  /** A tree whose stored commitments are the branches of its children. */
  ghost predicate Faithful(node: Node) {
    match node
    case Empty => true
    case LeafNode(commitment) => Canonical(commitment) && commitment.root.LeafHash?
    case BranchNode(commitment, left, right) =>
      && !left.Empty? && !right.Empty? && Faithful(left) && Faithful(right)
      && Canonical(commitment) && commitment.root.BranchHash?
      && commitment.root.left == left.commitment && commitment.root.right == right.commitment
  }

  /** `build` over a sorted list succeeds, and its commitment is the one the
      divide-and-conquer reconstruction gives for the bare leaves. */
  lemma {:induction false} BuildIsCombine(values: seq<Account>)
    requires SortedById(values)
    ensures Build(values).Ok?
    ensures Combine(LeafNodes(values)) == Ok(Build(values).value.Committed())
    decreases |values|
  {
    if |values| > 1 {
      var depth, split, left, right := SplitLeaves(values);
      BuildIsCombine(values[..split]);
      BuildIsCombine(values[split..]);
      BuildStep(values, depth, split, Build(values[..split]).value, Build(values[split..]).value);
    }
  }

  /** The first cut of a sorted list, shared by both algorithms. */
  lemma SplitLeaves(values: seq<Account>)
    returns (depth: nat, split: nat, left: Commitment, right: Commitment)
    requires SortedById(values) && |values| > 1
    ensures depth == DifferingBit(values[0].id, values[|values| - 1].id) < BITS
    ensures split == SplitAccounts(values, depth) && 0 < split < |values|
    ensures SortedById(values[..split]) && SortedById(values[split..])
    ensures Combine(LeafNodes(values[..split])) == Ok(Some(left))
    ensures Combine(LeafNodes(values[split..])) == Ok(Some(right))
    ensures Branch(left, right).Ok? && Combine(LeafNodes(values)) == Ok(Some(Branch(left, right).value))
  {
    var leaves := LeafNodes(values);
    assert leaves[0].min == values[0].id && leaves[|values| - 1].max == values[|values| - 1].id;
    assert Combine(leaves).Ok? by {
      LeafNodesApart(values);
      CombineSucceeds(leaves);
    }
    depth, split, left, right := CombineUnfold(leaves);
    SplitsAgree(values, depth);
    LeafNodesSlice(values, split);
  }

  lemma BuildStep(values: seq<Account>, depth: nat, split: nat, left: Node, right: Node)
    requires |values| > 1
    requires depth == DifferingBit(values[0].id, values[|values| - 1].id) < BITS
    requires 0 < split < |values| && split == SplitAccounts(values, depth)
    requires Build(values[..split]) == Ok(left) && Build(values[split..]) == Ok(right)
    requires !left.Empty? && !right.Empty?
    requires Branch(left.commitment, right.commitment).Ok?
    ensures Build(values) == Ok(BranchNode(Branch(left.commitment, right.commitment).value, left, right))
  {
  }

  /** The tree of a sorted list commits to that list. */
  lemma BuildCanonical(values: seq<Account>)
    requires SortedById(values)
    ensures Build(values).Ok?
    ensures Build(values).value.Empty? <==> values == []
    ensures values != [] ==>
              var top := Build(values).value.commitment; Canonical(top) && Leaves(top) == values
  {
    BuildIsCombine(values);
    if values != [] {
      LeavesOfLeafNodes(values);
      CombineSound(LeafNodes(values), Build(values).value.commitment);
    }
  }

  lemma {:induction false} BuildFaithful(values: seq<Account>)
    requires SortedById(values)
    ensures Build(values).Ok? && Faithful(Build(values).value)
    decreases |values|
  {
    BuildCanonical(values);
    if |values| > 1 {
      var depth, split, left, right := SplitLeaves(values);
      BuildFaithful(values[..split]);
      BuildFaithful(values[split..]);
      var l, r := Build(values[..split]).value, Build(values[split..]).value;
      BuildIsCombine(values[..split]);
      BuildIsCombine(values[split..]);
      BuildStep(values, depth, split, l, r);
      FaithfulBranch(Build(values).value, l, r);
    }
  }

  lemma FaithfulBranch(node: Node, left: Node, right: Node)
    requires !left.Empty? && !right.Empty? && Faithful(left) && Faithful(right)
    requires Branch(left.commitment, right.commitment).Ok?
    requires node == BranchNode(Branch(left.commitment, right.commitment).value, left, right)
    requires Canonical(node.commitment)
    ensures Faithful(node)
  {
  }
}
