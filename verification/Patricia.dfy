/** The path-compressed Patricia tree over accounts (trees/patricia.rs): the
    recursive root, the pruned multiproof and its divide-and-conquer reading. */
module Patricia {
  import opened Keys
  import opened Results
  import opened Sorting
  import opened Types

  datatype Node =
    | Empty
    | LeafNode(commitment: Commitment)
    | BranchNode(commitment: Commitment, left: Node, right: Node)
  {
    function Committed(): Option<Commitment> {
      if Empty? then None else Some(commitment)
    }
  }

  datatype Multiproof = Multiproof(leafKeys: seq<Key>, sideNodes: seq<Commitment>)

  function Leaf(account: Account): Commitment {
    Commitment(LeafHash(account.id, AccountHash(account)), account.id, account.id)
  }

  function Branch(left: Commitment, right: Commitment): Result<Commitment> {
    if left.max >= right.min then
      Err(InvalidMultiproof)
    else
      var depth := DifferingBit(left.max, right.min);
      if Bit(left.min, depth) || Bit(left.max, depth) || !Bit(right.min, depth) || !Bit(right.max, depth) then
        Err(InvalidMultiproof)
      else
        Ok(Commitment(BranchHash(depth, left, right), left.min, right.max))
  }

  /** First position whose range ends in the one-half of bit `depth`. */
  function SplitPoint(nodes: seq<Commitment>, depth: nat): (split: nat)
    requires depth < BITS
    ensures split <= |nodes|
    ensures forall i :: 0 <= i < split ==> !Bit(nodes[i].max, depth)
    ensures split < |nodes| ==> Bit(nodes[split].max, depth)
  {
    if nodes == [] || Bit(nodes[0].max, depth) then 0 else 1 + SplitPoint(nodes[1..], depth)
  }

  /** First account whose key has bit `depth` set. */
  function SplitAccounts(values: seq<Account>, depth: nat): (split: nat)
    requires depth < BITS
    ensures split <= |values|
    ensures forall i :: 0 <= i < split ==> !Bit(values[i].id, depth)
    ensures split < |values| ==> Bit(values[split].id, depth)
  {
    if values == [] || Bit(values[0].id, depth) then 0 else 1 + SplitAccounts(values[1..], depth)
  }

  function Build(values: seq<Account>): Result<Node>
    decreases |values|
  {
    if |values| == 0 then
      Ok(Empty)
    else if |values| == 1 then
      Ok(LeafNode(Leaf(values[0])))
    else
      var depth := DifferingBit(values[0].id, values[|values| - 1].id);
      if depth == BITS then
        Err(InvalidMultiproof)
      else
        var split := SplitAccounts(values, depth);
        if split == 0 || split == |values| then
          Err(InvalidMultiproof)
        else
          var left :- Build(values[..split]);
          var right :- Build(values[split..]);
          if left.Empty? || right.Empty? then
            Err(InvalidMultiproof)
          else
            var commitment :- Branch(left.commitment, right.commitment);
            Ok(BranchNode(commitment, left, right))
  }

  /** Some node starts on the other side of the split than it ends. */
  predicate Straddles(nodes: seq<Commitment>, split: nat, depth: nat)
    requires split <= |nodes| && depth < BITS
  {
    || (exists i :: 0 <= i < split && Bit(nodes[i].min, depth))
    || (exists i :: split <= i < |nodes| && !Bit(nodes[i].min, depth))
  }

  function Combine(nodes: seq<Commitment>): (r: Result<Option<Commitment>>)
    ensures r.Ok? ==> (r.value.None? <==> nodes == [])
    decreases |nodes|
  {
    if |nodes| == 0 then
      Ok(None)
    else if |nodes| == 1 then
      Ok(Some(nodes[0]))
    else
      var depth := DifferingBit(nodes[0].min, nodes[|nodes| - 1].max);
      if depth == BITS then
        Err(InvalidMultiproof)
      else
        var split := SplitPoint(nodes, depth);
        if split == 0 || split == |nodes| || Straddles(nodes, split, depth) then
          Err(InvalidMultiproof)
        else
          var left :- Combine(nodes[..split]);
          var right :- Combine(nodes[split..]);
          var commitment :- Branch(left.value, right.value);
          Ok(Some(commitment))
  }

  function Finalize(node: Option<Commitment>): Digest {
    if node.None? then EmptyTree else RootHash(node.value)
  }

  /** First selected key not below the node, as a partition point. */
  function FirstNotBelow(keys: seq<Key>, min: Key): (index: nat)
    ensures index <= |keys|
    ensures forall i :: 0 <= i < index ==> keys[i] < min
    ensures index < |keys| ==> keys[index] >= min
  {
    if keys == [] || keys[0] >= min then 0 else 1 + FirstNotBelow(keys[1..], min)
  }

  predicate SelectedIn(keys: seq<Key>, node: Commitment) {
    var index := FirstNotBelow(keys, node.min);
    index < |keys| && keys[index] <= node.max
  }

  /** A selected key that would land below the branch if it were inserted. */
  predicate LandsBelow(key: Key, node: Commitment, depth: nat) {
    var boundary := if key < node.min then node.min else node.max;
    var difference := DifferingBit(key, boundary);
    difference < BITS && difference > depth
  }

  predicate Affected(node: Node, keys: seq<Key>)
    requires node.BranchNode? && !node.left.Empty? && !node.right.Empty?
  {
    var depth := DifferingBit(node.left.commitment.max, node.right.commitment.min);
    SelectedIn(keys, node.commitment) || exists i :: 0 <= i < |keys| && LandsBelow(keys[i], node.commitment, depth)
  }

  /** No branch of a built tree has an empty child. */
  predicate WellFormed(node: Node) {
    node.BranchNode? ==>
      !node.left.Empty? && !node.right.Empty? && WellFormed(node.left) && WellFormed(node.right)
  }

  function SideNodes(node: Node, keys: seq<Key>): seq<Commitment>
    requires WellFormed(node)
  {
    match node
    case Empty => []
    case LeafNode(commitment) => if SelectedIn(keys, commitment) then [] else [commitment]
    case BranchNode(commitment, left, right) =>
      if Affected(node, keys) then SideNodes(left, keys) + SideNodes(right, keys) else [commitment]
  }

  /** Sorts by key and rejects duplicates. */
  function SortAccounts(values: seq<Account>): (r: Result<seq<Account>>) {
    var sorted := Sort(values, AccountBefore);
    if exists i :: 0 <= i < |sorted| - 1 && sorted[i].id == sorted[i + 1].id then
      Err(InvalidMultiproof)
    else
      Ok(sorted)
  }

  function SortKeys(keys: seq<Key>): (r: Result<seq<Key>>) {
    var sorted := Sort(keys, KeyBefore);
    if exists i :: 0 <= i < |sorted| - 1 && sorted[i] == sorted[i + 1] then
      Err(InvalidMultiproof)
    else
      Ok(sorted)
  }

  function ComputeRoot(values: seq<Account>): Result<Digest> {
    var sorted :- SortAccounts(values);
    var tree :- Build(sorted);
    Ok(Finalize(tree.Committed()))
  }

  function BuildMultiproof(values: seq<Account>, selected: seq<Key>): Result<Multiproof> {
    if selected == [] then
      Err(InvalidMultiproof)
    else
      var keys :- SortKeys(selected);
      var sorted :- SortAccounts(values);
      var tree :- Build(sorted);
      BuildWellFormed(sorted);
      Ok(Multiproof(keys, SideNodes(tree, keys)))
  }

  predicate ProofWellOrdered(proof: Multiproof) {
    && proof.leafKeys != []
    && (forall i :: 0 <= i < |proof.leafKeys| - 1 ==> proof.leafKeys[i] < proof.leafKeys[i + 1])
    && (forall i :: 0 <= i < |proof.sideNodes| ==> proof.sideNodes[i].min <= proof.sideNodes[i].max)
    && (forall i :: 0 <= i < |proof.sideNodes| - 1 ==> proof.sideNodes[i].max < proof.sideNodes[i + 1].min)
  }

  function LeafNodes(values: seq<Account>): (r: seq<Commitment>)
    ensures |r| == |values|
    ensures forall i :: 0 <= i < |r| ==> r[i] == Leaf(values[i])
  {
    seq(|values|, i requires 0 <= i < |values| => Leaf(values[i]))
  }

  /** Two-way merge by range start; a side node wins a tie. */
  function Merge(leaves: seq<Commitment>, sides: seq<Commitment>): (r: seq<Commitment>)
    decreases |leaves| + |sides|
  {
    if leaves == [] && sides == [] then
      []
    else if sides == [] || (leaves != [] && leaves[0].min < sides[0].min) then
      [leaves[0]] + Merge(leaves[1..], sides)
    else
      [sides[0]] + Merge(leaves, sides[1..])
  }

  predicate Ordered(nodes: seq<Commitment>) {
    forall i :: 0 <= i < |nodes| - 1 ==> nodes[i].max < nodes[i + 1].min
  }

  function RootFromProof(values: seq<Account>, proof: Multiproof): Result<Digest> {
    if !ProofWellOrdered(proof) then
      Err(InvalidMultiproof)
    else
      var sorted :- SortAccounts(values);
      if (exists i :: 0 <= i < |sorted| && sorted[i].id !in proof.leafKeys)
         || (exists i :: 0 <= i < |proof.sideNodes| && SelectedIn(proof.leafKeys, proof.sideNodes[i])) then
        Err(InvalidMultiproof)
      else
        var nodes := Merge(LeafNodes(sorted), proof.sideNodes);
        if !Ordered(nodes) then
          Err(InvalidMultiproof)
        else
          var top :- Combine(nodes);
          Ok(Finalize(top))
  }

  lemma BuildWellFormed(values: seq<Account>)
    ensures Build(values).Ok? ==> WellFormed(Build(values).value)
    decreases |values|
  {
    if |values| > 1 {
      var depth := DifferingBit(values[0].id, values[|values| - 1].id);
      if depth < BITS {
        var split := SplitAccounts(values, depth);
        if split != 0 && split != |values| {
          BuildWellFormed(values[..split]);
          BuildWellFormed(values[split..]);
        }
      }
    }
  }

  /** Appends the side nodes of a subtree to `output`, left to right. */
  method CollectSideNodes(node: Node, keys: seq<Key>, output: seq<Commitment>) returns (collected: seq<Commitment>)
    requires WellFormed(node)
    ensures collected == output + SideNodes(node, keys)
  {
    if node.Empty? {
      return output;
    }
    if node.BranchNode? {
      if Affected(node, keys) {
        collected := CollectSideNodes(node.left, keys, output);
        collected := CollectSideNodes(node.right, keys, collected);
        return;
      }
    } else if SelectedIn(keys, node.commitment) {
      return output;
    }
    collected := output + [node.commitment];
  }

  /** One step of the merge, by positions. */
  lemma MergeAt(leaves: seq<Commitment>, sides: seq<Commitment>, i: nat, j: nat)
    requires i <= |leaves| && j <= |sides| && (i < |leaves| || j < |sides|)
    ensures Merge(leaves[i..], sides[j..]) ==
            if j == |sides| || (i < |leaves| && leaves[i].min < sides[j].min) then
              [leaves[i]] + Merge(leaves[i + 1..], sides[j..])
            else
              [sides[j]] + Merge(leaves[i..], sides[j + 1..])
  {
    if i < |leaves| { assert leaves[i..][1..] == leaves[i + 1..]; }
    if j < |sides| { assert sides[j..][1..] == sides[j + 1..]; }
  }

  lemma Regroup(before: seq<Commitment>, node: Commitment, rest: seq<Commitment>)
    ensures before + ([node] + rest) == (before + [node]) + rest
  {
  }

  /** The two-index merge of leaves and side nodes. */
  method MergeNodes(leaves: seq<Commitment>, sides: seq<Commitment>) returns (nodes: seq<Commitment>)
    ensures nodes == Merge(leaves, sides)
  {
    assert leaves[0..] == leaves && sides[0..] == sides && Merge([], []) == [];
    hide Merge;
    nodes := [];
    var leafIndex, sideIndex := 0, 0;
    while leafIndex < |leaves| || sideIndex < |sides|
      invariant leafIndex <= |leaves| && sideIndex <= |sides|
      invariant Merge(leaves, sides) == nodes + Merge(leaves[leafIndex..], sides[sideIndex..])
      decreases |leaves| - leafIndex + |sides| - sideIndex
    {
      MergeAt(leaves, sides, leafIndex, sideIndex);
      var useLeaf := sideIndex == |sides|
                     || (leafIndex < |leaves| && leaves[leafIndex].min < sides[sideIndex].min);
      if useLeaf {
        Regroup(nodes, leaves[leafIndex], Merge(leaves[leafIndex + 1..], sides[sideIndex..]));
        nodes := nodes + [leaves[leafIndex]];
        leafIndex := leafIndex + 1;
      } else {
        Regroup(nodes, sides[sideIndex], Merge(leaves[leafIndex..], sides[sideIndex + 1..]));
        nodes := nodes + [sides[sideIndex]];
        sideIndex := sideIndex + 1;
      }
    }
  }

  method ComputeRootFromProof(values: seq<Account>, proof: Multiproof) returns (r: Result<Digest>)
    ensures r == RootFromProof(values, proof)
  {
    if !ProofWellOrdered(proof) {
      return Err(InvalidMultiproof);
    }
    var sorted :- SortAccounts(values);
    if (exists i :: 0 <= i < |sorted| && sorted[i].id !in proof.leafKeys)
       || (exists i :: 0 <= i < |proof.sideNodes| && SelectedIn(proof.leafKeys, proof.sideNodes[i])) {
      return Err(InvalidMultiproof);
    }
    var nodes := MergeNodes(LeafNodes(sorted), proof.sideNodes);
    if !Ordered(nodes) {
      return Err(InvalidMultiproof);
    }
    var top :- Combine(nodes);
    r := Ok(Finalize(top));
  }
}
