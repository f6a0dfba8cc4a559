/** The sparse Merkle tree (trees/smt.rs) on values: the root, the bits and
    side nodes a proof consists of, and how they are read back. */
module Sparse {
  import opened Keys
  import opened Results
  import opened Sorting

  datatype SparseLeaf = SparseLeaf(key: Key, content: nat)

  datatype Hash = Opaque(bytes: nat) | LeafOf(leaf: SparseLeaf) | NodeOf(left: Hash, right: Hash)

  /** A key with or without a value. */
  datatype ProofLeaf = ProofLeaf(key: Key, value: Option<SparseLeaf>)

  datatype SparseProof = SparseProof(leafKeys: seq<Key>, bitmap: seq<bv8>, sideNodes: seq<Hash>)

  /** The literal empty hashes by height: each is the node over the one below. */
  ghost predicate Linked(table: seq<Hash>) {
    |table| > BITS && forall h :: 0 <= h < BITS ==> table[h + 1] == NodeOf(table[h], table[h])
  }

  function EmptyHash(table: seq<Hash>, depth: nat): Hash
    requires |table| > BITS && depth <= BITS
  {
    table[BITS - depth]
  }

  function LeafValue(leaf: ProofLeaf, emptyLeaf: Hash): Hash {
    if leaf.value.Some? then LeafOf(leaf.value.value) else emptyLeaf
  }

  /** First leaf whose key has bit `depth` set. */
  function Split(leaves: seq<ProofLeaf>, depth: nat): (split: nat)
    requires depth < BITS
    ensures split <= |leaves|
    ensures forall i :: 0 <= i < split ==> !Bit(leaves[i].key, depth)
    ensures split < |leaves| ==> Bit(leaves[split].key, depth)
  {
    if leaves == [] || Bit(leaves[0].key, depth) then 0 else 1 + Split(leaves[1..], depth)
  }

  function SubtreeRoot(table: seq<Hash>, leaves: seq<ProofLeaf>, depth: nat): Hash
    requires |table| > BITS && depth <= BITS
    decreases BITS - depth
  {
    if leaves == [] then EmptyHash(table, depth)
    else if depth == BITS then LeafValue(leaves[0], EmptyHash(table, depth))
    else
      var split := Split(leaves, depth);
      NodeOf(SubtreeRoot(table, leaves[..split], depth + 1), SubtreeRoot(table, leaves[split..], depth + 1))
  }

  // ----- writing

  datatype Emission = Emission(bits: seq<bool>, sides: seq<Hash>)

  function Joined(a: Emission, b: Emission): Emission {
    Emission(a.bits + b.bits, a.sides + b.sides)
  }

  /** One bit per subtree without a selected key, and its root unless empty. */
  function Emit(table: seq<Hash>, all: seq<ProofLeaf>, selected: seq<ProofLeaf>, depth: nat): Emission
    requires |table| > BITS && depth <= BITS
    decreases BITS - depth
  {
    if selected == [] then
      var root := SubtreeRoot(table, all, depth);
      if root != EmptyHash(table, depth) then Emission([true], [root]) else Emission([false], [])
    else if depth == BITS then
      Emission([], [])
    else
      var allSplit, selectedSplit := Split(all, depth), Split(selected, depth);
      Joined(Emit(table, all[..allSplit], selected[..selectedSplit], depth + 1),
             Emit(table, all[allSplit..], selected[selectedSplit..], depth + 1))
  }

  // ----- reading

  /** A root and the bits and side nodes that are left. */
  datatype Reading = Reading(root: Hash, rest: Emission)

  function Consume(table: seq<Hash>, leaves: seq<ProofLeaf>, depth: nat, input: Emission): Result<Reading>
    requires |table| > BITS && depth <= BITS
    decreases BITS - depth
  {
    if leaves == [] then
      if input.bits == [] then Err(InvalidMultiproof)
      else if !input.bits[0] then Ok(Reading(EmptyHash(table, depth), Emission(input.bits[1..], input.sides)))
      else if input.sides == [] then Err(InvalidMultiproof)
      else Ok(Reading(input.sides[0], Emission(input.bits[1..], input.sides[1..])))
    else if depth == BITS then
      if |leaves| != 1 then Err(InvalidMultiproof)
      else Ok(Reading(LeafValue(leaves[0], EmptyHash(table, depth)), input))
    else
      var split := Split(leaves, depth);
      var left :- Consume(table, leaves[..split], depth + 1, input);
      var right :- Consume(table, leaves[split..], depth + 1, left.rest);
      Ok(Reading(NodeOf(left.root, right.root), right.rest))
  }

  // ----- bits of a byte string, most significant first

  function Mask(k: nat): bv8
    requires k < 8
  {
    1 << (7 - k)
  }

  predicate ByteBit(byte: bv8, k: nat)
    requires k < 8
  {
    byte & Mask(k) != 0
  }

  function Bits(bitmap: seq<bv8>): (r: seq<bool>)
    ensures |r| == 8 * |bitmap|
    ensures forall i :: 0 <= i < |r| ==> r[i] == ByteBit(bitmap[i / 8], i % 8)
  {
    seq(8 * |bitmap|, i requires 0 <= i < 8 * |bitmap| => ByteBit(bitmap[i / 8], i % 8))
  }

  /** The bitmap holds exactly these bits, padded with zeros to whole bytes. */
  ghost predicate Packs(bitmap: seq<bv8>, bits: seq<bool>) {
    && |bitmap| == (|bits| + 7) / 8
    && forall i :: 0 <= i < 8 * |bitmap| ==> Bits(bitmap)[i] == (i < |bits| && bits[i])
  }

  /** What the reader leaves over must be padding. */
  predicate Finished(rest: Emission) {
    |rest.bits| < 8 && rest.sides == [] && forall i :: 0 <= i < |rest.bits| ==> !rest.bits[i]
  }

  // ----- selecting leaves

  predicate LeafBefore(a: ProofLeaf, b: ProofLeaf) {
    a.key < b.key
  }

  function Present(values: seq<SparseLeaf>): (r: seq<ProofLeaf>)
    ensures |r| == |values| && forall i :: 0 <= i < |r| ==> r[i] == ProofLeaf(values[i].key, Some(values[i]))
  {
    seq(|values|, i requires 0 <= i < |values| => ProofLeaf(values[i].key, Some(values[i])))
  }

  /** Sorted by key, duplicates refused. */
  function Leaves(values: seq<SparseLeaf>): Result<seq<ProofLeaf>> {
    var sorted := Sort(Present(values), LeafBefore);
    if exists i :: 0 <= i < |sorted| - 1 && sorted[i].key == sorted[i + 1].key then Err(InvalidMultiproof) else Ok(sorted)
  }

  function OrderedLeaves(values: seq<SparseLeaf>): Result<seq<ProofLeaf>> {
    var leaves := Present(values);
    if exists i :: 0 <= i < |leaves| - 1 && leaves[i].key >= leaves[i + 1].key then Err(InvalidMultiproof) else Ok(leaves)
  }

  /** The two-pointer selection; `reject` refuses leaves at other keys. */
  function SelectLeaves(keys: seq<Key>, leaves: seq<ProofLeaf>, reject: bool): Result<seq<ProofLeaf>>
    decreases |keys| + |leaves|
  {
    if keys == [] then
      if reject && leaves != [] then Err(InvalidMultiproof) else Ok([])
    else if leaves != [] && leaves[0].key < keys[0] then
      if reject then Err(InvalidMultiproof) else SelectLeaves(keys, leaves[1..], reject)
    else if leaves != [] && leaves[0].key == keys[0] then
      var rest :- SelectLeaves(keys[1..], leaves[1..], reject);
      Ok([leaves[0]] + rest)
    else
      var rest :- SelectLeaves(keys[1..], leaves, reject);
      Ok([ProofLeaf(keys[0], None)] + rest)
  }

  predicate KeyLess(a: Key, b: Key) {
    a < b
  }

  function ComputeRoot(table: seq<Hash>, values: seq<SparseLeaf>): Result<Hash>
    requires |table| > BITS
  {
    var leaves :- Leaves(values);
    Ok(SubtreeRoot(table, leaves, 0))
  }

  /** The sorted keys with the bits and side nodes the writer emits. */
  function Proof(table: seq<Hash>, values: seq<SparseLeaf>, selected: seq<Key>): Result<(seq<Key>, Emission)>
    requires |table| > BITS
  {
    var all :- Leaves(values);
    var keys := Sort(selected, KeyLess);
    if selected == [] || exists i :: 0 <= i < |keys| - 1 && keys[i] == keys[i + 1] then
      Err(InvalidMultiproof)
    else
      var leaves :- SelectLeaves(keys, all, false);
      Ok((keys, Emit(table, all, leaves, 0)))
  }

  function RootFromProof(table: seq<Hash>, values: seq<SparseLeaf>, proof: SparseProof): Result<Hash>
    requires |table| > BITS
  {
    if proof.leafKeys == [] || exists i :: 0 <= i < |proof.leafKeys| - 1 && proof.leafKeys[i] >= proof.leafKeys[i + 1] then
      Err(InvalidMultiproof)
    else
      var supplied :- OrderedLeaves(values);
      var leaves :- SelectLeaves(proof.leafKeys, supplied, true);
      var reading :- Consume(table, leaves, 0, Emission(Bits(proof.bitmap), proof.sideNodes));
      if Finished(reading.rest) then Ok(reading.root) else Err(InvalidMultiproof)
  }

  // ----- halves of a range of keys

  ghost predicate SortedLeaves(leaves: seq<ProofLeaf>) {
    forall i, j :: 0 <= i < j < |leaves| ==> leaves[i].key < leaves[j].key
  }

  /** All keys below one node of the tree. */
  ghost predicate Below(keys: set<Key>, depth: nat) {
    forall a, b :: a in keys && b in keys ==> depth <= DifferingBit(a, b)
  }

  ghost function Half(keys: set<Key>, depth: nat, right: bool): set<Key>
    requires depth < BITS
  {
    set k | k in keys && Bit(k, depth) == right
  }

  lemma HalfBelow(keys: set<Key>, depth: nat, right: bool)
    requires depth < BITS && Below(keys, depth)
    ensures Below(Half(keys, depth, right), depth + 1)
  {
    forall a, b | a in Half(keys, depth, right) && b in Half(keys, depth, right) ensures depth + 1 <= DifferingBit(a, b) {
      DifferingBitLater(a, b, depth);
    }
  }

  ghost predicate KeysIn(leaves: seq<ProofLeaf>, keys: set<Key>) {
    forall i :: 0 <= i < |leaves| ==> leaves[i].key in keys
  }

  lemma SplitMonotone(leaves: seq<ProofLeaf>, keys: set<Key>, depth: nat)
    requires depth < BITS && Below(keys, depth) && SortedLeaves(leaves) && KeysIn(leaves, keys)
    ensures forall i :: 0 <= i < |leaves| ==> (Bit(leaves[i].key, depth) <==> i >= Split(leaves, depth))
  {
    hide Bit, DifferingBit;
    var s := Split(leaves, depth);
    forall i | s <= i < |leaves| ensures Bit(leaves[i].key, depth) {
      assert leaves[s].key in keys && leaves[i].key in keys;
      assert leaves[s].key <= leaves[i].key;
      Between(leaves[s].key, leaves[i].key, leaves[i].key, depth);
    }
  }

  lemma SplitMembers(leaves: seq<ProofLeaf>, s: nat, depth: nat)
    requires depth < BITS && s <= |leaves|
    requires forall i :: 0 <= i < |leaves| ==> (Bit(leaves[i].key, depth) <==> i >= s)
    ensures forall l :: l in leaves[..s] <==> l in leaves && !Bit(l.key, depth)
    ensures forall l :: l in leaves[s..] <==> l in leaves && Bit(l.key, depth)
  {
    hide Bit;
    forall l | l in leaves ensures l in leaves[if Bit(l.key, depth) then s else 0..if Bit(l.key, depth) then |leaves| else s] {
      var i :| 0 <= i < |leaves| && leaves[i] == l;
      assert i >= s ==> leaves[s..][i - s] == l;
      assert i < s ==> leaves[..s][i] == l;
    }
  }

  /** The two halves of a sorted list are exactly its leaves by bit. */
  lemma SplitHalves(leaves: seq<ProofLeaf>, keys: set<Key>, depth: nat)
    requires depth < BITS && Below(keys, depth) && SortedLeaves(leaves) && KeysIn(leaves, keys)
    ensures var s := Split(leaves, depth);
            && KeysIn(leaves[..s], Half(keys, depth, false)) && KeysIn(leaves[s..], Half(keys, depth, true))
            && SortedLeaves(leaves[..s]) && SortedLeaves(leaves[s..])
            && (forall l :: l in leaves[..s] <==> l in leaves && !Bit(l.key, depth))
            && (forall l :: l in leaves[s..] <==> l in leaves && Bit(l.key, depth))
  {
    hide Bit, DifferingBit;
    SplitMonotone(leaves, keys, depth);
    SplitMembers(leaves, Split(leaves, depth), depth);
  }

  // ----- the round trip, node by node

  /** The selection holds the value of each of its keys in the list. */
  ghost predicate Selects(selected: seq<ProofLeaf>, all: seq<ProofLeaf>) {
    forall s :: s in selected ==>
      if s.value.Some? then s in all else forall l :: l in all ==> l.key != s.key
  }

  ghost predicate HasKey(leaves: seq<ProofLeaf>, key: Key) {
    exists l :: l in leaves && l.key == key
  }

  /** The lists agree at every key that is not selected. */
  ghost predicate AgreeOutside(before: seq<ProofLeaf>, after: seq<ProofLeaf>, selected: seq<ProofLeaf>) {
    forall l: ProofLeaf :: !HasKey(selected, l.key) ==> (l in before <==> l in after)
  }

  ghost predicate SameKeys(a: seq<ProofLeaf>, b: seq<ProofLeaf>) {
    |a| == |b| && forall i :: 0 <= i < |a| ==> a[i].key == b[i].key
  }

  lemma {:induction false} SameKeysSplit(a: seq<ProofLeaf>, b: seq<ProofLeaf>, depth: nat)
    requires SameKeys(a, b) && depth < BITS
    ensures Split(a, depth) == Split(b, depth)
  {
    if a != [] {
      SameKeysSplit(a[1..], b[1..], depth);
    }
  }

  /** Before and after at one node: sorted lists below it, selections at the
      same keys, agreement elsewhere. */
  ghost predicate Paired(keys: set<Key>, before: seq<ProofLeaf>, selected: seq<ProofLeaf>,
                         after: seq<ProofLeaf>, updated: seq<ProofLeaf>, depth: nat) {
    && Below(keys, depth)
    && KeysIn(before, keys) && KeysIn(after, keys) && KeysIn(selected, keys)
    && SortedLeaves(before) && SortedLeaves(after) && SortedLeaves(selected)
    && SameKeys(selected, updated) && Selects(updated, after)
    && AgreeOutside(before, after, selected)
  }

  lemma PairedHalves(keys: set<Key>, before: seq<ProofLeaf>, selected: seq<ProofLeaf>,
                     after: seq<ProofLeaf>, updated: seq<ProofLeaf>, depth: nat)
    requires depth < BITS && Paired(keys, before, selected, after, updated, depth)
    ensures Split(updated, depth) == Split(selected, depth)
    ensures var b, s, a := Split(before, depth), Split(selected, depth), Split(after, depth);
            && Paired(Half(keys, depth, false), before[..b], selected[..s], after[..a], updated[..s], depth + 1)
            && Paired(Half(keys, depth, true), before[b..], selected[s..], after[a..], updated[s..], depth + 1)
  {
    var b, s, a := Split(before, depth), Split(selected, depth), Split(after, depth);
    SameKeysSplit(selected, updated, depth);
    HalfBelow(keys, depth, false);
    HalfBelow(keys, depth, true);
    SplitHalves(before, keys, depth);
    SplitHalves(selected, keys, depth);
    SplitHalves(after, keys, depth);
    HalfAgrees(before, after, selected, before[..b], after[..a], selected[..s], depth, false);
    HalfAgrees(before, after, selected, before[b..], after[a..], selected[s..], depth, true);
    HalfSelects(selected, updated, updated[..s], after, after[..a], depth, false);
    HalfSelects(selected, updated, updated[s..], after, after[a..], depth, true);
  }

  lemma HalfAgrees(before: seq<ProofLeaf>, after: seq<ProofLeaf>, selected: seq<ProofLeaf>,
                   halfBefore: seq<ProofLeaf>, halfAfter: seq<ProofLeaf>, halfSelected: seq<ProofLeaf>, depth: nat, right: bool)
    requires depth < BITS && AgreeOutside(before, after, selected)
    requires forall l :: l in halfBefore <==> l in before && Bit(l.key, depth) == right
    requires forall l :: l in halfAfter <==> l in after && Bit(l.key, depth) == right
    requires forall l :: l in halfSelected <==> l in selected && Bit(l.key, depth) == right
    ensures AgreeOutside(halfBefore, halfAfter, halfSelected)
  {
    forall l: ProofLeaf | !HasKey(halfSelected, l.key) ensures l in halfBefore <==> l in halfAfter {
      assert Bit(l.key, depth) == right ==> forall m :: m in selected && m.key == l.key ==> m in halfSelected;
    }
  }

  lemma HalfSelects(selected: seq<ProofLeaf>, updated: seq<ProofLeaf>, halfUpdated: seq<ProofLeaf>,
                    after: seq<ProofLeaf>, halfAfter: seq<ProofLeaf>, depth: nat, right: bool)
    requires depth < BITS && SameKeys(selected, updated) && Selects(updated, after)
    requires forall l :: l in halfAfter <==> l in after && Bit(l.key, depth) == right
    requires forall i :: 0 <= i < |halfUpdated| ==> halfUpdated[i] in updated && Bit(halfUpdated[i].key, depth) == right
    ensures Selects(halfUpdated, halfAfter)
  {
  }

  lemma SameSortedLeaves(a: seq<ProofLeaf>, b: seq<ProofLeaf>)
    requires SortedLeaves(a) && SortedLeaves(b) && forall l :: l in a <==> l in b
    ensures a == b
  {
    forall i, j | 0 <= i < j < |a| ensures LeafBefore(a[i], a[j]) {
    }
    StrictlyAscendingUnique(a, b, LeafBefore);
  }

  /** Below one full key there is one key. */
  lemma OneKey(keys: set<Key>, leaves: seq<ProofLeaf>)
    requires Below(keys, BITS) && KeysIn(leaves, keys) && SortedLeaves(leaves)
    ensures |leaves| <= 1
  {
    if |leaves| > 1 {
      SoleKey(keys, leaves[0].key, leaves[1].key);
      assert false;
    }
  }

  lemma SoleKey(keys: set<Key>, a: Key, b: Key)
    requires Below(keys, BITS) && a in keys && b in keys
    ensures a == b
  {
    assert DifferingBit(a, b) == BITS;
  }

  lemma LeafRoundTrip(table: seq<Hash>, keys: set<Key>, before: seq<ProofLeaf>, selected: seq<ProofLeaf>,
                      after: seq<ProofLeaf>, updated: seq<ProofLeaf>)
    requires |table| > BITS && Paired(keys, before, selected, after, updated, BITS) && selected != []
    ensures |updated| == 1
    ensures SubtreeRoot(table, after, BITS) == LeafValue(updated[0], EmptyHash(table, BITS))
  {
    OneKey(keys, selected);
    OneKey(keys, after);
    assert updated[0] in updated;
    assert selected[0].key in keys;
    if after != [] {
      assert after[0] in after && after[0].key in keys;
      assert DifferingBit(after[0].key, selected[0].key) == BITS;
    }
    if updated[0].value.Some? {
      assert updated[0] in after;
    }
  }

  lemma EmptySplits(table: seq<Hash>, depth: nat)
    requires Linked(table) && depth < BITS
    ensures EmptyHash(table, depth) == NodeOf(EmptyHash(table, depth + 1), EmptyHash(table, depth + 1))
  {
  }

  lemma JoinedTwice(a: Emission, b: Emission, c: Emission)
    ensures Joined(Joined(a, b), c) == Joined(a, Joined(b, c))
  {
  }

  /** Reading what the writer emitted for a node of the old tree rebuilds the
      node of the new one and leaves exactly what follows. */
  lemma {:induction false} NodeRoundTrip(table: seq<Hash>, keys: set<Key>, before: seq<ProofLeaf>, selected: seq<ProofLeaf>,
                                         after: seq<ProofLeaf>, updated: seq<ProofLeaf>, depth: nat, more: Emission)
    requires Linked(table) && depth <= BITS && Paired(keys, before, selected, after, updated, depth)
    ensures Consume(table, updated, depth, Joined(Emit(table, before, selected, depth), more)) ==
            Ok(Reading(SubtreeRoot(table, after, depth), more))
    decreases BITS - depth
  {
    hide Paired, Bit, Below;
    if selected == [] {
      UntouchedRoundTrip(table, keys, before, after, updated, depth, more);
    } else if depth == BITS {
      LeafRoundTripStep(table, keys, before, selected, after, updated, more);
    } else {
      PairedHalves(keys, before, selected, after, updated, depth);
      var b, s, a := Split(before, depth), Split(selected, depth), Split(after, depth);
      var left, right := Emit(table, before[..b], selected[..s], depth + 1), Emit(table, before[b..], selected[s..], depth + 1);
      NodeRoundTrip(table, Half(keys, depth, false), before[..b], selected[..s], after[..a], updated[..s], depth + 1, Joined(right, more));
      NodeRoundTrip(table, Half(keys, depth, true), before[b..], selected[s..], after[a..], updated[s..], depth + 1, more);
      JoinedTwice(left, right, more);
      RootOfHalves(table, after, depth);
      PairedLengths(keys, before, selected, after, updated, depth);
    }
  }

  lemma PairedLengths(keys: set<Key>, before: seq<ProofLeaf>, selected: seq<ProofLeaf>,
                      after: seq<ProofLeaf>, updated: seq<ProofLeaf>, depth: nat)
    requires Paired(keys, before, selected, after, updated, depth)
    ensures |selected| == |updated|
  {
  }

  lemma RootOfHalves(table: seq<Hash>, leaves: seq<ProofLeaf>, depth: nat)
    requires Linked(table) && depth < BITS
    ensures var s := Split(leaves, depth);
            SubtreeRoot(table, leaves, depth) ==
            NodeOf(SubtreeRoot(table, leaves[..s], depth + 1), SubtreeRoot(table, leaves[s..], depth + 1))
  {
    if leaves == [] {
      EmptySplits(table, depth);
    }
  }

  lemma UntouchedRoundTrip(table: seq<Hash>, keys: set<Key>, before: seq<ProofLeaf>,
                           after: seq<ProofLeaf>, updated: seq<ProofLeaf>, depth: nat, more: Emission)
    requires |table| > BITS && depth <= BITS && Paired(keys, before, [], after, updated, depth)
    ensures Consume(table, updated, depth, Joined(Emit(table, before, [], depth), more)) ==
            Ok(Reading(SubtreeRoot(table, after, depth), more))
  {
    SameSortedLeaves(before, after);
    var root := SubtreeRoot(table, before, depth);
    var head := Emit(table, before, [], depth);
    var input := Joined(head, more);
    assert input.bits[0] == (root != EmptyHash(table, depth)) && input.bits[1..] == more.bits;
    if root != EmptyHash(table, depth) {
      assert input.sides[0] == root && input.sides[1..] == more.sides;
    } else {
      assert input.sides == more.sides;
    }
  }

  lemma LeafRoundTripStep(table: seq<Hash>, keys: set<Key>, before: seq<ProofLeaf>, selected: seq<ProofLeaf>,
                          after: seq<ProofLeaf>, updated: seq<ProofLeaf>, more: Emission)
    requires |table| > BITS && Paired(keys, before, selected, after, updated, BITS) && selected != []
    ensures Consume(table, updated, BITS, Joined(Emit(table, before, selected, BITS), more)) ==
            Ok(Reading(SubtreeRoot(table, after, BITS), more))
  {
    LeafRoundTrip(table, keys, before, selected, after, updated);
    assert Emit(table, before, selected, BITS) == Emission([], []);
    assert Joined(Emission([], []), more) == more;
  }

  // ----- selection

  ghost predicate SortedKeyList(keys: seq<Key>) {
    forall i, j :: 0 <= i < j < |keys| ==> keys[i] < keys[j]
  }

  /** One entry per key: the leaf at it, or none. */
  ghost predicate SelectedFor(keys: seq<Key>, leaves: seq<ProofLeaf>, selected: seq<ProofLeaf>) {
    && |selected| == |keys|
    && (forall i :: 0 <= i < |keys| ==> selected[i].key == keys[i])
    && (forall i :: 0 <= i < |keys| ==> selected[i].value.Some? ==> selected[i] in leaves)
    && (forall i :: 0 <= i < |keys| ==> selected[i].value.None? ==> forall l :: l in leaves ==> l.key != keys[i])
  }

  lemma {:induction false} SelectMeans(keys: seq<Key>, leaves: seq<ProofLeaf>, reject: bool)
    requires SortedKeyList(keys) && SortedLeaves(leaves)
    requires forall i :: 0 <= i < |leaves| ==> leaves[i].value.Some?
    ensures SelectLeaves(keys, leaves, reject).Ok? <==> !reject || forall l :: l in leaves ==> l.key in keys
    ensures SelectLeaves(keys, leaves, reject).Ok? ==> SelectedFor(keys, leaves, SelectLeaves(keys, leaves, reject).value)
    decreases |keys| + |leaves|
  {
    if keys == [] {
      assert leaves != [] ==> leaves[0] in leaves;
    } else if leaves != [] && leaves[0].key < keys[0] {
      SelectSkips(keys, leaves);
      SelectMeans(keys, leaves[1..], reject);
      if !reject {
        SelectedWider(keys, leaves, SelectLeaves(keys, leaves[1..], reject).value);
      }
    } else if leaves != [] && leaves[0].key == keys[0] {
      SelectMeans(keys[1..], leaves[1..], reject);
      SelectTakes(keys, leaves, reject);
    } else {
      SelectMeans(keys[1..], leaves, reject);
      SelectMisses(keys, leaves, reject);
    }
  }

  lemma SelectSkips(keys: seq<Key>, leaves: seq<ProofLeaf>)
    requires SortedKeyList(keys) && keys != [] && leaves != [] && leaves[0].key < keys[0]
    ensures leaves[0] in leaves && leaves[0].key !in keys
  {
  }

  lemma SelectedWider(keys: seq<Key>, leaves: seq<ProofLeaf>, selected: seq<ProofLeaf>)
    requires SortedKeyList(keys) && keys != [] && leaves != [] && leaves[0].key < keys[0]
    requires SelectedFor(keys, leaves[1..], selected)
    ensures SelectedFor(keys, leaves, selected)
  {
    assert forall l :: l in leaves ==> l == leaves[0] || l in leaves[1..];
    assert forall i :: 0 <= i < |keys| ==> keys[0] <= keys[i];
  }

  lemma SelectTakes(keys: seq<Key>, leaves: seq<ProofLeaf>, reject: bool)
    requires SortedKeyList(keys) && SortedLeaves(leaves) && keys != [] && leaves != [] && leaves[0].key == keys[0]
    requires leaves[0].value.Some?
    requires var rest := SelectLeaves(keys[1..], leaves[1..], reject);
             && (rest.Ok? <==> !reject || forall l :: l in leaves[1..] ==> l.key in keys[1..])
             && (rest.Ok? ==> SelectedFor(keys[1..], leaves[1..], rest.value))
    ensures SelectLeaves(keys, leaves, reject).Ok? <==> !reject || forall l :: l in leaves ==> l.key in keys
    ensures SelectLeaves(keys, leaves, reject).Ok? ==> SelectedFor(keys, leaves, SelectLeaves(keys, leaves, reject).value)
  {
    var rest := SelectLeaves(keys[1..], leaves[1..], reject);
    assert forall l :: l in leaves <==> l == leaves[0] || l in leaves[1..];
    assert forall k :: k in keys <==> k == keys[0] || k in keys[1..];
    forall l | l in leaves[1..] ensures l.key != keys[0] {
      var i :| 0 <= i < |leaves[1..]| && leaves[1..][i] == l;
      assert leaves[i + 1] == l;
    }
    if rest.Ok? {
      var r := [leaves[0]] + rest.value;
      forall i | 0 < i < |keys| ensures r[i] == rest.value[i - 1] && keys[i] == keys[1..][i - 1] && keys[i] != keys[0] {
      }
    }
  }

  lemma SelectMisses(keys: seq<Key>, leaves: seq<ProofLeaf>, reject: bool)
    requires SortedKeyList(keys) && SortedLeaves(leaves) && keys != [] && (leaves == [] || leaves[0].key > keys[0])
    requires var rest := SelectLeaves(keys[1..], leaves, reject);
             && (rest.Ok? <==> !reject || forall l :: l in leaves ==> l.key in keys[1..])
             && (rest.Ok? ==> SelectedFor(keys[1..], leaves, rest.value))
    ensures SelectLeaves(keys, leaves, reject).Ok? <==> !reject || forall l :: l in leaves ==> l.key in keys
    ensures SelectLeaves(keys, leaves, reject).Ok? ==> SelectedFor(keys, leaves, SelectLeaves(keys, leaves, reject).value)
  {
    var rest := SelectLeaves(keys[1..], leaves, reject);
    assert forall k :: k in keys <==> k == keys[0] || k in keys[1..];
    forall l | l in leaves ensures l.key != keys[0] {
      var i :| 0 <= i < |leaves| && leaves[i] == l;
      assert leaves[0].key <= leaves[i].key;
    }
    if rest.Ok? {
      var r := [ProofLeaf(keys[0], None)] + rest.value;
      forall i | 0 < i < |keys| ensures r[i] == rest.value[i - 1] && keys[i] == keys[1..][i - 1] {
      }
    }
  }

  // ----- whole proofs

  ghost predicate DistinctLeafKeys(values: seq<SparseLeaf>) {
    forall i, j :: 0 <= i < j < |values| ==> values[i].key != values[j].key
  }

  lemma LeafOrder()
    ensures StrictWeakOrder(LeafBefore)
  {
  }

  function LeafKey(leaf: ProofLeaf): Key {
    leaf.key
  }

  /** Distinct values sort into distinct leaves, and only those are accepted. */
  lemma LeavesSorted(values: seq<SparseLeaf>)
    ensures Leaves(values).Ok? <==> DistinctLeafKeys(values)
    ensures Leaves(values).Ok? ==>
              var r := Leaves(values).value;
              && SortedLeaves(r)
              && (forall i :: 0 <= i < |r| ==> r[i].value.Some?)
              && (forall l: ProofLeaf :: l in r <==> l.value.Some? && l.key == l.value.value.key && l.value.value in values)
  {
    var present := Present(values);
    var sorted := Sort(present, LeafBefore);
    LeafOrder();
    SortAscending(present, LeafBefore);
    SameElements(sorted, present);
    forall i, j | 0 <= i < j < |sorted| ensures sorted[i].key <= sorted[j].key {
      assert !LeafBefore(sorted[j], sorted[i]);
    }
    if DistinctLeafKeys(values) {
      forall i, j | 0 <= i < j < |present| ensures LeafKey(present[i]) != LeafKey(present[j]) {
      }
      DistinctPermutes(present, sorted, LeafKey);
      forall i | 0 <= i < |sorted| - 1 ensures sorted[i].key != sorted[i + 1].key {
        assert LeafKey(sorted[i]) != LeafKey(sorted[i + 1]);
      }
    }
    if Leaves(values).Ok? {
      forall i, j | 0 <= i < j < |sorted| ensures sorted[i].key < sorted[j].key {
        assert sorted[i].key != sorted[i + 1].key && sorted[i].key <= sorted[i + 1].key;
        assert i + 1 == j || sorted[i + 1].key <= sorted[j].key;
      }
      forall i, j | 0 <= i < j < |sorted| ensures LeafKey(sorted[i]) != LeafKey(sorted[j]) {
      }
      DistinctPermutes(sorted, present, LeafKey);
      forall i, j | 0 <= i < j < |values| ensures values[i].key != values[j].key {
        assert LeafKey(present[i]) != LeafKey(present[j]);
      }
      PresentMembers(values);
      forall i | 0 <= i < |sorted| ensures sorted[i].value.Some? {
        assert sorted[i] in present;
      }
    }
  }

  lemma PresentMembers(values: seq<SparseLeaf>)
    ensures forall l: ProofLeaf :: l in Present(values) <==> l.value.Some? && l.key == l.value.value.key && l.value.value in values
  {
    var present := Present(values);
    forall l: ProofLeaf | l.value.Some? && l.key == l.value.value.key && l.value.value in values ensures l in present {
      var i :| 0 <= i < |values| && values[i] == l.value.value;
      assert present[i] == l;
    }
  }

  lemma KeysSorted(selected: seq<Key>)
    requires forall i, j :: 0 <= i < j < |selected| ==> selected[i] != selected[j]
    ensures SortedKeyList(Sort(selected, KeyLess))
    ensures forall k :: k in Sort(selected, KeyLess) <==> k in selected
  {
    var sorted := Sort(selected, KeyLess);
    assert StrictWeakOrder(KeyLess);
    SortAscending(selected, KeyLess);
    SameElements(sorted, selected);
    forall i, j | 0 <= i < j < |selected| ensures Identity(selected[i]) != Identity(selected[j]) {
    }
    DistinctPermutes(selected, sorted, Identity);
    forall i, j | 0 <= i < j < |sorted| ensures sorted[i] < sorted[j] {
      assert Identity(sorted[i]) != Identity(sorted[j]);
      assert !KeyLess(sorted[j], sorted[i]);
    }
  }

  /** The bits of a packed list, then its padding. */
  lemma PackedInput(bitmap: seq<bv8>, emission: Emission)
    requires Packs(bitmap, emission.bits)
    ensures var padding := Emission(Bits(bitmap)[|emission.bits|..], []);
            Emission(Bits(bitmap), emission.sides) == Joined(emission, padding) && Finished(padding)
  {
    var bits, n := Bits(bitmap), |emission.bits|;
    assert bits[..n] == emission.bits;
    assert bits == bits[..n] + bits[n..];
    assert emission.sides + [] == emission.sides;
  }

  /** Values that may be supplied for a new set at the given keys. */
  ghost predicate Supplies(values: seq<SparseLeaf>, after: seq<SparseLeaf>, keys: seq<Key>) {
    && (forall i, j :: 0 <= i < j < |values| ==> values[i].key < values[j].key)
    && (forall v :: v in values <==> v in after && v.key in keys)
  }

  lemma SuppliedLeaves(values: seq<SparseLeaf>)
    requires forall i, j :: 0 <= i < j < |values| ==> values[i].key < values[j].key
    ensures OrderedLeaves(values) == Ok(Present(values)) && SortedLeaves(Present(values))
  {
  }

  /** What the writer selects and emits. */
  lemma ProofUnfold(table: seq<Hash>, before: seq<SparseLeaf>, selected: seq<Key>)
    returns (keys: seq<Key>, all: seq<ProofLeaf>, chosen: seq<ProofLeaf>)
    requires |table| > BITS && DistinctLeafKeys(before)
    requires selected != [] && forall i, j :: 0 <= i < j < |selected| ==> selected[i] != selected[j]
    ensures Leaves(before) == Ok(all) && SortedKeyList(keys) && keys != [] && (forall k :: k in keys <==> k in selected)
    ensures SelectedFor(keys, all, chosen)
    ensures Proof(table, before, selected) == Ok((keys, Emit(table, all, chosen, 0)))
  {
    hide Emit, Leaves, SelectedFor, SortedLeaves;
    LeavesSorted(before);
    KeysSorted(selected);
    keys, all := Sort(selected, KeyLess), Leaves(before).value;
    SameElements(keys, selected);
    SelectMeans(keys, all, false);
    chosen := SelectLeaves(keys, all, false).value;
  }

  /** What the reader selects and consumes. */
  lemma ReaderUnfold(table: seq<Hash>, values: seq<SparseLeaf>, proof: SparseProof) returns (updated: seq<ProofLeaf>)
    requires |table| > BITS && SortedKeyList(proof.leafKeys) && proof.leafKeys != []
    requires forall i, j :: 0 <= i < j < |values| ==> values[i].key < values[j].key
    requires forall v :: v in values ==> v.key in proof.leafKeys
    ensures SelectedFor(proof.leafKeys, Present(values), updated)
    ensures var reading := Consume(table, updated, 0, Emission(Bits(proof.bitmap), proof.sideNodes));
            reading.Ok? && Finished(reading.value.rest) ==> RootFromProof(table, values, proof) == Ok(reading.value.root)
  {
    hide Consume, Finished;
    SuppliedLeaves(values);
    PresentMembers(values);
    SelectMeans(proof.leafKeys, Present(values), true);
    updated := SelectLeaves(proof.leafKeys, Present(values), true).value;
  }

  /** The two selections pair up at the root. */
  lemma RootPaired(before: seq<SparseLeaf>, after: seq<SparseLeaf>, values: seq<SparseLeaf>, keys: seq<Key>,
                   all: seq<ProofLeaf>, chosen: seq<ProofLeaf>, result: seq<ProofLeaf>, updated: seq<ProofLeaf>)
    returns (space: set<Key>)
    requires Leaves(before) == Ok(all) && Leaves(after) == Ok(result)
    requires SortedKeyList(keys) && Supplies(values, after, keys)
    requires forall v: SparseLeaf :: v.key !in keys ==> (v in before <==> v in after)
    requires SelectedFor(keys, all, chosen) && SelectedFor(keys, Present(values), updated)
    ensures Paired(space, all, chosen, result, updated, 0)
  {
    hide Leaves, Bit, DifferingBit, SelectedFor, Supplies, Selects, AgreeOutside, HasKey, Present;
    LeavesSorted(before);
    LeavesSorted(after);
    UpdatedSelects(after, values, keys, result, updated);
    RestAgrees(before, after, keys, all, chosen, result);
    space := (set l | l in all :: l.key) + (set l | l in result :: l.key) + (set k | k in keys);
    SelectedKeys(keys, all, chosen);
    SelectedKeys(keys, Present(values), updated);
  }

  /** A selection has the selected keys, in their order. */
  lemma SelectedKeys(keys: seq<Key>, leaves: seq<ProofLeaf>, selected: seq<ProofLeaf>)
    requires SelectedFor(keys, leaves, selected)
    ensures |selected| == |keys| && forall i :: 0 <= i < |keys| ==> selected[i].key == keys[i]
    ensures SortedKeyList(keys) ==> SortedLeaves(selected)
    ensures forall i :: 0 <= i < |selected| ==> selected[i].key in keys
  {
  }

  /** Sets that agree off the keys have leaves that agree off the selection. */
  lemma RestAgrees(before: seq<SparseLeaf>, after: seq<SparseLeaf>, keys: seq<Key>, all: seq<ProofLeaf>,
                   chosen: seq<ProofLeaf>, result: seq<ProofLeaf>)
    requires Leaves(before) == Ok(all) && Leaves(after) == Ok(result) && SelectedFor(keys, all, chosen)
    requires forall v: SparseLeaf :: v.key !in keys ==> (v in before <==> v in after)
    ensures AgreeOutside(all, result, chosen)
  {
    hide Leaves, SelectedFor, HasKey, SortedLeaves;
    LeavesSorted(before);
    LeavesSorted(after);
    forall l: ProofLeaf | !HasKey(chosen, l.key) ensures l in all <==> l in result {
      ChosenKeys(keys, all, chosen, l.key);
    }
  }

  lemma UpdatedSelects(after: seq<SparseLeaf>, values: seq<SparseLeaf>, keys: seq<Key>, result: seq<ProofLeaf>, updated: seq<ProofLeaf>)
    requires Leaves(after) == Ok(result) && Supplies(values, after, keys)
    requires SelectedFor(keys, Present(values), updated)
    ensures Selects(updated, result)
  {
    LeavesSorted(after);
    PresentMembers(values);
    hide Leaves;
    forall s | s in updated ensures if s.value.Some? then s in result else forall l :: l in result ==> l.key != s.key {
      var i :| 0 <= i < |updated| && updated[i] == s;
      assert s.key == keys[i];
      if s.value.None? {
        forall l | l in result ensures l.key != s.key {
          assert l.key == s.key ==> l in Present(values);
        }
      }
    }
  }

  lemma ChosenKeys(keys: seq<Key>, all: seq<ProofLeaf>, chosen: seq<ProofLeaf>, key: Key)
    requires SelectedFor(keys, all, chosen)
    ensures key in keys ==> HasKey(chosen, key)
  {
    if key in keys {
      var i :| 0 <= i < |keys| && keys[i] == key;
      assert chosen[i] in chosen;
    }
  }

  /** THEOREM (sparse round trip). For every old set, every non-empty choice of
      distinct keys, present or absent, and every new set that agrees with the
      old one elsewhere: the reader consumes exactly the bits and side nodes
      the writer packed, the rest is padding, and the root is the new set's. */
  lemma SparseRoundTrip(table: seq<Hash>, before: seq<SparseLeaf>, after: seq<SparseLeaf>, selected: seq<Key>,
                        values: seq<SparseLeaf>, proof: SparseProof)
    requires Linked(table) && DistinctLeafKeys(before) && DistinctLeafKeys(after)
    requires selected != [] && forall i, j :: 0 <= i < j < |selected| ==> selected[i] != selected[j]
    requires forall v: SparseLeaf :: v.key !in selected ==> (v in before <==> v in after)
    requires Supplies(values, after, selected)
    requires Proof(table, before, selected).Ok? ==>
               var (keys, emission) := Proof(table, before, selected).value;
               proof.leafKeys == keys && Packs(proof.bitmap, emission.bits) && proof.sideNodes == emission.sides
    ensures Proof(table, before, selected).Ok?
    ensures RootFromProof(table, values, proof) == ComputeRoot(table, after)
    ensures ComputeRoot(table, after).Ok?
  {
    hide RootFromProof, Proof, Consume, Emit, Leaves, SelectedFor, Paired, Packs, Finished;
    var keys, all, chosen := ProofUnfold(table, before, selected);
    var emission := Emit(table, all, chosen, 0);
    var updated := ReaderUnfold(table, values, proof);
    LeavesSorted(after);
    var result := Leaves(after).value;
    var space := RootPaired(before, after, values, keys, all, chosen, result, updated);
    PackedInput(proof.bitmap, emission);
    NodeRoundTrip(table, space, all, chosen, result, updated, 0, Emission(Bits(proof.bitmap)[|emission.bits|..], []));
  }
}
