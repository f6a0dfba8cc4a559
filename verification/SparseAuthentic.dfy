/** What a sparse root and an accepted sparse proof stand for. */
module SparseAuthentic {
  import opened Keys
  import opened Results
  import opened Sparse

  /** The hash a key leads to: right at a set bit, left at a clear one. */
  function Walk(root: Hash, key: Key, depth: nat): Hash
    requires depth <= BITS
    decreases BITS - depth
  {
    if depth == BITS then root
    else if root.NodeOf? then Walk(if Bit(key, depth) then root.right else root.left, key, depth + 1)
    else root
  }

  /** The empty leaf is hashed under a domain of its own. */
  ghost predicate EmptyApart(table: seq<Hash>) {
    |table| > 0 && table[0].Opaque?
  }

  /** The hash stands for what the list has at the key. */
  ghost predicate Reads(table: seq<Hash>, leaves: seq<ProofLeaf>, key: Key, hash: Hash)
    requires |table| > BITS
  {
    && (forall l :: l in leaves && l.key == key ==> hash == LeafValue(l, table[0]))
    && ((forall l :: l in leaves ==> l.key != key) ==> hash == table[0])
  }

  lemma {:induction false} EmptyWalks(table: seq<Hash>, key: Key, depth: nat)
    requires |table| > BITS && Linked(table) && depth <= BITS
    ensures Walk(EmptyHash(table, depth), key, depth) == table[0]
    decreases BITS - depth
  {
    hide Bit;
    if depth < BITS {
      EmptySplits(table, depth);
      EmptyWalks(table, key, depth + 1);
    }
  }

  /** A list has at a key what its half on the key's side has. */
  lemma HalfReads(table: seq<Hash>, leaves: seq<ProofLeaf>, half: seq<ProofLeaf>, key: Key, depth: nat, hash: Hash)
    requires |table| > BITS && depth < BITS && Reads(table, half, key, hash)
    requires forall l :: l in half <==> l in leaves && Bit(l.key, depth) == Bit(key, depth)
    ensures Reads(table, leaves, key, hash)
  {
    hide Bit, LeafValue;
  }

  lemma SoleLeaf(keys: set<Key>, leaves: seq<ProofLeaf>, key: Key)
    requires Below(keys, BITS) && KeysIn(leaves, keys) && SortedLeaves(leaves) && key in keys && leaves != []
    ensures |leaves| == 1 && leaves[0].key == key
  {
    hide Below, SortedLeaves;
    OneKey(keys, leaves);
    SoleKey(keys, leaves[0].key, key);
  }

  /** The root of a subtree opens, along every key below it, to the key's value. */
  lemma {:induction false} SubtreeOpens(table: seq<Hash>, keys: set<Key>, leaves: seq<ProofLeaf>, depth: nat, key: Key)
    requires |table| > BITS && Linked(table) && depth <= BITS && Below(keys, depth) && KeysIn(leaves, keys) && SortedLeaves(leaves) && key in keys
    ensures Reads(table, leaves, key, Walk(SubtreeRoot(table, leaves, depth), key, depth))
    decreases BITS - depth
  {
    hide Bit, Below, SortedLeaves, Linked, KeysIn, LeafValue;
    if leaves == [] {
      EmptyWalks(table, key, depth);
    } else if depth == BITS {
      SoleLeaf(keys, leaves, key);
    } else {
      HalfBelow(keys, depth, Bit(key, depth));
      SplitHalves(leaves, keys, depth);
      var s := Split(leaves, depth);
      var half := if Bit(key, depth) then leaves[s..] else leaves[..s];
      SubtreeOpens(table, Half(keys, depth, Bit(key, depth)), half, depth + 1, key);
      HalfReads(table, leaves, half, key, depth, Walk(SubtreeRoot(table, half, depth + 1), key, depth + 1));
    }
  }

  /** Whatever the bits and side nodes, the root that is read opens, along the
      key of every supplied leaf, to that leaf. */
  lemma {:induction false} ConsumeOpens(table: seq<Hash>, keys: set<Key>, leaves: seq<ProofLeaf>, depth: nat, input: Emission, leaf: ProofLeaf)
    requires |table| > BITS && depth <= BITS && Below(keys, depth) && KeysIn(leaves, keys) && SortedLeaves(leaves) && leaf in leaves
    requires Consume(table, leaves, depth, input).Ok?
    ensures Walk(Consume(table, leaves, depth, input).value.root, leaf.key, depth) == LeafValue(leaf, table[0])
    decreases BITS - depth
  {
    hide Bit, Below, SortedLeaves, KeysIn, LeafValue;
    if depth < BITS {
      HalfBelow(keys, depth, Bit(leaf.key, depth));
      SplitHalves(leaves, keys, depth);
      var s := Split(leaves, depth);
      var left := Consume(table, leaves[..s], depth + 1, input).value;
      if Bit(leaf.key, depth) {
        ConsumeOpens(table, Half(keys, depth, true), leaves[s..], depth + 1, left.rest, leaf);
      } else {
        ConsumeOpens(table, Half(keys, depth, false), leaves[..s], depth + 1, input, leaf);
      }
    }
  }

  lemma AnyBelow(keys: set<Key>)
    ensures Below(keys, 0)
  {
  }

  /** What a set has at a key: its value's hash, or the empty leaf. */
  ghost predicate HasAt(table: seq<Hash>, values: seq<SparseLeaf>, key: Key, hash: Hash)
    requires |table| > BITS
  {
    && (forall v :: v in values && v.key == key ==> hash == LeafOf(v))
    && ((forall v :: v in values ==> v.key != key) ==> hash == table[0])
  }

  lemma LeavesRead(table: seq<Hash>, values: seq<SparseLeaf>, key: Key, hash: Hash)
    requires |table| > BITS && DistinctLeafKeys(values)
    ensures Leaves(values).Ok?
    ensures Reads(table, Leaves(values).value, key, hash) ==> HasAt(table, values, key, hash)
  {
    hide Leaves;
    LeavesSorted(values);
    var leaves := Leaves(values).value;
    if Reads(table, leaves, key, hash) {
      forall v | v in values && v.key == key ensures hash == LeafOf(v) {
        assert ProofLeaf(v.key, Some(v)) in leaves;
      }
    }
  }

  /** THEOREM. The sparse root of a set opens, along every key, to the hash of
      the value the set has there, and to the empty leaf where it has none. */
  lemma SparseOpens(table: seq<Hash>, values: seq<SparseLeaf>, key: Key)
    requires |table| > BITS && Linked(table) && DistinctLeafKeys(values)
    ensures ComputeRoot(table, values).Ok?
    ensures HasAt(table, values, key, Walk(ComputeRoot(table, values).value, key, 0))
  {
    hide Leaves, SubtreeRoot, Walk, Reads, HasAt, Linked;
    LeavesSorted(values);
    var leaves := Leaves(values).value;
    var keys := {key} + set l | l in leaves :: l.key;
    AnyBelow(keys);
    SubtreeOpens(table, keys, leaves, 0, key);
    LeavesRead(table, values, key, Walk(SubtreeRoot(table, leaves, 0), key, 0));
  }

  lemma AtMostThat(table: seq<Hash>, a: seq<SparseLeaf>, b: seq<SparseLeaf>, v: SparseLeaf, hash: Hash)
    requires |table| > BITS && EmptyApart(table) && v in a && HasAt(table, a, v.key, hash) && HasAt(table, b, v.key, hash)
    ensures v in b
  {
    assert hash == LeafOf(v);
    if forall w :: w in b ==> w.key != v.key {
      assert false;
    }
    var w :| w in b && w.key == v.key;
    assert hash == LeafOf(w);
  }

  /** THEOREM (binding). Two sets have the same sparse root exactly when they
      have the same values. */
  lemma SparseBinds(table: seq<Hash>, a: seq<SparseLeaf>, b: seq<SparseLeaf>)
    requires |table| > BITS && Linked(table) && EmptyApart(table) && DistinctLeafKeys(a) && DistinctLeafKeys(b)
    ensures ComputeRoot(table, a) == ComputeRoot(table, b) <==> forall v :: v in a <==> v in b
  {
    hide Walk, HasAt, SubtreeRoot, Leaves, Linked, EmptyApart;
    LeavesSorted(a);
    LeavesSorted(b);
    if ComputeRoot(table, a) == ComputeRoot(table, b) {
      var root := ComputeRoot(table, a).value;
      forall v ensures v in a <==> v in b {
        SparseOpens(table, a, v.key);
        SparseOpens(table, b, v.key);
        if v in a { AtMostThat(table, a, b, v, Walk(root, v.key, 0)); }
        if v in b { AtMostThat(table, b, a, v, Walk(root, v.key, 0)); }
      }
    } else if forall v :: v in a <==> v in b {
      SameSortedLeaves(Leaves(a).value, Leaves(b).value);
      assert false;
    }
  }

  lemma {:induction false} KeysAscend(keys: seq<Key>, i: nat, j: nat)
    requires i < j < |keys| && forall k :: 0 <= k < |keys| - 1 ==> keys[k] < keys[k + 1]
    ensures keys[i] < keys[j]
    decreases j
  {
    if i + 1 < j {
      KeysAscend(keys, i, j - 1);
    }
  }

  lemma KeysSorted(keys: seq<Key>)
    requires forall k :: 0 <= k < |keys| - 1 ==> keys[k] < keys[k + 1]
    ensures SortedKeyList(keys)
  {
    forall i, j | 0 <= i < j < |keys| ensures keys[i] < keys[j] {
      KeysAscend(keys, i, j);
    }
  }

  lemma OrderedSorted(values: seq<SparseLeaf>)
    requires OrderedLeaves(values).Ok?
    ensures OrderedLeaves(values) == Ok(Present(values)) && SortedLeaves(Present(values))
    ensures forall i, j :: 0 <= i < j < |values| ==> values[i].key < values[j].key
  {
    var keys := seq(|values|, i requires 0 <= i < |values| => values[i].key);
    forall k | 0 <= k < |keys| - 1 ensures keys[k] < keys[k + 1] {
      assert Present(values)[k].key < Present(values)[k + 1].key;
    }
    KeysSorted(keys);
    forall i, j | 0 <= i < j < |values| ensures values[i].key < values[j].key {
      assert keys[i] < keys[j];
    }
  }

  /** What an accepted proof and its leaves look like. */
  lemma AcceptedUnfold(table: seq<Hash>, values: seq<SparseLeaf>, proof: SparseProof) returns (updated: seq<ProofLeaf>)
    requires |table| > BITS && RootFromProof(table, values, proof).Ok?
    ensures SortedKeyList(proof.leafKeys) && SelectedFor(proof.leafKeys, Present(values), updated)
    ensures forall i, j :: 0 <= i < j < |values| ==> values[i].key < values[j].key
    ensures forall v :: v in values ==> v.key in proof.leafKeys
    ensures var reading := Consume(table, updated, 0, Emission(Bits(proof.bitmap), proof.sideNodes));
            reading.Ok? && RootFromProof(table, values, proof) == Ok(reading.value.root)
  {
    hide Consume, Finished, Bits, SelectedFor;
    KeysSorted(proof.leafKeys);
    OrderedSorted(values);
    PresentMembers(values);
    SelectMeans(proof.leafKeys, Present(values), true);
    updated := SelectLeaves(proof.leafKeys, Present(values), true).value;
    forall v | v in values ensures v.key in proof.leafKeys {
      assert ProofLeaf(v.key, Some(v)) in Present(values);
    }
  }

  /** Every value supplied for a key, and its absence, is read off the root. */
  lemma SuppliedRead(table: seq<Hash>, values: seq<SparseLeaf>, keys: seq<Key>, updated: seq<ProofLeaf>, root: Hash, key: Key)
    requires |table| > BITS && SelectedFor(keys, Present(values), updated) && key in keys
    requires forall l :: l in updated ==> Walk(root, l.key, 0) == LeafValue(l, table[0])
    requires forall i, j :: 0 <= i < j < |values| ==> values[i].key < values[j].key
    ensures HasAt(table, values, key, Walk(root, key, 0))
  {
    hide Walk, Present;
    var i :| 0 <= i < |keys| && keys[i] == key;
    var leaf := updated[i];
    assert leaf in updated;
    PresentMembers(values);
    forall v | v in values && v.key == key ensures Walk(root, key, 0) == LeafOf(v) {
      assert ProofLeaf(v.key, Some(v)) in Present(values);
      assert leaf.value.Some?;
    }
  }

  /** THEOREM (sparse authenticity). Whoever made the proof, if it yields the
      root of a set for the supplied values, the values are exactly the set's own
      at the proof's keys: every one present, and every key without one absent. */
  lemma SparseProofIsAuthentic(table: seq<Hash>, all: seq<SparseLeaf>, values: seq<SparseLeaf>, proof: SparseProof)
    requires |table| > BITS && Linked(table) && EmptyApart(table) && DistinctLeafKeys(all)
    requires RootFromProof(table, values, proof).Ok? && RootFromProof(table, values, proof) == ComputeRoot(table, all)
    ensures Supplies(values, all, proof.leafKeys)
  {
    hide Walk, HasAt, ComputeRoot, RootFromProof, Linked, EmptyApart, SelectedFor, Consume, Bits, LeafValue;
    var updated := AcceptedUnfold(table, values, proof);
    var root := RootFromProof(table, values, proof).value;
    SelectedKeys(proof.leafKeys, Present(values), updated);
    var keys := set l | l in updated :: l.key;
    AnyBelow(keys);
    forall l | l in updated ensures Walk(root, l.key, 0) == LeafValue(l, table[0]) {
      ConsumeOpens(table, keys, updated, 0, Emission(Bits(proof.bitmap), proof.sideNodes), l);
    }
    forall v ensures v in values <==> v in all && v.key in proof.leafKeys {
      if v.key in proof.leafKeys {
        SuppliedRead(table, values, proof.leafKeys, updated, root, v.key);
        SparseOpens(table, all, v.key);
        if v in values { AtMostThat(table, values, all, v, Walk(root, v.key, 0)); }
        if v in all { AtMostThat(table, all, values, v, Walk(root, v.key, 0)); }
      }
    }
  }
}
