/** The sparse tree's proof writer and reader as they run: a growing bitmap of
    bytes and side nodes, a bit index and a node cursor (trees/smt.rs). */
module SparseTree {
  import opened Keys
  import opened Results
  import opened Sorting
  import opened Sparse

  // ----- single bits of a byte

  lemma MaskCases(k: nat)
    requires k < 8
    ensures Mask(k) == if k == 0 then 128 else if k == 1 then 64 else if k == 2 then 32 else if k == 3 then 16
                       else if k == 4 then 8 else if k == 5 then 4 else if k == 6 then 2 else 1
  {
    if k == 0 {} else if k == 1 {} else if k == 2 {} else if k == 3 {}
    else if k == 4 {} else if k == 5 {} else if k == 6 {} else {}
  }

  lemma SetBitReads(byte: bv8, k: nat, j: nat)
    requires k < 8 && j < 8
    ensures ByteBit(byte | Mask(k), j) <==> j == k || ByteBit(byte, j)
  {
    MaskCases(k);
    MaskCases(j);
  }

  lemma NoBitSet(j: nat)
    requires j < 8
    ensures !ByteBit(0, j)
  {
    MaskCases(j);
  }

  /** The low bits of a byte, as one mask. */
  lemma TrailingBits(byte: bv8, r: nat)
    requires 0 < r < 8
    ensures byte & ((1 << (8 - r)) - 1) == 0 <==> forall j :: r <= j < 8 ==> !ByteBit(byte, j)
  {
    forall j | r <= j < 8 ensures ByteBit(byte, j) ==> byte & ((1 << (8 - r)) - 1) != 0 {
      LowMaskCases(r);
      MaskCases(j);
    }
    if forall j :: r <= j < 8 ==> !ByteBit(byte, j) {
      LowMaskCases(r);
      ClearTail(byte, r);
    }
  }

  lemma LowMaskCases(r: nat)
    requires 0 < r < 8
    ensures (1 as bv8 << (8 - r)) - 1 == if r == 1 then 127 else if r == 2 then 63 else if r == 3 then 31 else if r == 4 then 15
                                         else if r == 5 then 7 else if r == 6 then 3 else 1
  {
    if r == 1 {} else if r == 2 {} else if r == 3 {} else if r == 4 {} else if r == 5 {} else if r == 6 {} else {}
  }

  lemma ClearTail(byte: bv8, r: nat)
    requires 0 < r < 8 && forall j :: r <= j < 8 ==> !ByteBit(byte, j)
    ensures byte & ((1 << (8 - r)) - 1) == 0
  {
    LowMaskCases(r);
    assert !ByteBit(byte, 7);
    MaskCases(7);
    if r <= 6 { assert !ByteBit(byte, 6); MaskCases(6); }
    if r <= 5 { assert !ByteBit(byte, 5); MaskCases(5); }
    if r <= 4 { assert !ByteBit(byte, 4); MaskCases(4); }
    if r <= 3 { assert !ByteBit(byte, 3); MaskCases(3); }
    if r <= 2 { assert !ByteBit(byte, 2); MaskCases(2); }
    if r <= 1 { assert !ByteBit(byte, 1); MaskCases(1); }
  }

  // ----- writing

  class ProofBuilder {
    var bitmap: seq<bv8>
    var bitCount: nat
    var sideNodes: seq<Hash>

    ghost predicate Valid()
      reads this
    {
      |bitmap| == (bitCount + 7) / 8 && forall i :: bitCount <= i < 8 * |bitmap| ==> !Bits(bitmap)[i]
    }

    ghost function Written(): Emission
      reads this
      requires Valid()
    {
      Emission(Bits(bitmap)[..bitCount], sideNodes)
    }

    constructor ()
      ensures Valid() && Written() == Emission([], [])
    {
      bitmap, bitCount, sideNodes := [], 0, [];
    }

    method PushBit(value: bool)
      requires Valid()
      modifies this
      ensures Valid() && Written() == Joined(old(Written()), Emission([value], []))
    {
      hide Mask, ByteBit, Bits;
      BitAppended(bitmap, bitCount, value);
      ghost var before := bitmap;
      if bitCount % 8 == 0 {
        bitmap := bitmap + [0];
      }
      if value {
        bitmap := bitmap[bitCount / 8 := bitmap[bitCount / 8] | Mask(bitCount % 8)];
      }
      assert bitmap == WithBit(before, bitCount, value);
      bitCount := bitCount + 1;
    }

    method PushSubtree(root: Hash, emptyRoot: Hash)
      requires Valid()
      modifies this
      ensures Valid()
      ensures Written() == Joined(old(Written()), if root != emptyRoot then Emission([true], [root]) else Emission([false], []))
    {
      var nonEmpty := root != emptyRoot;
      PushBit(nonEmpty);
      if nonEmpty {
        sideNodes := sideNodes + [root];
      }
    }

    method BuildProof(table: seq<Hash>, all: seq<ProofLeaf>, selected: seq<ProofLeaf>, depth: nat)
      requires |table| > BITS && depth <= BITS && Valid()
      modifies this
      ensures Valid() && Written() == Joined(old(Written()), Emit(table, all, selected, depth))
      decreases BITS - depth
    {
      hide Emit, Joined, Bits, SubtreeRoot, Split, EmptyHash;
      EmitCases(table, all, selected, depth);
      if selected == [] {
        var root := SubtreeRoot(table, all, depth);
        PushSubtree(root, EmptyHash(table, depth));
        return;
      }
      if depth == BITS {
        JoinedNothing(Written());
        return;
      }
      var allSplit, selectedSplit := Split(all, depth), Split(selected, depth);
      JoinedTwice(Written(), Emit(table, all[..allSplit], selected[..selectedSplit], depth + 1),
                  Emit(table, all[allSplit..], selected[selectedSplit..], depth + 1));
      BuildProof(table, all[..allSplit], selected[..selectedSplit], depth + 1);
      BuildProof(table, all[allSplit..], selected[selectedSplit..], depth + 1);
    }
  }

  lemma EmitCases(table: seq<Hash>, all: seq<ProofLeaf>, selected: seq<ProofLeaf>, depth: nat)
    requires |table| > BITS && depth <= BITS
    ensures selected == [] ==>
              Emit(table, all, selected, depth) ==
              (if SubtreeRoot(table, all, depth) != EmptyHash(table, depth) then Emission([true], [SubtreeRoot(table, all, depth)])
               else Emission([false], []))
    ensures selected != [] && depth == BITS ==> Emit(table, all, selected, depth) == Emission([], [])
    ensures selected != [] && depth < BITS ==>
              var a, s := Split(all, depth), Split(selected, depth);
              Emit(table, all, selected, depth) ==
              Joined(Emit(table, all[..a], selected[..s], depth + 1), Emit(table, all[a..], selected[s..], depth + 1))
  {
  }

  lemma JoinedNothing(e: Emission)
    ensures Joined(e, Emission([], [])) == e
  {
    assert e.bits + [] == e.bits && e.sides + [] == e.sides;
  }

  /** Room for one more bit, all old bits kept and the new one clear. */
  lemma Grown(before: seq<bv8>, grown: seq<bv8>, n: nat)
    requires |before| == (n + 7) / 8 && forall i :: n <= i < 8 * |before| ==> !Bits(before)[i]
    requires grown == if n % 8 == 0 then before + [0] else before
    ensures |grown| == n / 8 + 1 && forall i :: 0 <= i < 8 * |grown| ==> Bits(grown)[i] == (i < n && Bits(before)[i])
  {
    forall i | 0 <= i < 8 * |grown| ensures Bits(grown)[i] == (i < n && Bits(before)[i]) {
      if i >= 8 * |before| {
        NoBitSet(i % 8);
      } else {
        assert grown[i / 8] == before[i / 8];
      }
    }
  }

  lemma NextByte(n: nat)
    ensures n % 8 == 0 ==> (n + 7) / 8 == n / 8
    ensures n % 8 != 0 ==> (n + 7) / 8 == n / 8 + 1
    ensures (n + 1 + 7) / 8 == n / 8 + 1 && 8 * (n / 8) <= n < 8 * (n / 8) + 8
  {
  }

  lemma BitSet(grown: seq<bv8>, n: nat, value: bool, written: seq<bv8>)
    requires n / 8 < |grown| && !Bits(grown)[n]
    requires written == if value then grown[n / 8 := grown[n / 8] | Mask(n % 8)] else grown
    ensures |written| == |grown|
    ensures forall i :: 0 <= i < 8 * |grown| ==> Bits(written)[i] == (if i == n then value else Bits(grown)[i])
  {
    forall i | 0 <= i < 8 * |grown| ensures Bits(written)[i] == (if i == n then value else Bits(grown)[i]) {
      if value && i / 8 == n / 8 {
        SetBitReads(grown[n / 8], n % 8, i % 8);
      }
    }
  }

  /** The byte vector with one bit more, in a new byte when the last is full. */
  ghost function WithBit(bitmap: seq<bv8>, n: nat, value: bool): seq<bv8>
    requires |bitmap| == (n + 7) / 8
  {
    var grown := if n % 8 == 0 then bitmap + [0] else bitmap;
    NextByte(n);
    if value then grown[n / 8 := grown[n / 8] | Mask(n % 8)] else grown
  }

  lemma BitAppended(bitmap: seq<bv8>, n: nat, value: bool)
    requires |bitmap| == (n + 7) / 8 && forall i :: n <= i < 8 * |bitmap| ==> !Bits(bitmap)[i]
    ensures n <= 8 * |bitmap| && n / 8 < |if n % 8 == 0 then bitmap + [0] else bitmap|
    ensures var next := WithBit(bitmap, n, value);
            && |next| == (n + 1 + 7) / 8 && n + 1 <= 8 * |next|
            && Bits(next)[..n + 1] == Bits(bitmap)[..n] + [value]
            && forall i :: n + 1 <= i < 8 * |next| ==> !Bits(next)[i]
  {
    hide Mask, ByteBit, Bits;
    NextByte(n);
    var grown := if n % 8 == 0 then bitmap + [0] else bitmap;
    Grown(bitmap, grown, n);
    BitSet(grown, n, value, WithBit(bitmap, n, value));
  }

  // ----- reading

  class ProofReader {
    const bitmap: seq<bv8>
    const nodes: seq<Hash>
    var bitIndex: nat
    var cursor: nat

    ghost predicate Valid()
      reads this
    {
      bitIndex <= 8 * |bitmap| && cursor <= |nodes|
    }

    ghost function Left(): Emission
      reads this
      requires Valid()
    {
      Emission(Bits(bitmap)[bitIndex..], nodes[cursor..])
    }

    constructor (bits: seq<bv8>, sides: seq<Hash>)
      ensures Valid() && Left() == Emission(Bits(bits), sides)
    {
      bitmap, nodes := bits, sides;
      bitIndex, cursor := 0, 0;
    }

    method MissingSubtree(table: seq<Hash>, depth: nat) returns (r: Result<Hash>)
      requires |table| > BITS && depth <= BITS && Valid()
      modifies this
      ensures Valid()
      ensures match Consume(table, [], depth, old(Left()))
              case Ok(reading) => r == Ok(reading.root) && Left() == reading.rest
              case Err(e) => r == Err(e)
    {
      if bitIndex >= 8 * |bitmap| {
        return Err(InvalidMultiproof);
      }
      var nonEmpty := bitmap[bitIndex / 8] & (1 << (7 - bitIndex % 8)) != 0;
      assert nonEmpty == Left().bits[0];
      bitIndex := bitIndex + 1;
      if nonEmpty {
        if cursor == |nodes| {
          return Err(InvalidMultiproof);
        }
        cursor := cursor + 1;
        r := Ok(nodes[cursor - 1]);
      } else {
        r := Ok(EmptyHash(table, depth));
      }
    }

    method RootFromProof(table: seq<Hash>, leaves: seq<ProofLeaf>, depth: nat) returns (r: Result<Hash>)
      requires |table| > BITS && depth <= BITS && Valid()
      modifies this
      ensures Valid()
      ensures match Consume(table, leaves, depth, old(Left()))
              case Ok(reading) => r == Ok(reading.root) && Left() == reading.rest
              case Err(e) => r == Err(e)
      decreases BITS - depth
    {
      hide Consume, Bits, Split, EmptyHash;
      ConsumeCases(table, leaves, depth, Left());
      if leaves == [] {
        r := MissingSubtree(table, depth);
        return;
      }
      if depth == BITS {
        if |leaves| != 1 {
          return Err(InvalidMultiproof);
        }
        return Ok(LeafValue(leaves[0], EmptyHash(table, depth)));
      }
      var split := Split(leaves, depth);
      var left := RootFromProof(table, leaves[..split], depth + 1);
      if left.Err? {
        return left;
      }
      var right := RootFromProof(table, leaves[split..], depth + 1);
      if right.Err? {
        return right;
      }
      r := Ok(NodeOf(left.value, right.value));
    }

    /** Whole bytes, zero padding and no side node left. */
    method Finish() returns (ok: bool)
      requires Valid()
      ensures ok <==> Finished(Left())
    {
      hide ByteBit, Mask, Bits, LowClear;
      PaddingMeans(bitmap, bitIndex);
      var expectedBytes := (bitIndex + 7) / 8;
      var trailingZero := bitIndex % 8 == 0 || LowClear(bitmap[expectedBytes - 1], bitIndex % 8);
      ok := expectedBytes == |bitmap| && trailingZero && cursor == |nodes|;
    }
  }

  lemma ConsumeCases(table: seq<Hash>, leaves: seq<ProofLeaf>, depth: nat, input: Emission)
    requires |table| > BITS && depth <= BITS
    ensures leaves != [] && depth == BITS ==>
              Consume(table, leaves, depth, input) ==
              if |leaves| != 1 then Err(InvalidMultiproof) else Ok(Reading(LeafValue(leaves[0], EmptyHash(table, depth)), input))
    ensures leaves != [] && depth < BITS ==>
              var split := Split(leaves, depth);
              var left := Consume(table, leaves[..split], depth + 1, input);
              Consume(table, leaves, depth, input) ==
              if left.Err? then left
              else
                var right := Consume(table, leaves[split..], depth + 1, left.value.rest);
                if right.Err? then right else Ok(Reading(NodeOf(left.value.root, right.value.root), right.value.rest))
  {
  }

  lemma WholeBytes(n: nat, bytes: nat)
    requires n <= 8 * bytes
    ensures (n + 7) / 8 == bytes <==> 8 * bytes - n < 8
    ensures n % 8 == 0 && 8 * bytes - n < 8 ==> 8 * bytes == n
    ensures (n + 7) / 8 <= bytes && (n % 8 != 0 ==> (n + 7) / 8 > 0)
  {
  }

  /** The bits of a byte from the `r`-th on, most significant first, are clear. */
  predicate LowClear(byte: bv8, r: nat)
    requires r < 8
  {
    byte & ((1 << (8 - r)) - 1) == 0
  }

  /** In the last byte the padding is what the low mask sees. */
  lemma PaddingClear(bitmap: seq<bv8>, bitIndex: nat)
    requires bitIndex % 8 != 0 && |bitmap| == (bitIndex + 7) / 8
    ensures LowClear(bitmap[|bitmap| - 1], bitIndex % 8) <==>
              forall i :: 0 <= i < |Bits(bitmap)[bitIndex..]| ==> !Bits(bitmap)[bitIndex..][i]
  {
    hide ByteBit, Mask, Bits;
    var r, last, tail := bitIndex % 8, bitmap[|bitmap| - 1], Bits(bitmap)[bitIndex..];
    TrailingBits(last, r);
    TailBits(bitmap, bitIndex);
    if forall j :: r <= j < 8 ==> !ByteBit(last, j) {
      forall i | 0 <= i < |tail| ensures !tail[i] {
        assert !ByteBit(last, r + i);
      }
    }
    if forall i :: 0 <= i < |tail| ==> !tail[i] {
      forall j | r <= j < 8 ensures !ByteBit(last, j) {
        assert tail[j - r] == ByteBit(last, r + (j - r));
      }
    }
  }

  /** What is left of the bits is padding exactly when the byte count is right
      and the low mask of the last byte is clear. */
  lemma PaddingMeans(bitmap: seq<bv8>, bitIndex: nat)
    requires bitIndex <= 8 * |bitmap|
    ensures (bitIndex + 7) / 8 <= |bitmap| && (bitIndex % 8 != 0 ==> (bitIndex + 7) / 8 > 0)
    ensures var tail := Bits(bitmap)[bitIndex..];
            |tail| < 8 && (forall i :: 0 <= i < |tail| ==> !tail[i]) <==>
            && (bitIndex + 7) / 8 == |bitmap|
            && (bitIndex % 8 == 0 || LowClear(bitmap[(bitIndex + 7) / 8 - 1], bitIndex % 8))
  {
    hide ByteBit, Mask, Bits, LowClear;
    WholeBytes(bitIndex, |bitmap|);
    if bitIndex % 8 != 0 && (bitIndex + 7) / 8 == |bitmap| {
      PaddingClear(bitmap, bitIndex);
    }
  }

  lemma TailBits(bitmap: seq<bv8>, bitIndex: nat)
    requires bitIndex % 8 != 0 && |bitmap| == (bitIndex + 7) / 8
    ensures var tail, r := Bits(bitmap)[bitIndex..], bitIndex % 8;
            |tail| == 8 - r && forall i :: 0 <= i < |tail| ==> tail[i] == ByteBit(bitmap[|bitmap| - 1], r + i)
  {
    hide ByteBit, Mask;
    var tail, r := Bits(bitmap)[bitIndex..], bitIndex % 8;
    forall i | 0 <= i < |tail| ensures tail[i] == ByteBit(bitmap[|bitmap| - 1], r + i) {
      ByteOf(bitIndex, i);
      assert tail[i] == Bits(bitmap)[bitIndex + i];
    }
  }

  lemma ByteOf(bitIndex: nat, i: nat)
    requires bitIndex % 8 != 0 && bitIndex % 8 + i < 8
    ensures (bitIndex + i) / 8 == (bitIndex + 7) / 8 - 1 && (bitIndex + i) % 8 == bitIndex % 8 + i
  {
  }

  // ----- the tree's entry points

  /** The two-pointer selection loop. */
  method SelectLeaves(keys: seq<Key>, leaves: seq<ProofLeaf>, reject: bool) returns (r: Result<seq<ProofLeaf>>)
    ensures r == Sparse.SelectLeaves(keys, leaves, reject)
  {
    var selected: seq<ProofLeaf> := [];
    var leafIndex := 0;
    assert leaves[0..] == leaves;
    ChosenNone(Sparse.SelectLeaves(keys, leaves, reject));
    for k := 0 to |keys|
      invariant leafIndex <= |leaves|
      invariant Sparse.SelectLeaves(keys, leaves, reject) ==
                Chosen(selected, Sparse.SelectLeaves(keys[k..], leaves[leafIndex..], reject))
    {
      assert keys[k..][0] == keys[k] && keys[k..][1..] == keys[k + 1..];
      while leafIndex < |leaves| && leaves[leafIndex].key < keys[k]
        invariant leafIndex <= |leaves|
        invariant Sparse.SelectLeaves(keys, leaves, reject) ==
                  Chosen(selected, Sparse.SelectLeaves(keys[k..], leaves[leafIndex..], reject))
      {
        assert leaves[leafIndex..][0] == leaves[leafIndex] && leaves[leafIndex..][1..] == leaves[leafIndex + 1..];
        if reject {
          return Err(InvalidMultiproof);
        }
        leafIndex := leafIndex + 1;
      }
      if leafIndex < |leaves| && leaves[leafIndex].key == keys[k] {
        assert leaves[leafIndex..][0] == leaves[leafIndex] && leaves[leafIndex..][1..] == leaves[leafIndex + 1..];
        ChosenStep(selected, leaves[leafIndex], Sparse.SelectLeaves(keys[k + 1..], leaves[leafIndex + 1..], reject));
        selected := selected + [leaves[leafIndex]];
        leafIndex := leafIndex + 1;
      } else {
        ChosenStep(selected, ProofLeaf(keys[k], None), Sparse.SelectLeaves(keys[k + 1..], leaves[leafIndex..], reject));
        selected := selected + [ProofLeaf(keys[k], None)];
      }
    }
    assert selected + [] == selected;
    if reject && leafIndex != |leaves| {
      return Err(InvalidMultiproof);
    }
    r := Ok(selected);
  }

  ghost function Chosen(done: seq<ProofLeaf>, rest: Result<seq<ProofLeaf>>): Result<seq<ProofLeaf>> {
    if rest.Err? then rest else Ok(done + rest.value)
  }

  lemma ChosenNone(rest: Result<seq<ProofLeaf>>)
    ensures Chosen([], rest) == rest
  {
    if rest.Ok? { assert [] + rest.value == rest.value; }
  }

  lemma ChosenStep(done: seq<ProofLeaf>, next: ProofLeaf, rest: Result<seq<ProofLeaf>>)
    ensures Chosen(done, Chosen([next], rest)) == Chosen(done + [next], rest)
  {
    if rest.Ok? { assert done + ([next] + rest.value) == (done + [next]) + rest.value; }
  }

  /** The writer packs exactly the specified bits and side nodes. */
  method BuildMultiproof(table: seq<Hash>, values: seq<SparseLeaf>, selectedKeys: seq<Key>) returns (r: Result<SparseProof>)
    requires |table| > BITS
    ensures match Proof(table, values, selectedKeys)
            case Ok(p) => r.Ok? && r.value.leafKeys == p.0 && Packs(r.value.bitmap, p.1.bits) && r.value.sideNodes == p.1.sides
            case Err(e) => r == Err(e)
  {
    var all :- Leaves(values);
    if selectedKeys == [] {
      return Err(InvalidMultiproof);
    }
    var keys := Sort(selectedKeys, KeyLess);
    if exists i :: 0 <= i < |keys| - 1 && keys[i] == keys[i + 1] {
      return Err(InvalidMultiproof);
    }
    var selected :- SelectLeaves(keys, all, false);
    var builder := new ProofBuilder();
    builder.BuildProof(table, all, selected, 0);
    JoinedEmpty(Emit(table, all, selected, 0));
    WrittenPacks(builder);
    r := Ok(SparseProof(keys, builder.bitmap, builder.sideNodes));
  }

  lemma JoinedEmpty(e: Emission)
    ensures Joined(Emission([], []), e) == e
  {
    assert [] + e.bits == e.bits && [] + e.sides == e.sides;
  }

  lemma WrittenPacks(builder: ProofBuilder)
    requires builder.Valid()
    ensures Packs(builder.bitmap, builder.Written().bits)
  {
  }

  method ComputeRootFromProof(table: seq<Hash>, values: seq<SparseLeaf>, proof: SparseProof) returns (r: Result<Hash>)
    requires |table| > BITS
    ensures r == Sparse.RootFromProof(table, values, proof)
  {
    if proof.leafKeys == [] || exists i :: 0 <= i < |proof.leafKeys| - 1 && proof.leafKeys[i] >= proof.leafKeys[i + 1] {
      return Err(InvalidMultiproof);
    }
    var supplied :- OrderedLeaves(values);
    var leaves :- SelectLeaves(proof.leafKeys, supplied, true);
    var reader := new ProofReader(proof.bitmap, proof.sideNodes);
    var root :- reader.RootFromProof(table, leaves, 0);
    var finished := reader.Finish();
    r := if finished then Ok(root) else Err(InvalidMultiproof);
  }
}
