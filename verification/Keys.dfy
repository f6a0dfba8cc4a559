/** Patricia keys: fixed-width numbers read from the most significant bit, so
    that numeric order is the lexicographic order of the bits. */
module Keys {
  /** Key width. Every result holds for every width; account ids have 160 bits. */
  const BITS: nat

  function Pow2(n: nat): (r: nat)
    ensures r >= 1
  {
    if n == 0 then 1 else 2 * Pow2(n - 1)
  }

  type Key = k: nat | k < Pow2(BITS) witness 0

  /** The key shifted right by `n` bits. */
  function Shifted(k: Key, n: nat): nat {
    if n == 0 then k else Shifted(k, n - 1) / 2
  }

  /** The leading `depth` bits of a key, as a number. */
  function Prefix(k: Key, depth: nat): nat
    requires depth <= BITS
  {
    Shifted(k, BITS - depth)
  }

  predicate Bit(k: Key, index: nat)
    requires index < BITS
  {
    Prefix(k, index + 1) % 2 == 1
  }

  /** Index of the first bit in which the keys differ; BITS stands for "none". */
  function DifferingBit(a: Key, b: Key): (d: nat)
    ensures d <= BITS
    ensures d == BITS <==> a == b
    ensures a < b ==> !Bit(a, d) && Bit(b, d)
    ensures b < a ==> Bit(a, d) && !Bit(b, d)
  {
    FirstDifference(a, b);
    FirstDifferenceWithin(a, b, BITS)
  }

  /** Scans the last `remaining` bits from the left. */
  function FirstDifferenceWithin(a: Key, b: Key, remaining: nat): (d: nat)
    requires remaining <= BITS
    ensures BITS - remaining <= d <= BITS
  {
    if remaining == 0 || Bit(a, BITS - remaining) != Bit(b, BITS - remaining) then
      BITS - remaining
    else
      FirstDifferenceWithin(a, b, remaining - 1)
  }

  lemma {:induction false} PrefixBound(k: Key, depth: nat)
    requires depth <= BITS
    ensures Prefix(k, depth) < Pow2(depth)
    decreases BITS - depth
  {
    if depth < BITS {
      PrefixBound(k, depth + 1);
    }
  }

  lemma {:induction false} PrefixMonotone(a: Key, b: Key, depth: nat)
    requires a <= b && depth <= BITS
    ensures Prefix(a, depth) <= Prefix(b, depth)
    decreases BITS - depth
  {
    if depth < BITS {
      PrefixMonotone(a, b, depth + 1);
    }
  }

  /** Sharing a prefix means sharing every shorter one. */
  lemma {:induction false} PrefixShorter(a: Key, b: Key, short: nat, long: nat)
    requires short <= long <= BITS
    requires Prefix(a, long) == Prefix(b, long)
    ensures Prefix(a, short) == Prefix(b, short)
    decreases long - short
  {
    if short < long {
      PrefixShorter(a, b, short + 1, long);
    }
  }

  lemma {:induction false} PrefixFromBits(a: Key, b: Key, depth: nat)
    requires depth <= BITS
    requires forall i :: 0 <= i < depth ==> Bit(a, i) == Bit(b, i)
    ensures Prefix(a, depth) == Prefix(b, depth)
  {
    if depth == 0 {
      PrefixBound(a, 0);
      PrefixBound(b, 0);
    } else {
      PrefixFromBits(a, b, depth - 1);
      assert Bit(a, depth - 1) == Bit(b, depth - 1);
      assert Prefix(a, depth - 1) == Prefix(a, depth) / 2 && Prefix(b, depth - 1) == Prefix(b, depth) / 2;
    }
  }

  lemma {:induction false} ScanStopsAtDifference(a: Key, b: Key, remaining: nat)
    requires remaining <= BITS
    ensures var d := FirstDifferenceWithin(a, b, remaining);
            && (forall i :: BITS - remaining <= i < d ==> Bit(a, i) == Bit(b, i))
            && (d < BITS ==> Bit(a, d) != Bit(b, d))
  {
    if remaining > 0 {
      ScanStopsAtDifference(a, b, remaining - 1);
    }
  }

  lemma FirstDifference(a: Key, b: Key)
    ensures var d := FirstDifferenceWithin(a, b, BITS);
            && Prefix(a, d) == Prefix(b, d)
            && (d == BITS <==> a == b)
            && (a < b ==> !Bit(a, d) && Bit(b, d))
            && (b < a ==> Bit(a, d) && !Bit(b, d))
  {
    var d := FirstDifferenceWithin(a, b, BITS);
    ScanStopsAtDifference(a, b, BITS);
    PrefixFromBits(a, b, d);
    if d < BITS {
      if a < b {
        PrefixMonotone(a, b, d + 1);
      } else {
        PrefixMonotone(b, a, d + 1);
      }
    }
  }

  /** The first difference is exactly the length of the shared prefix. */
  lemma SharedPrefix(a: Key, b: Key, depth: nat)
    requires depth <= BITS
    ensures depth <= DifferingBit(a, b) <==> Prefix(a, depth) == Prefix(b, depth)
  {
    var d := DifferingBit(a, b);
    FirstDifference(a, b);
    if depth <= d {
      PrefixShorter(a, b, depth, d);
    } else if Prefix(a, depth) == Prefix(b, depth) {
      PrefixShorter(a, b, d + 1, depth);
      assert false;
    }
  }

  lemma BitsAgree(a: Key, b: Key, depth: nat)
    requires depth < DifferingBit(a, b)
    ensures Bit(a, depth) == Bit(b, depth)
  {
    SharedPrefix(a, b, depth + 1);
  }

  lemma DifferingBitUnique(a: Key, b: Key, depth: nat)
    requires depth < BITS && depth <= DifferingBit(a, b)
    requires Bit(a, depth) != Bit(b, depth)
    ensures DifferingBit(a, b) == depth
  {
    if depth < DifferingBit(a, b) {
      BitsAgree(a, b, depth);
      assert false;
    }
  }

  lemma DifferingBitLater(a: Key, b: Key, depth: nat)
    requires depth < BITS && depth <= DifferingBit(a, b)
    requires Bit(a, depth) == Bit(b, depth)
    ensures depth < DifferingBit(a, b)
  {
  }

  lemma DifferingBitSymmetric(a: Key, b: Key)
    ensures DifferingBit(a, b) == DifferingBit(b, a)
  {
    SharedPrefix(a, b, DifferingBit(b, a));
    SharedPrefix(b, a, DifferingBit(b, a));
    SharedPrefix(a, b, DifferingBit(a, b));
    SharedPrefix(b, a, DifferingBit(a, b));
  }

  lemma SharedTransitive(a: Key, b: Key, c: Key, depth: nat)
    requires depth <= DifferingBit(a, b) && depth <= DifferingBit(b, c)
    ensures depth <= DifferingBit(a, c)
  {
    SharedPrefix(a, b, depth);
    SharedPrefix(b, c, depth);
    SharedPrefix(a, c, depth);
  }

  /** A key between two others shares every leading bit they share, and the
      first bit after those is monotone along the three. */
  lemma Between(lo: Key, x: Key, hi: Key, depth: nat)
    requires lo <= x <= hi
    requires depth <= DifferingBit(lo, hi)
    ensures depth <= DifferingBit(lo, x)
    ensures depth <= DifferingBit(x, hi)
    ensures depth < BITS ==> (Bit(lo, depth) ==> Bit(x, depth)) && (Bit(x, depth) ==> Bit(hi, depth))
  {
    PrefixMonotone(lo, x, depth);
    PrefixMonotone(x, hi, depth);
    SharedPrefix(lo, hi, depth);
    SharedPrefix(lo, x, depth);
    SharedPrefix(x, hi, depth);
    if depth < BITS {
      PrefixMonotone(lo, x, depth + 1);
      PrefixMonotone(x, hi, depth + 1);
    }
  }

  /** A key between two others has the bits they share. */
  lemma BitInside(lo: Key, x: Key, hi: Key, depth: nat)
    requires lo <= x <= hi
    requires depth < DifferingBit(lo, hi)
    ensures depth < DifferingBit(lo, x) && depth < DifferingBit(x, hi)
    ensures Bit(x, depth) == Bit(lo, depth) == Bit(hi, depth)
  {
    Between(lo, x, hi, depth + 1);
    BitsAgree(lo, x, depth);
    BitsAgree(x, hi, depth);
  }

  /** `Bit` is the shift-and-mask of the on-chain verifier. */
  lemma {:induction false} BitIsShift(k: Key, index: nat)
    requires index < BITS
    ensures Bit(k, index) <==> (k / Pow2(BITS - 1 - index)) % 2 == 1
  {
    PrefixIsShift(k, index + 1);
  }

  lemma {:induction false} PrefixIsShift(k: Key, depth: nat)
    requires depth <= BITS
    ensures Prefix(k, depth) == k / Pow2(BITS - depth)
    decreases BITS - depth
  {
    if depth < BITS {
      PrefixIsShift(k, depth + 1);
      DivideTwice(k, Pow2(BITS - depth - 1));
    }
  }

  lemma DivideTwice(k: nat, m: nat)
    requires m > 0
    ensures k / m / 2 == k / (2 * m)
  {
    var q := k / m;
    var r := k % m;
    assert k == q * m + r;
    var h := q / 2;
    assert q == 2 * h + q % 2;
    assert k == h * (2 * m) + (q % 2) * m + r;
    var rest := (q % 2) * m + r;
    assert 0 <= rest < 2 * m;
    QuotientUnique(k, 2 * m, h, rest);
  }

  lemma QuotientUnique(k: nat, m: nat, q: nat, r: nat)
    requires m > 0 && r < m && k == q * m + r
    ensures k / m == q
  {
    var a := k / m;
    assert k == a * m + k % m;
    assert (a - q) * m == r - k % m;
    SmallMultiple(a - q, m);
  }

  lemma SmallMultiple(x: int, m: int)
    requires -m < x * m < m
    ensures x == 0
  {
    if x >= 1 {
      MultipleAtLeast(x, m);
      assert false;
    } else if x <= -1 {
      MultipleAtLeast(-x, m);
      assert false;
    }
  }

  lemma MultipleAtLeast(x: int, m: int)
    requires x >= 1 && m >= 0
    ensures x * m >= m
  {
  }
}
