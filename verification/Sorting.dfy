/** Insertion sort over a strict weak order, and why sorted lists are unique.
    The source relies on the standard library's unstable sorts; every list it
    sorts is afterwards required to be free of ties, where all sorts agree. */
module Sorting {
  ghost predicate StrictWeakOrder<T(!new)>(lt: (T, T) -> bool) {
    && (forall x, y :: lt(x, y) ==> !lt(y, x))
    && (forall x, y, z :: !lt(x, y) && !lt(y, z) ==> !lt(x, z))
  }

  ghost predicate Ascending<T>(s: seq<T>, lt: (T, T) -> bool) {
    forall i, j :: 0 <= i < j < |s| ==> !lt(s[j], s[i])
  }

  ghost predicate StrictlyAscending<T>(s: seq<T>, lt: (T, T) -> bool) {
    forall i, j :: 0 <= i < j < |s| ==> lt(s[i], s[j])
  }

  function Insert<T>(x: T, s: seq<T>, lt: (T, T) -> bool): (r: seq<T>)
    ensures multiset(r) == multiset(s) + multiset{x}
  {
    if s == [] || !lt(s[0], x) then
      [x] + s
    else
      assert s == [s[0]] + s[1..];
      [s[0]] + Insert(x, s[1..], lt)
  }

  function Sort<T>(s: seq<T>, lt: (T, T) -> bool): (r: seq<T>)
    ensures multiset(r) == multiset(s)
  {
    if s == [] then
      []
    else
      assert s == [s[0]] + s[1..];
      Insert(s[0], Sort(s[1..], lt), lt)
  }

  lemma {:induction false} InsertAscending<T(!new)>(x: T, s: seq<T>, lt: (T, T) -> bool)
    requires StrictWeakOrder(lt)
    requires Ascending(s, lt)
    ensures Ascending(Insert(x, s, lt), lt)
  {
    if s == [] || !lt(s[0], x) {
      forall j | 0 <= j < |s| ensures !lt(s[j], x) {
        assert j == 0 || !lt(s[j], s[0]);
      }
    } else {
      InsertAscending(x, s[1..], lt);
      var tail := Insert(x, s[1..], lt);
      forall j | 0 <= j < |tail| ensures !lt(tail[j], s[0]) {
        assert tail[j] in multiset(tail);
        assert tail[j] == x || tail[j] in s[1..];
      }
    }
  }

  lemma {:induction false} SortAscending<T(!new)>(s: seq<T>, lt: (T, T) -> bool)
    requires StrictWeakOrder(lt)
    ensures Ascending(Sort(s, lt), lt)
  {
    if s != [] {
      SortAscending(s[1..], lt);
      InsertAscending(s[0], Sort(s[1..], lt), lt);
    }
  }

  lemma SameElements<T>(s: seq<T>, t: seq<T>)
    requires multiset(s) == multiset(t)
    ensures |s| == |t|
    ensures forall x :: x in s <==> x in t
  {
    assert |multiset(s)| == |s| && |multiset(t)| == |t|;
    forall x ensures x in s <==> x in t {
      assert x in s <==> x in multiset(s);
      assert x in t <==> x in multiset(t);
    }
  }

  /** A strictly ascending list is determined by its elements. */
  lemma {:induction false} StrictlyAscendingUnique<T(!new)>(s: seq<T>, t: seq<T>, lt: (T, T) -> bool)
    requires forall x, y :: lt(x, y) ==> !lt(y, x)
    requires StrictlyAscending(s, lt) && StrictlyAscending(t, lt)
    requires forall x :: x in s <==> x in t
    ensures s == t
  {
    if t != [] { assert t[0] in s; }
    if s != [] {
      assert s[0] in t;
      assert s[0] == t[0];
      forall x ensures x in s[1..] <==> x in t[1..] {
        if x in s[1..] { assert x in t && lt(s[0], x); }
        if x in t[1..] { assert x in s && lt(t[0], x); }
      }
      StrictlyAscendingUnique(s[1..], t[1..], lt);
      assert s == [s[0]] + s[1..] && t == [t[0]] + t[1..];
    }
  }

  /** No two positions share the value of `f`. */
  ghost predicate Distinct<T(!new), K(!new)>(s: seq<T>, f: T -> K) {
    forall i, j :: 0 <= i < j < |s| ==> f(s[i]) != f(s[j])
  }

  lemma {:induction false} DistinctCountsOnce<T(!new), K(!new)>(s: seq<T>, f: T -> K, x: T)
    requires Distinct(s, f)
    ensures multiset(s)[x] <= 1
  {
    if s != [] {
      assert s == [s[0]] + s[1..];
      DistinctCountsOnce(s[1..], f, x);
      if x == s[0] {
        assert forall j :: 0 <= j < |s[1..]| ==> f(s[1..][j]) != f(x);
      }
    }
  }

  lemma CountsTwice<T(!new)>(s: seq<T>, i: nat, j: nat)
    requires i < j < |s| && s[i] == s[j]
    ensures multiset(s)[s[i]] >= 2
  {
    assert s == s[..i] + [s[i]] + s[i + 1..j] + [s[j]] + s[j + 1..];
  }

  /** Distinctness does not depend on the order of the list. */
  lemma DistinctPermutes<T(!new), K(!new)>(a: seq<T>, b: seq<T>, f: T -> K)
    requires Distinct(a, f) && multiset(a) == multiset(b)
    ensures Distinct(b, f)
  {
    forall i, j | 0 <= i < j < |b| ensures f(b[i]) != f(b[j]) {
      if f(b[i]) == f(b[j]) {
        SameElements(a, b);
        assert b[i] in a && b[j] in a;
        CountsTwice(b, i, j);
        DistinctCountsOnce(a, f, b[i]);
        assert false;
      }
    }
  }

  /** Sorting any arrangement of a strictly ascending list gives that list. */
  lemma SortUnique<T(!new)>(s: seq<T>, t: seq<T>, lt: (T, T) -> bool)
    requires StrictWeakOrder(lt)
    requires StrictlyAscending(t, lt) && multiset(s) == multiset(t)
    ensures Sort(s, lt) == t
  {
    var r := Sort(s, lt);
    SortAscending(s, lt);
    SameElements(r, t);
    forall i, j | 0 <= i < j < |t| ensures Identity(t[i]) != Identity(t[j]) {
      assert lt(t[i], t[j]);
    }
    DistinctPermutes(t, r, Identity);
    forall i, j | 0 <= i < j < |r| ensures lt(r[i], r[j]) {
      assert Identity(r[i]) != Identity(r[j]);
      assert r[i] in t && r[j] in t;
      assert !lt(r[j], r[i]);
    }
    StrictlyAscendingUnique(r, t, lt);
  }

  function Identity<T>(x: T): T {
    x
  }

  // ----- lists

  /** What the elements of a list yield, in order. */
  function Collect<T, U>(s: seq<T>, f: T -> seq<U>): seq<U> {
    if s == [] then [] else f(s[0]) + Collect(s[1..], f)
  }

  lemma {:induction false} CollectLast<T, U>(s: seq<T>, last: T, f: T -> seq<U>)
    ensures Collect(s + [last], f) == Collect(s, f) + f(last)
  {
    if s == [] {
      var none: seq<T> := [];
      assert (s + [last])[1..] == none && Collect(none, f) == [];
      assert f(last) + [] == [] + f(last) == f(last);
    } else {
      CollectLast(s[1..], last, f);
      assert (s + [last])[0] == s[0] && (s + [last])[1..] == s[1..] + [last];
      assert (f(s[0]) + Collect(s[1..], f)) + f(last) == f(s[0]) + (Collect(s[1..], f) + f(last));
    }
  }

  lemma {:induction false} CollectFrom<T, U>(s: seq<T>, f: T -> seq<U>, x: U) returns (i: nat)
    requires x in Collect(s, f)
    ensures i < |s| && x in f(s[i])
  {
    if x in f(s[0]) {
      i := 0;
    } else {
      i := CollectFrom(s[1..], f, x);
      i := i + 1;
    }
  }
}
