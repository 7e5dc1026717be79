/** Array.prototype.sort with a comparator that orders by a string key
    through localeCompare, ascending or descending. The sort is stable, so
    its result is fully determined; it is specified here as insertion sort
    (each element goes behind every earlier one it does not precede) and
    implemented in place on an array. */
module Sorting {
  import opened Text

  /** a may stay in front of b: the comparator returns a value <= 0. */
  predicate InOrder<T>(a: T, b: T, key: T -> string, desc: bool) {
    if desc then Leq(key(b), key(a)) else Leq(key(a), key(b))
  }

  lemma InOrderTotal<T>(a: T, b: T, key: T -> string, desc: bool)
    ensures InOrder(a, b, key, desc) || InOrder(b, a, key, desc)
  {
    LeqTotal(key(a), key(b));
  }

  predicate Sorted<T>(s: seq<T>, key: T -> string, desc: bool) {
    forall i :: 0 < i < |s| ==> InOrder(s[i - 1], s[i], key, desc)
  }

  /** x placed into s behind the last element it does not precede. */
  function Insert<T>(s: seq<T>, x: T, key: T -> string, desc: bool): (r: seq<T>)
    ensures |r| == |s| + 1
    decreases |s|
  {
    if s == [] || InOrder(s[|s| - 1], x, key, desc) then s + [x]
    else Insert(s[..|s| - 1], x, key, desc) + [s[|s| - 1]]
  }

  /** Insertion adds exactly x and loses nothing. */
  lemma {:induction false} InsertPermutes<T>(s: seq<T>, x: T, key: T -> string, desc: bool)
    ensures multiset(Insert(s, x, key, desc)) == multiset(s) + multiset{x}
    decreases |s|
  {
    if !(s == [] || InOrder(s[|s| - 1], x, key, desc)) {
      var init, last := s[..|s| - 1], s[|s| - 1];
      assert s == init + [last];
      InsertPermutes(init, x, key, desc);
    }
  }

  /** Insertion into a sorted sequence keeps it sorted; the last element
      is x or the old last element. */
  lemma {:induction false} InsertSorted<T>(s: seq<T>, x: T, key: T -> string, desc: bool)
    requires Sorted(s, key, desc)
    ensures Sorted(Insert(s, x, key, desc), key, desc)
    ensures var r := Insert(s, x, key, desc);
      r[|r| - 1] == x || (s != [] && r[|r| - 1] == s[|s| - 1])
    decreases |s|
  {
    if !(s == [] || InOrder(s[|s| - 1], x, key, desc)) {
      var init, last := s[..|s| - 1], s[|s| - 1];
      InsertSorted(init, x, key, desc);
      InOrderTotal(last, x, key, desc);
      var r0 := Insert(init, x, key, desc);
      assert init != [] ==> InOrder(init[|init| - 1], last, key, desc);
      assert InOrder(r0[|r0| - 1], last, key, desc);
    }
  }

  /** The result of a stable sort of s: sorted, and a permutation of s. */
  function SortBy<T>(s: seq<T>, key: T -> string, desc: bool): (r: seq<T>)
    ensures |r| == |s|
    ensures multiset(r) == multiset(s)
    ensures Sorted(r, key, desc)
    decreases |s|
  {
    if s == [] then []
    else
      var init, last := s[..|s| - 1], s[|s| - 1];
      assert s == init + [last];
      InsertPermutes(SortBy(init, key, desc), last, key, desc);
      InsertSorted(SortBy(init, key, desc), last, key, desc);
      Insert(SortBy(init, key, desc), last, key, desc)
  }

  /** The last element of s is inserted into the sort of the rest. */
  lemma SortByLast<T>(s: seq<T>, key: T -> string, desc: bool)
    requires s != []
    ensures SortBy(s, key, desc) == Insert(SortBy(s[..|s| - 1], key, desc), s[|s| - 1], key, desc)
  {
  }

  /** An element that may follow the last one goes at the end. */
  lemma InsertAtEnd<T>(s: seq<T>, x: T, key: T -> string, desc: bool)
    requires s == [] || InOrder(s[|s| - 1], x, key, desc)
    ensures Insert(s, x, key, desc) == s + [x]
  {
  }

  /** Sorting a sorted sequence leaves it as it is. */
  lemma {:induction false} SortBySorted<T>(s: seq<T>, key: T -> string, desc: bool)
    requires Sorted(s, key, desc)
    ensures SortBy(s, key, desc) == s
    decreases |s|
  {
    if s != [] {
      var init, last := s[..|s| - 1], s[|s| - 1];
      assert s == init + [last];
      assert Sorted(init, key, desc) by {
        forall i | 0 < i < |init|
          ensures InOrder(init[i - 1], init[i], key, desc)
        {
          assert init[i - 1] == s[i - 1] && init[i] == s[i];
        }
      }
      SortBySorted(init, key, desc);
      SortByLast(s, key, desc);
      if init != [] {
        assert init[|init| - 1] == s[|s| - 2];
      }
      InsertAtEnd(init, last, key, desc);
    }
  }

  /** Sorting twice is sorting once. */
  lemma SortByIdempotent<T>(s: seq<T>, key: T -> string, desc: bool)
    ensures SortBy(SortBy(s, key, desc), key, desc) == SortBy(s, key, desc)
  {
    SortBySorted(SortBy(s, key, desc), key, desc);
  }

  /** The in-place sort: a[..] becomes the stable sort of its old contents. */
  method SortInPlace<T>(a: array<T>, key: T -> string, desc: bool)
    modifies a
    ensures a[..] == SortBy(old(a[..]), key, desc)
  {
    ghost var s := a[..];
    var i := 0;
    while i < a.Length
      invariant 0 <= i <= a.Length
      invariant a[..i] == SortBy(s[..i], key, desc)
      invariant forall k :: i <= k < a.Length ==> a[k] == s[k]
    {
      SortByStep(s, i, key, desc);
      InsertLast(a, i, key, desc);
      i := i + 1;
    }
    assert s[..a.Length] == s;
  }

  lemma SortByStep<T>(s: seq<T>, i: nat, key: T -> string, desc: bool)
    requires i < |s|
    ensures SortBy(s[..i + 1], key, desc) == Insert(SortBy(s[..i], key, desc), s[i], key, desc)
  {
    assert s[..i + 1][..i] == s[..i];
  }

  /** One pass of insertion sort: a[i] moves down past the elements of the
      prefix a[..i] it precedes. */
  method InsertLast<T>(a: array<T>, i: nat, key: T -> string, desc: bool)
    requires i < a.Length
    modifies a
    ensures a[..i + 1] == Insert(old(a[..i]), old(a[i]), key, desc)
    ensures forall k :: i < k < a.Length ==> a[k] == old(a[k])
  {
    var x := a[i];
    ghost var sorted := a[..i];
    var j := i;
    assert sorted[..j] == sorted && sorted[j..] == [];
    while j > 0 && !InOrder(a[j - 1], x, key, desc)
      invariant 0 <= j <= i
      invariant forall k :: 0 <= k < j ==> a[k] == sorted[k]
      invariant forall k :: j < k <= i ==> a[k] == sorted[k - 1]
      invariant forall k :: i < k < a.Length ==> a[k] == old(a[k])
      invariant Insert(sorted, x, key, desc) == Insert(sorted[..j], x, key, desc) + sorted[j..]
    {
      InsertShift(sorted, x, j, key, desc);
      a[j] := a[j - 1];
      j := j - 1;
    }
    InsertStop(sorted, x, j, key, desc);
    a[j] := x;
    assert a[..i + 1] == sorted[..j] + [x] + sorted[j..];
  }

  /** Moving x one place further down keeps the insertion result. */
  lemma InsertShift<T>(sorted: seq<T>, x: T, j: nat, key: T -> string, desc: bool)
    requires 0 < j <= |sorted| && !InOrder(sorted[j - 1], x, key, desc)
    ensures Insert(sorted[..j], x, key, desc) + sorted[j..] == Insert(sorted[..j - 1], x, key, desc) + sorted[j - 1..]
  {
    assert sorted[..j][..j - 1] == sorted[..j - 1];
    assert sorted[j - 1..] == [sorted[j - 1]] + sorted[j..];
  }

  /** x stops behind an element it does not precede. */
  lemma InsertStop<T>(sorted: seq<T>, x: T, j: nat, key: T -> string, desc: bool)
    requires j <= |sorted| && (j == 0 || InOrder(sorted[j - 1], x, key, desc))
    ensures Insert(sorted[..j], x, key, desc) == sorted[..j] + [x]
  {
  }
}
