/**
 * Sorting as Go's `sort.Sort` is used by the converter: a strict total order given
 * as a `less` function, an element swap, an in-place sort, and the fact that the
 * sorted arrangement of a collection is unique, so the result does not depend on
 * which algorithm `sort.Sort` runs.
 */
module Sorting {

  ghost predicate StrictTotalOrder<T(!new)>(less: (T, T) -> bool) {
    && (forall x :: !less(x, x))
    && (forall x, y, z :: less(x, y) && less(y, z) ==> less(x, z))
    && (forall x, y :: x != y ==> less(x, y) || less(y, x))
  }

  /** Ascending: no element is less than one before it. */
  predicate Sorted<T>(s: seq<T>, less: (T, T) -> bool) {
    forall i, j :: 0 <= i < j < |s| ==> !less(s[j], s[i])
  }

  /** "Not less than" is transitive under a strict total order. */
  lemma NotLessTransitive<T(!new)>(less: (T, T) -> bool, x: T, y: T, z: T)
    requires StrictTotalOrder(less)
    requires !less(y, x) && !less(z, y)
    ensures !less(z, x)
  {
  }

  /** Exchanges two elements in place (`Swap` of `sort.Interface`). */
  method Swap<T>(a: array<T>, i: int, j: int)
    requires 0 <= i < a.Length && 0 <= j < a.Length
    modifies a
    ensures a[i] == old(a[j]) && a[j] == old(a[i])
    ensures forall k :: 0 <= k < a.Length && k != i && k != j ==> a[k] == old(a[k])
    ensures multiset(a[..]) == old(multiset(a[..]))
  {
    a[i], a[j] := a[j], a[i];
  }

  /** Sorts `a` in place by insertion, exchanging neighbours with `Swap`. */
  method InsertionSort<T(!new)>(a: array<T>, less: (T, T) -> bool)
    requires StrictTotalOrder(less)
    modifies a
    ensures Sorted(a[..], less)
    ensures multiset(a[..]) == old(multiset(a[..]))
  {
    var i := 0;
    while i < a.Length
      invariant 0 <= i <= a.Length
      invariant forall p, q :: 0 <= p < q < i ==> !less(a[q], a[p])
      invariant multiset(a[..]) == old(multiset(a[..]))
    {
      var j := i;
      while j > 0 && less(a[j], a[j - 1])
        invariant 0 <= j <= i
        invariant forall p, q :: 0 <= p < q <= i && p != j && q != j ==> !less(a[q], a[p])
        invariant forall q :: j < q <= i ==> less(a[j], a[q])
        invariant multiset(a[..]) == old(multiset(a[..]))
      {
        Swap(a, j - 1, j);
        j := j - 1;
      }
      forall p | 0 <= p < j
        ensures !less(a[j], a[p])
      {
        if p < j - 1 {
          NotLessTransitive(less, a[p], a[j - 1], a[j]);
        }
      }
      i := i + 1;
    }
  }

  /** Inserts `x` before the first element that is not less than it. */
  function Insert<T>(x: T, s: seq<T>, less: (T, T) -> bool): (r: seq<T>)
    ensures multiset(r) == multiset{x} + multiset(s)
  {
    if s == [] || !less(s[0], x) then [x] + s
    else
      assert s == [s[0]] + s[1..];
      [s[0]] + Insert(x, s[1..], less)
  }

  /** Insertion sort on values: the reference arrangement of a collection. */
  function SortSeq<T>(s: seq<T>, less: (T, T) -> bool): (r: seq<T>)
    ensures multiset(r) == multiset(s)
  {
    if s == [] then []
    else
      assert s == [s[0]] + s[1..];
      Insert(s[0], SortSeq(s[1..], less), less)
  }

  lemma {:induction false} InsertSorted<T(!new)>(x: T, s: seq<T>, less: (T, T) -> bool)
    requires StrictTotalOrder(less) && Sorted(s, less)
    ensures Sorted(Insert(x, s, less), less)
  {
    var r := Insert(x, s, less);
    if s == [] {
    } else if !less(s[0], x) {
      forall j | 1 <= j < |r| ensures !less(r[j], x) {
        if j > 1 { NotLessTransitive(less, x, s[0], s[j - 1]); }
      }
    } else {
      var t := Insert(x, s[1..], less);
      InsertSorted(x, s[1..], less);
      forall j | 0 <= j < |t| ensures !less(t[j], s[0]) {
        assert t[j] in multiset(t);
        if t[j] != x {
          assert t[j] in multiset(s[1..]);
          var k :| 0 <= k < |s[1..]| && s[1..][k] == t[j];
          assert s[k + 1] == t[j];
        }
      }
    }
  }

  /** The reference arrangement is sorted. */
  lemma {:induction false} SortSeqSorted<T(!new)>(s: seq<T>, less: (T, T) -> bool)
    requires StrictTotalOrder(less)
    ensures Sorted(SortSeq(s, less), less)
  {
    if s != [] {
      SortSeqSorted(s[1..], less);
      InsertSorted(s[0], SortSeq(s[1..], less), less);
    }
  }

  /** The first element of a sorted sequence is not greater than any element. */
  lemma HeadIsLeast<T(!new)>(s: seq<T>, less: (T, T) -> bool)
    requires StrictTotalOrder(less) && Sorted(s, less) && s != []
    ensures forall y :: y in multiset(s) ==> !less(y, s[0])
  {
    forall y | y in multiset(s) ensures !less(y, s[0]) {
      var k :| 0 <= k < |s| && s[k] == y;
    }
  }

  /** Two sorted arrangements of the same non-empty collection start with the same element. */
  lemma SortedHeadsAgree<T(!new)>(s: seq<T>, t: seq<T>, less: (T, T) -> bool)
    requires StrictTotalOrder(less)
    requires Sorted(s, less) && Sorted(t, less)
    requires multiset(s) == multiset(t) && s != [] && t != []
    ensures s[0] == t[0]
  {
    HeadIsLeast(s, less);
    HeadIsLeast(t, less);
    assert s[0] in multiset(t) && t[0] in multiset(s);
  }

  lemma TailMultiset<T>(s: seq<T>)
    requires s != []
    ensures multiset(s[1..]) == multiset(s) - multiset{s[0]}
  {
    assert s == [s[0]] + s[1..];
  }

  lemma SortedTail<T>(s: seq<T>, less: (T, T) -> bool)
    requires Sorted(s, less) && s != []
    ensures Sorted(s[1..], less)
  {
    forall i, j | 0 <= i < j < |s[1..]| ensures !less(s[1..][j], s[1..][i]) {
      assert s[1..][j] == s[j + 1] && s[1..][i] == s[i + 1];
    }
  }

  lemma SameHeadAndTail<T>(s: seq<T>, t: seq<T>)
    requires s != [] && t != [] && s[0] == t[0] && s[1..] == t[1..]
    ensures s == t
  {
    assert s == [s[0]] + s[1..] && t == [t[0]] + t[1..];
  }

  /** Two sorted arrangements of the same collection are equal. */
  lemma {:induction false} SortedUnique<T(!new)>(s: seq<T>, t: seq<T>, less: (T, T) -> bool)
    requires StrictTotalOrder(less)
    requires Sorted(s, less) && Sorted(t, less)
    requires multiset(s) == multiset(t)
    ensures s == t
  {
    assert |t| == |s| by { assert |multiset(t)| == |multiset(s)|; }
    if s != [] {
      SortedHeadsAgree(s, t, less);
      TailMultiset(s);
      TailMultiset(t);
      SortedTail(s, less);
      SortedTail(t, less);
      SortedUnique(s[1..], t[1..], less);
      SameHeadAndTail(s, t);
    }
  }
}
