/**
 * An insertion sort by a caller-supplied "sorts no later than" relation,
 * a total preorder. pandas' multi-column `sort_values` is modelled with it:
 * the relation compares the sort keys.
 */
module Sorting {

  /** `le` orders every pair and is transitive: a total preorder. */
  ghost predicate TotalPreorder<T(!new)>(le: (T, T) -> bool)
  {
    && (forall a, b :: le(a, b) || le(b, a))
    && (forall a, b, c :: le(a, b) && le(b, c) ==> le(a, c))
  }

  predicate SortedBy<T>(s: seq<T>, le: (T, T) -> bool)
  {
    forall i, j :: 0 <= i < j < |s| ==> le(s[i], s[j])
  }

  /** An element below every element of a sorted sequence can go in front of it. */
  lemma SortedCons<T>(y: T, s: seq<T>, le: (T, T) -> bool)
    ensures SortedBy(s, le) && (forall k :: 0 <= k < |s| ==> le(y, s[k])) ==> SortedBy([y] + s, le)
  {
    if SortedBy(s, le) && (forall k :: 0 <= k < |s| ==> le(y, s[k])) {
      forall i, j | 0 <= i < j < |s| + 1
        ensures le(([y] + s)[i], ([y] + s)[j])
      {
        if i > 0 {
          assert ([y] + s)[i] == s[i - 1];
        }
        assert ([y] + s)[j] == s[j - 1];
      }
    }
  }

  /** An element that sorts no later than the head of a sorted sequence can go in front of it. */
  lemma SortedInFront<T(!new)>(x: T, s: seq<T>, le: (T, T) -> bool)
    requires |s| == 0 || le(x, s[0])
    ensures TotalPreorder(le) && SortedBy(s, le) ==> SortedBy([x] + s, le)
  {
    if TotalPreorder(le) && SortedBy(s, le) {
      forall k | 0 <= k < |s|
        ensures le(x, s[k])
      {
        if k > 0 {
          assert le(s[0], s[k]);
        }
      }
      SortedCons(x, s, le);
    }
  }

  /** Puts `x` in front of the first element it sorts no later than. */
  function Insert<T(!new)>(x: T, s: seq<T>, le: (T, T) -> bool): (r: seq<T>)
    ensures multiset(r) == multiset(s) + multiset{x}
    ensures TotalPreorder(le) && SortedBy(s, le) ==> SortedBy(r, le)
  {
    if |s| == 0 || le(x, s[0]) then
      SortedInFront(x, s, le);
      [x] + s
    else
      var rest := Insert(x, s[1..], le);
      assert s == [s[0]] + s[1..];
      LowerBoundKept(s[0], x, s[1..], rest, le);
      SortedCons(s[0], rest, le);
      [s[0]] + rest
  }

  /** An element below `x` and below all of `s` is below every element of a shuffle of them. */
  lemma LowerBoundKept<T(!new)>(y: T, x: T, s: seq<T>, r: seq<T>, le: (T, T) -> bool)
    requires multiset(r) == multiset(s) + multiset{x}
    requires !le(x, y)
    ensures TotalPreorder(le) && SortedBy([y] + s, le) ==> forall k :: 0 <= k < |r| ==> le(y, r[k])
  {
    forall k | 0 <= k < |r| && TotalPreorder(le) && SortedBy([y] + s, le)
      ensures le(y, r[k])
    {
      assert r[k] in multiset(r);
      if r[k] == x {
        assert le(x, y) || le(y, x);
      } else {
        assert r[k] in multiset(s);
        var j :| 0 <= j < |s| && s[j] == r[k];
        assert ([y] + s)[0] == y && ([y] + s)[j + 1] == s[j];
      }
    }
  }

  function InsertionSort<T(!new)>(s: seq<T>, le: (T, T) -> bool): (r: seq<T>)
    ensures multiset(r) == multiset(s)
    ensures |r| == |s|
    ensures TotalPreorder(le) ==> SortedBy(r, le)
  {
    if |s| == 0 then []
    else
      assert s == [s[0]] + s[1..];
      Insert(s[0], InsertionSort(s[1..], le), le)
  }

  /** The tail of a sorted sequence is sorted. */
  lemma SortedTail<T>(s: seq<T>, le: (T, T) -> bool)
    requires |s| > 0 && SortedBy(s, le)
    ensures SortedBy(s[1..], le)
  {
    forall i, j | 0 <= i < j < |s| - 1
      ensures le(s[1..][i], s[1..][j])
    {
      assert s[1..][i] == s[i + 1] && s[1..][j] == s[j + 1];
    }
  }

  /** Sorting a sequence that is already sorted changes nothing. */
  lemma {:induction false} SortedUnchanged<T(!new)>(s: seq<T>, le: (T, T) -> bool)
    requires SortedBy(s, le)
    ensures InsertionSort(s, le) == s
  {
    if |s| > 0 {
      var tail := s[1..];
      SortedTail(s, le);
      SortedUnchanged(tail, le);
      assert |tail| == 0 || le(s[0], tail[0]);
      assert InsertionSort(s, le) == Insert(s[0], tail, le) == [s[0]] + tail;
      assert s == [s[0]] + tail;
    }
  }
}
