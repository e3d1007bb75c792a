/** Go's `sort.Slice` with a "less" comparator, modelled by an insertion
    sort. For a transitive, irreflexive comparator the result is a
    permutation of the input in which no entry is less than an earlier one,
    which is all `sort.Slice` promises. */
module Sorting {

  /** No entry is less than an entry before it. */
  predicate Sorted<T>(less: (T, T) -> bool, s: seq<T>)
  {
    forall i, j :: 0 <= i < j < |s| ==> !less(s[j], s[i])
  }

  ghost predicate StrictOrder<T(!new)>(less: (T, T) -> bool)
  {
    (forall a :: !less(a, a))
    && (forall a, b, c :: less(a, b) && less(b, c) ==> less(a, c))
  }

  /** `x` goes in front of the first entry it is less than. */
  function Insert<T>(less: (T, T) -> bool, x: T, s: seq<T>): (r: seq<T>)
    ensures |r| == |s| + 1
  {
    if s == [] || less(x, s[0]) then [x] + s else [s[0]] + Insert(less, x, s[1..])
  }

  function InsertionSort<T>(less: (T, T) -> bool, s: seq<T>): (r: seq<T>)
    ensures |r| == |s|
  {
    if s == [] then [] else Insert(less, s[|s| - 1], InsertionSort(less, s[..|s| - 1]))
  }

  lemma {:induction false} InsertPermutes<T>(less: (T, T) -> bool, x: T, s: seq<T>)
    ensures multiset(Insert(less, x, s)) == multiset(s) + multiset{x}
  {
    if s != [] && !less(x, s[0]) {
      InsertPermutes(less, x, s[1..]);
      assert s == [s[0]] + s[1..];
    }
  }

  /** Inserting into a sorted sequence keeps it sorted. */
  lemma {:induction false} InsertSorted<T(!new)>(less: (T, T) -> bool, x: T, s: seq<T>)
    requires StrictOrder(less) && Sorted(less, s)
    ensures Sorted(less, Insert(less, x, s))
  {
    if s != [] && !less(x, s[0]) {
      InsertSorted(less, x, s[1..]);
      forall y | y in s[1..]
        ensures !less(y, s[0])
      {
        var j :| 0 <= j < |s[1..]| && s[1..][j] == y;
        assert s[j + 1] == y;
      }
      InsertHead(less, x, s[1..], s[0]);
    }
  }

  /** Every entry of `Insert(x, s)` is `x` or an entry of `s`. */
  lemma {:induction false} InsertMembers<T>(less: (T, T) -> bool, x: T, s: seq<T>, k: int)
    requires 0 <= k < |s| + 1
    ensures Insert(less, x, s)[k] == x || Insert(less, x, s)[k] in s
  {
    if s != [] && !less(x, s[0]) && k > 0 {
      InsertMembers(less, x, s[1..], k - 1);
      assert Insert(less, x, s)[k] == Insert(less, x, s[1..])[k - 1];
    }
  }

  /** A head that neither `x` nor any entry of `s` is less than stays in
      front. */
  lemma InsertHead<T>(less: (T, T) -> bool, x: T, s: seq<T>, h: T)
    requires Sorted(less, Insert(less, x, s))
    requires !less(x, h) && forall y :: y in s ==> !less(y, h)
    ensures Sorted(less, [h] + Insert(less, x, s))
  {
    var r := Insert(less, x, s);
    forall k | 0 <= k < |r|
      ensures !less(r[k], h)
    {
      InsertMembers(less, x, s, k);
    }
    var t := [h] + r;
    forall i, j | 0 <= i < j < |t|
      ensures !less(t[j], t[i])
    {
      assert t[j] == r[j - 1];
      if i > 0 {
        assert t[i] == r[i - 1];
      }
    }
  }

  lemma {:induction false} InsertionSortCorrect<T(!new)>(less: (T, T) -> bool, s: seq<T>)
    requires StrictOrder(less)
    ensures Sorted(less, InsertionSort(less, s))
    ensures multiset(InsertionSort(less, s)) == multiset(s)
  {
    if s != [] {
      var init := s[..|s| - 1];
      InsertionSortCorrect(less, init);
      InsertSorted(less, s[|s| - 1], InsertionSort(less, init));
      InsertPermutes(less, s[|s| - 1], InsertionSort(less, init));
      assert s == init + [s[|s| - 1]];
    }
  }
}
