/** `[...xs].sort(compare)`: the site sorts a fresh copy of a list with a
    comparator that orders by a key (featured flag, `order`, a date).
    `Array.prototype.sort` is stable, and for a comparator that is
    consistent with a key its result is the unique stable ordering by that
    key: the insertion sort `StableSort` below. `SortCopy` performs it in
    place on a fresh array, as the spread-and-sort does. */
module Sorting {
  import opened Seqs

  /** A sort key compared lexicographically: `major` first, then `minor`. */
  datatype Rank = Rank(major: int, minor: int)

  predicate RankLe(a: Rank, b: Rank)
  {
    a.major < b.major || (a.major == b.major && a.minor <= b.minor)
  }

  predicate RankLt(a: Rank, b: Rank)
  {
    !RankLe(b, a)
  }

  /** Non-decreasing by rank. */
  ghost predicate SortedBy<T>(xs: seq<T>, rank: T -> Rank)
  {
    forall i, j :: 0 <= i < j < |xs| ==> RankLe(rank(xs[i]), rank(xs[j]))
  }

  /** Places `x` after every element of `xs` that does not rank above it. */
  function InsertLast<T>(xs: seq<T>, x: T, rank: T -> Rank): seq<T>
    decreases |xs|
  {
    if xs == [] || RankLe(rank(xs[|xs| - 1]), rank(x)) then xs + [x]
    else InsertLast(xs[..|xs| - 1], x, rank) + [xs[|xs| - 1]]
  }

  /** The stable sort of `xs` by `rank`. */
  function StableSort<T>(xs: seq<T>, rank: T -> Rank): seq<T>
    decreases |xs|
  {
    if xs == [] then []
    else InsertLast(StableSort(xs[..|xs| - 1], rank), xs[|xs| - 1], rank)
  }

  // --------------------------------------------------------- permutation

  lemma {:induction false} InsertLastPermutes<T>(xs: seq<T>, x: T, rank: T -> Rank)
    ensures multiset(InsertLast(xs, x, rank)) == multiset(xs) + multiset{x}
    decreases |xs|
  {
    if !(xs == [] || RankLe(rank(xs[|xs| - 1]), rank(x))) {
      InsertLastPermutes(xs[..|xs| - 1], x, rank);
      assert xs == xs[..|xs| - 1] + [xs[|xs| - 1]];
    }
  }

  /** The stable sort is a permutation of its input. */
  lemma {:induction false} StableSortPermutes<T>(xs: seq<T>, rank: T -> Rank)
    ensures multiset(StableSort(xs, rank)) == multiset(xs)
    ensures |StableSort(xs, rank)| == |xs|
    decreases |xs|
  {
    if xs != [] {
      StableSortPermutes(xs[..|xs| - 1], rank);
      InsertLastPermutes(StableSort(xs[..|xs| - 1], rank), xs[|xs| - 1], rank);
      assert xs == xs[..|xs| - 1] + [xs[|xs| - 1]];
    }
    assert |StableSort(xs, rank)| == |multiset(StableSort(xs, rank))|;
  }

  /** The test "has rank exactly `k`". */
  function HasRank<T>(rank: T -> Rank, k: Rank): T -> bool
  {
    x => rank(x) == k
  }

  /** The elements of `xs` whose rank is exactly `k`, in list order. */
  function WithRank<T(!new)>(xs: seq<T>, rank: T -> Rank, k: Rank): seq<T>
  {
    Filter(xs, HasRank(rank, k))
  }

  // ----------------------------------------------------------- sortedness

  lemma {:induction false} InsertLastSorted<T>(xs: seq<T>, x: T, rank: T -> Rank)
    requires SortedBy(xs, rank)
    ensures SortedBy(InsertLast(xs, x, rank), rank)
    decreases |xs|
  {
    var r := InsertLast(xs, x, rank);
    if xs == [] || RankLe(rank(xs[|xs| - 1]), rank(x)) {
      forall i, j | 0 <= i < j < |r| ensures RankLe(rank(r[i]), rank(r[j])) {
        if j == |xs| && i < |xs| - 1 {
          assert RankLe(rank(xs[i]), rank(xs[|xs| - 1]));
        }
      }
    } else {
      var pre := xs[..|xs| - 1];
      var last := xs[|xs| - 1];
      InsertLastSorted(pre, x, rank);
      InsertLastPermutes(pre, x, rank);
      var ins := InsertLast(pre, x, rank);
      assert r == ins + [last];
      forall i | 0 <= i < |ins| ensures RankLe(rank(ins[i]), rank(last)) {
        assert ins[i] in multiset(ins);
        assert ins[i] in multiset(pre) || ins[i] == x;
        if ins[i] != x {
          var k :| 0 <= k < |pre| && pre[k] == ins[i];
          assert xs[k] == pre[k];
        }
      }
    }
  }

  /** The stable sort orders its result by non-decreasing rank. */
  lemma {:induction false} StableSortSorted<T>(xs: seq<T>, rank: T -> Rank)
    ensures SortedBy(StableSort(xs, rank), rank)
    decreases |xs|
  {
    if xs != [] {
      StableSortSorted(xs[..|xs| - 1], rank);
      InsertLastSorted(StableSort(xs[..|xs| - 1], rank), xs[|xs| - 1], rank);
    }
  }

  // ------------------------------------------------------------ stability

  lemma {:induction false} InsertLastWithRank<T(!new)>(xs: seq<T>, x: T, rank: T -> Rank, k: Rank)
    ensures WithRank(InsertLast(xs, x, rank), rank, k)
      == WithRank(xs, rank, k) + (if rank(x) == k then [x] else [])
    decreases |xs|
  {
    if xs == [] || RankLe(rank(xs[|xs| - 1]), rank(x)) {
      FilterAppend(xs, [x], HasRank(rank, k));
    } else {
      var pre := xs[..|xs| - 1];
      var last := xs[|xs| - 1];
      InsertLastWithRank(pre, x, rank, k);
      FilterAppend(InsertLast(pre, x, rank), [last], HasRank(rank, k));
      FilterAppend(pre, [last], HasRank(rank, k));
      assert pre + [last] == xs;
    }
  }

  /** Stability: elements of equal rank keep their relative order. */
  lemma {:induction false} StableSortStable<T(!new)>(xs: seq<T>, rank: T -> Rank, k: Rank)
    ensures WithRank(StableSort(xs, rank), rank, k) == WithRank(xs, rank, k)
    decreases |xs|
  {
    if xs != [] {
      var pre := xs[..|xs| - 1];
      var last := xs[|xs| - 1];
      StableSortStable(pre, rank, k);
      InsertLastWithRank(StableSort(pre, rank), last, rank, k);
      FilterAppend(pre, [last], HasRank(rank, k));
      assert pre + [last] == xs;
    }
  }

  /** A list already in order is left as it is (so sorting twice is sorting once). */
  lemma {:induction false} StableSortOfSorted<T>(xs: seq<T>, rank: T -> Rank)
    requires SortedBy(xs, rank)
    ensures StableSort(xs, rank) == xs
    decreases |xs|
  {
    if xs != [] {
      var pre := xs[..|xs| - 1];
      assert SortedBy(pre, rank) by {
        forall i, j | 0 <= i < j < |pre| ensures RankLe(rank(pre[i]), rank(pre[j])) {
          assert pre[i] == xs[i] && pre[j] == xs[j];
        }
      }
      StableSortOfSorted(pre, rank);
      if pre != [] {
        assert RankLe(rank(xs[|xs| - 2]), rank(xs[|xs| - 1]));
      }
      assert pre + [xs[|xs| - 1]] == xs;
    }
  }

  lemma StableSortIdempotent<T>(xs: seq<T>, rank: T -> Rank)
    ensures StableSort(StableSort(xs, rank), rank) == StableSort(xs, rank)
  {
    StableSortSorted(xs, rank);
    StableSortOfSorted(StableSort(xs, rank), rank);
  }

  // ------------------------------------------------------- in-place sort

  /** Moves `a[i]` left past every element of the sorted prefix `a[..i]`
      that ranks strictly above it: the prefix becomes `InsertLast`. */
  method InsertInPlace<T>(a: array<T>, i: nat, rank: T -> Rank)
    requires i < a.Length
    modifies a
    ensures a[..i + 1] == InsertLast(old(a[..i]), old(a[i]), rank)
    ensures a[i + 1..] == old(a[i + 1..])
  {
    ghost var sorted := a[..i];
    var x := a[i];
    var j := i;
    while j > 0 && RankLt(rank(x), rank(a[j - 1]))
      invariant 0 <= j <= i
      invariant a[..j] == sorted[..j]
      invariant a[j + 1..i + 1] == sorted[j..]
      invariant a[i + 1..] == old(a[i + 1..])
      invariant InsertLast(sorted, x, rank) == InsertLast(sorted[..j], x, rank) + sorted[j..]
    {
      assert sorted[..j][..j - 1] == sorted[..j - 1];
      a[j] := a[j - 1];
      j := j - 1;
    }
    a[j] := x;
    assert a[..i + 1] == sorted[..j] + [x] + sorted[j..];
  }

  /** Copies `xs` into a fresh array and insertion-sorts it in place:
      the result is the stable sort, a permutation of `xs` in rank order;
      `xs` itself is a value and is left as it was. */
  method SortCopy<T>(xs: seq<T>, rank: T -> Rank) returns (r: seq<T>)
    ensures r == StableSort(xs, rank)
    ensures multiset(r) == multiset(xs) && SortedBy(r, rank)
  {
    var a := new T[|xs|](i requires 0 <= i < |xs| => xs[i]);
    var i := 0;
    while i < a.Length
      invariant 0 <= i <= a.Length == |xs|
      invariant a[..i] == StableSort(xs[..i], rank)
      invariant a[i..] == xs[i..]
    {
      InsertInPlace(a, i, rank);
      assert xs[..i + 1][..i] == xs[..i];
      i := i + 1;
    }
    assert xs[..a.Length] == xs;
    r := a[..];
    StableSortSorted(xs, rank);
    StableSortPermutes(xs, rank);
  }
}
