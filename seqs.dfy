/** Models of the JavaScript array built-ins the site relies on:
    `slice(0, n)`, `filter`, `flatMap`, and `[...new Set(xs)]`, with the
    facts about them that the pages use. */
module Seqs {

  function Min(a: int, b: int): int { if a <= b then a else b }

  /** `xs.slice(0, n)`: the first `n` elements, or all of them when fewer. */
  function Take<T>(xs: seq<T>, n: nat): (r: seq<T>)
    ensures |r| == Min(n, |xs|)
    ensures r == xs[..|r|]
  {
    if n <= |xs| then xs[..n] else xs
  }

  // --------------------------------------------------------------- filter

  /** `xs.filter(keep)`. */
  function Filter<T(!new)>(xs: seq<T>, keep: T -> bool): (r: seq<T>)
    ensures |r| <= |xs|
    ensures forall i :: 0 <= i < |r| ==> keep(r[i])
    decreases |xs|
  {
    if xs == [] then []
    else (if keep(xs[0]) then [xs[0]] else []) + Filter(xs[1..], keep)
  }

  /** Filtering keeps every occurrence of a kept value and none of the others. */
  lemma {:induction false} FilterCount<T(!new)>(xs: seq<T>, keep: T -> bool, x: T)
    ensures multiset(Filter(xs, keep))[x] == if keep(x) then multiset(xs)[x] else 0
    decreases |xs|
  {
    if xs != [] {
      FilterCount(xs[1..], keep, x);
      assert xs == [xs[0]] + xs[1..];
    }
  }

  /** `a` occurs in `b` in order, possibly with gaps. */
  predicate IsSubsequence<T(==)>(a: seq<T>, b: seq<T>)
    decreases |b|
  {
    if a == [] then true
    else if b == [] then false
    else (a[0] == b[0] && IsSubsequence(a[1..], b[1..])) || IsSubsequence(a, b[1..])
  }

  lemma {:induction false} FilterIsSubsequence<T(!new)>(xs: seq<T>, keep: T -> bool)
    ensures IsSubsequence(Filter(xs, keep), xs)
    decreases |xs|
  {
    if xs != [] {
      FilterIsSubsequence(xs[1..], keep);
      var r := Filter(xs, keep);
      if keep(xs[0]) {
        assert r[0] == xs[0] && r[1..] == Filter(xs[1..], keep);
      } else {
        assert r == Filter(xs[1..], keep);
      }
    }
  }

  lemma {:induction false} FilterAppend<T(!new)>(a: seq<T>, b: seq<T>, keep: T -> bool)
    ensures Filter(a + b, keep) == Filter(a, keep) + Filter(b, keep)
    decreases |a|
  {
    if a == [] {
      assert a + b == b;
    } else {
      assert (a + b)[1..] == a[1..] + b;
      FilterAppend(a[1..], b, keep);
      var head := if keep(a[0]) then [a[0]] else [];
      calc {
        Filter(a + b, keep);
        head + Filter(a[1..] + b, keep);
        head + (Filter(a[1..], keep) + Filter(b, keep));
        (head + Filter(a[1..], keep)) + Filter(b, keep);
      }
    }
  }

  /** When every element is kept, filtering is the identity. */
  lemma {:induction false} FilterKeepsAll<T(!new)>(xs: seq<T>, keep: T -> bool)
    requires forall i :: 0 <= i < |xs| ==> keep(xs[i])
    ensures Filter(xs, keep) == xs
    decreases |xs|
  {
    if xs != [] {
      FilterKeepsAll(xs[1..], keep);
    }
  }

  /** Filtering twice by the same test is filtering once. */
  lemma FilterIdempotent<T(!new)>(xs: seq<T>, keep: T -> bool)
    ensures Filter(Filter(xs, keep), keep) == Filter(xs, keep)
  {
    FilterKeepsAll(Filter(xs, keep), keep);
  }

  lemma {:induction false} FilterEmptyIff<T(!new)>(xs: seq<T>, keep: T -> bool)
    ensures Filter(xs, keep) == [] <==> forall i :: 0 <= i < |xs| ==> !keep(xs[i])
    decreases |xs|
  {
    if xs != [] {
      FilterEmptyIff(xs[1..], keep);
      assert forall i :: 1 <= i < |xs| ==> xs[i] == xs[1..][i - 1];
    }
  }

  /** Two tests that agree on every element filter alike. */
  lemma {:induction false} FilterSameTest<T(!new)>(xs: seq<T>, p: T -> bool, q: T -> bool)
    requires forall i :: 0 <= i < |xs| ==> p(xs[i]) == q(xs[i])
    ensures Filter(xs, p) == Filter(xs, q)
    decreases |xs|
  {
    if xs != [] {
      FilterSameTest(xs[1..], p, q);
    }
  }

  /** Filtering by a looser test first does not change a stricter filter. */
  lemma {:induction false} FilterThenFilter<T(!new)>(xs: seq<T>, loose: T -> bool, strict: T -> bool)
    requires forall i :: 0 <= i < |xs| && strict(xs[i]) ==> loose(xs[i])
    ensures Filter(Filter(xs, loose), strict) == Filter(xs, strict)
    decreases |xs|
  {
    if xs != [] {
      FilterThenFilter(xs[1..], loose, strict);
      var head := if loose(xs[0]) then [xs[0]] else [];
      FilterAppend(head, Filter(xs[1..], loose), strict);
    }
  }

  /** Dropping a prefix that the test rejects does not change the filter. */
  lemma {:induction false} FilterDropsRejectedPrefix<T(!new)>(xs: seq<T>, i: nat, keep: T -> bool)
    requires i <= |xs|
    requires forall k :: 0 <= k < i ==> !keep(xs[k])
    ensures Filter(xs[i..], keep) == Filter(xs, keep)
    decreases i
  {
    if i == 0 {
      assert xs[0..] == xs;
    } else {
      var t := xs[1..];
      assert forall k :: 0 <= k < i - 1 ==> t[k] == xs[k + 1];
      FilterDropsRejectedPrefix(t, i - 1, keep);
      assert t[i - 1..] == xs[i..];
    }
  }

  /** Dropping a suffix that the test rejects does not change the filter. */
  lemma FilterDropsRejectedSuffix<T(!new)>(xs: seq<T>, j: nat, keep: T -> bool)
    requires j <= |xs|
    requires forall k :: j <= k < |xs| ==> !keep(xs[k])
    ensures Filter(xs[..j], keep) == Filter(xs, keep)
  {
    var c := xs[j..];
    assert forall k :: 0 <= k < |c| ==> c[k] == xs[j + k];
    FilterDropsRejectedPrefix(c, |c|, keep);
    assert c[|c|..] == [];
    FilterAppend(xs[..j], c, keep);
    assert xs[..j] + c == xs;
  }

  /** Dropping a prefix and a suffix that the test rejects does not change the filter. */
  lemma FilterIgnoresRejected<T(!new)>(xs: seq<T>, i: nat, j: nat, keep: T -> bool)
    requires i <= j <= |xs|
    requires forall k :: 0 <= k < i ==> !keep(xs[k])
    requires forall k :: j <= k < |xs| ==> !keep(xs[k])
    ensures Filter(xs[i..j], keep) == Filter(xs, keep)
  {
    FilterDropsRejectedSuffix(xs, j, keep);
    var b := xs[..j];
    assert forall k :: 0 <= k < i ==> b[k] == xs[k];
    FilterDropsRejectedPrefix(b, i, keep);
    assert b[i..] == xs[i..j];
  }

  // ------------------------------------------------------------- distinct

  /** Position of the first occurrence of `x`. */
  function FirstIndex<T(==)>(xs: seq<T>, x: T): (k: nat)
    requires x in xs
    ensures k < |xs| && xs[k] == x && x !in xs[..k]
    decreases |xs|
  {
    if xs[0] == x then 0 else 1 + FirstIndex(xs[1..], x)
  }

  /** `[...new Set(xs)]`: each value once, in the order of its first
      occurrence. */
  function Distinct<T(==,!new)>(xs: seq<T>): (r: seq<T>)
    ensures forall x :: x in r <==> x in xs
    ensures forall i, j :: 0 <= i < j < |r| ==> r[i] != r[j]
    decreases |xs|
  {
    if xs == [] then []
    else
      var d := Distinct(xs[..|xs| - 1]);
      var x := xs[|xs| - 1];
      assert xs == xs[..|xs| - 1] + [x];
      if x in d then d else d + [x]
  }

  lemma {:induction false} FirstIndexInPrefix<T>(xs: seq<T>, n: nat, x: T)
    requires n <= |xs| && x in xs[..n]
    ensures FirstIndex(xs, x) == FirstIndex(xs[..n], x)
    decreases |xs|
  {
    if xs[0] != x {
      assert xs[1..][..n - 1] == xs[..n][1..];
      FirstIndexInPrefix(xs[1..], n - 1, x);
    }
  }

  /** Distinct lists values in the order in which they are first seen. */
  lemma {:induction false} DistinctFirstSeenOrder<T(!new)>(xs: seq<T>)
    ensures forall i, j :: 0 <= i < j < |Distinct(xs)| ==>
      FirstIndex(xs, Distinct(xs)[i]) < FirstIndex(xs, Distinct(xs)[j])
    decreases |xs|
  {
    if xs != [] {
      var n := |xs| - 1;
      var pre := xs[..n];
      var x := xs[n];
      DistinctFirstSeenOrder(pre);
      var d := Distinct(pre);
      var r := Distinct(xs);
      forall i, j | 0 <= i < j < |r|
        ensures FirstIndex(xs, r[i]) < FirstIndex(xs, r[j])
      {
        assert r[i] in pre;
        FirstIndexInPrefix(xs, n, r[i]);
        if j < |d| {
          FirstIndexInPrefix(xs, n, r[j]);
        } else {
          assert r[j] == x && x !in pre;
          assert xs[..FirstIndex(xs, x)] <= pre;
        }
      }
    }
  }

  // -------------------------------------------------------------- flatten

  /** `xss.flatMap(xs => xs)`: the lists one after the other. */
  function Flatten<T>(xss: seq<seq<T>>): seq<T>
    decreases |xss|
  {
    if xss == [] then [] else xss[0] + Flatten(xss[1..])
  }

  lemma {:induction false} InFlatten<T>(xss: seq<seq<T>>, x: T)
    ensures x in Flatten(xss) <==> exists i :: 0 <= i < |xss| && x in xss[i]
    decreases |xss|
  {
    if xss != [] {
      InFlatten(xss[1..], x);
      if x in Flatten(xss[1..]) {
        var i :| 0 <= i < |xss[1..]| && x in xss[1..][i];
        assert x in xss[i + 1];
      }
      if exists i :: 0 <= i < |xss| && x in xss[i] {
        var i :| 0 <= i < |xss| && x in xss[i];
        if i > 0 { assert x in xss[1..][i - 1]; }
      }
    }
  }
}
