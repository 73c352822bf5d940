/** `Array.prototype.sort` with a numeric comparator `(a, b) => rank(a) - rank(b)`:
    a stable sort by an integer rank. The in-place method is an insertion sort,
    proved to compute the functional specification `SortBy`, whose own properties
    (ordered, a permutation, stable) are proved as lemmas. */
module Sorting {
  import opened Seqs

  /** Inserts `x` after every element of `sorted` whose rank is at most its own. */
  function InsertBy<T>(sorted: seq<T>, x: T, rank: T -> int): (r: seq<T>)
    ensures |r| == |sorted| + 1
  {
    if sorted == [] || rank(sorted[|sorted| - 1]) <= rank(x) then sorted + [x]
    else InsertBy(sorted[..|sorted| - 1], x, rank) + [sorted[|sorted| - 1]]
  }

  lemma {:induction false} InsertByPermutes<T>(sorted: seq<T>, x: T, rank: T -> int)
    ensures multiset(InsertBy(sorted, x, rank)) == multiset(sorted) + multiset{x}
  {
    if !(sorted == [] || rank(sorted[|sorted| - 1]) <= rank(x)) {
      var init := sorted[..|sorted| - 1];
      InsertByPermutes(init, x, rank);
      assert sorted == init + [sorted[|sorted| - 1]];
    }
  }

  /** The stable sort of `s` by `rank`: insertion of each element, left to right. */
  function SortBy<T>(s: seq<T>, rank: T -> int): (r: seq<T>)
    ensures |r| == |s|
  {
    if s == [] then [] else InsertBy(SortBy(s[..|s| - 1], rank), s[|s| - 1], rank)
  }

  predicate Ordered<T>(s: seq<T>, rank: T -> int) {
    forall i, j :: 0 <= i < j < |s| ==> rank(s[i]) <= rank(s[j])
  }

  /** The elements whose rank is `k`, in order. */
  function WithRank<T>(s: seq<T>, rank: T -> int, k: int): seq<T> {
    if s == [] then []
    else WithRank(s[..|s| - 1], rank, k) + Only(s[|s| - 1], rank, k)
  }

  function Only<T>(x: T, rank: T -> int, k: int): seq<T> {
    if rank(x) == k then [x] else []
  }

  lemma {:induction false} InsertKeepsOrder<T>(sorted: seq<T>, x: T, rank: T -> int)
    requires Ordered(sorted, rank)
    ensures Ordered(InsertBy(sorted, x, rank), rank)
    ensures forall i :: 0 <= i < |InsertBy(sorted, x, rank)| ==>
              InsertBy(sorted, x, rank)[i] == x || InsertBy(sorted, x, rank)[i] in sorted
  {
    if !(sorted == [] || rank(sorted[|sorted| - 1]) <= rank(x)) {
      var init, last := sorted[..|sorted| - 1], sorted[|sorted| - 1];
      InsertKeepsOrder(init, x, rank);
      var r := InsertBy(init, x, rank);
      forall i | 0 <= i < |r| ensures rank(r[i]) <= rank(last) {
        if r[i] != x {
          var k :| 0 <= k < |init| && init[k] == r[i];
        }
      }
    }
  }

  /** The specification sorts: ranks never decrease along the result. */
  lemma {:induction false} SortByOrdered<T>(s: seq<T>, rank: T -> int)
    ensures Ordered(SortBy(s, rank), rank)
  {
    if s != [] {
      SortByOrdered(s[..|s| - 1], rank);
      InsertKeepsOrder(SortBy(s[..|s| - 1], rank), s[|s| - 1], rank);
    }
  }

  /** The specification only reorders: the result is a permutation of the input. */
  lemma {:induction false} SortByPermutes<T>(s: seq<T>, rank: T -> int)
    ensures multiset(SortBy(s, rank)) == multiset(s)
  {
    if s != [] {
      SortByPermutes(s[..|s| - 1], rank);
      InsertByPermutes(SortBy(s[..|s| - 1], rank), s[|s| - 1], rank);
      assert s == s[..|s| - 1] + [s[|s| - 1]];
    }
  }

  lemma WithRankSnoc<T>(s: seq<T>, x: T, rank: T -> int, k: int)
    ensures WithRank(s + [x], rank, k) == WithRank(s, rank, k) + Only(x, rank, k)
  {
    assert (s + [x])[..|s|] == s;
  }

  lemma {:induction false} InsertStable<T>(sorted: seq<T>, x: T, rank: T -> int, k: int)
    ensures WithRank(InsertBy(sorted, x, rank), rank, k) ==
            WithRank(sorted, rank, k) + Only(x, rank, k)
  {
    if sorted == [] || rank(sorted[|sorted| - 1]) <= rank(x) {
      WithRankSnoc(sorted, x, rank, k);
    } else {
      var init, last := sorted[..|sorted| - 1], sorted[|sorted| - 1];
      InsertStable(init, x, rank, k);
      WithRankSnoc(InsertBy(init, x, rank), last, rank, k);
      // `x` moves past `last` only when `last` ranks strictly higher, so at most
      // one of the two has the rank `k`
      assert Only(x, rank, k) == [] || Only(last, rank, k) == [];
    }
  }

  /** The specification is stable: elements of equal rank keep their input order. */
  lemma {:induction false} SortByStable<T>(s: seq<T>, rank: T -> int, k: int)
    ensures WithRank(SortBy(s, rank), rank, k) == WithRank(s, rank, k)
  {
    if s != [] {
      var init, last := s[..|s| - 1], s[|s| - 1];
      SortByStable(init, rank, k);
      InsertStable(SortBy(init, rank), last, rank, k);
    }
  }

  /** An already ordered input is left as it is. */
  lemma {:induction false} SortByOrderedInput<T>(s: seq<T>, rank: T -> int)
    requires Ordered(s, rank)
    ensures SortBy(s, rank) == s
  {
    if s != [] {
      var init, last := s[..|s| - 1], s[|s| - 1];
      assert Ordered(init, rank);
      SortByOrderedInput(init, rank);
      assert init == [] || rank(init[|init| - 1]) <= rank(last);
      assert s == init + [last];
    }
  }

  /** Where the inner loop of the insertion sort stops, the specification puts `x`. */
  lemma {:induction false} InsertAt<T>(sorted: seq<T>, x: T, rank: T -> int, j: nat)
    requires j <= |sorted|
    requires j == 0 || rank(sorted[j - 1]) <= rank(x)
    requires forall m :: j <= m < |sorted| ==> rank(sorted[m]) > rank(x)
    ensures InsertBy(sorted, x, rank) == sorted[..j] + [x] + sorted[j..]
    decreases |sorted|
  {
    if j < |sorted| {
      var init := sorted[..|sorted| - 1];
      InsertAt(init, x, rank, j);
      assert init[..j] == sorted[..j];
      assert init[j..] + [sorted[|sorted| - 1]] == sorted[j..];
    }
  }

  /** One pass of the insertion sort: shifts the elements of the sorted prefix
      `a[..i]` that rank above `a[i]` one place right and drops `a[i]` in the gap. */
  method InsertLast<T>(a: array<T>, i: nat, rank: T -> int)
    requires i < a.Length
    modifies a
    ensures a[..i + 1] == InsertBy(old(a[..i]), old(a[i]), rank)
    ensures a[i + 1..] == old(a[i + 1..])
  {
    ghost var prefix := a[..i];
    var x := a[i];
    var j := i;
    while j > 0 && rank(a[j - 1]) > rank(x)
      invariant 0 <= j <= i
      invariant forall m :: 0 <= m < j ==> a[m] == prefix[m]
      invariant forall m :: j < m <= i ==> a[m] == prefix[m - 1]
      invariant forall m :: j <= m < i ==> rank(prefix[m]) > rank(x)
      invariant forall m :: i < m < a.Length ==> a[m] == old(a[m])
    {
      a[j] := a[j - 1];
      j := j - 1;
    }
    a[j] := x;
    InsertAt(prefix, x, rank, j);
    assert a[..i + 1] == prefix[..j] + [x] + prefix[j..];
  }

  /** Sorts `a` in place, stably, by `rank`. */
  method InsertionSortBy<T>(a: array<T>, rank: T -> int)
    modifies a
    ensures a[..] == SortBy(old(a[..]), rank)
  {
    ghost var input := a[..];
    var i := 0;
    while i < a.Length
      invariant 0 <= i <= a.Length
      invariant a[..i] == SortBy(input[..i], rank)
      invariant a[i..] == input[i..]
    {
      InsertLast(a, i, rank);
      assert input[..i + 1][..i] == input[..i];
      i := i + 1;
    }
    assert input[..a.Length] == input;
  }
}
