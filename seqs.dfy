/** Generic sequence vocabulary shared by the page scripts: the optional value
    JavaScript expresses with `undefined`, `Array.prototype.filter`, `find`,
    and what it means for one list to be an order-preserving selection of another. */
module Seqs {

  datatype Option<T> = None | Some(value: T)

  /** `Array.prototype.filter`: the elements of `s` that satisfy `p`, in order. */
  function Filter<T>(s: seq<T>, p: T -> bool): (r: seq<T>)
    ensures |r| <= |s|
    ensures forall x :: x in r ==> x in s && p(x)
    ensures forall i :: 0 <= i < |s| && p(s[i]) ==> s[i] in r
  {
    if s == [] then []
    else (if p(s[0]) then [s[0]] else []) + Filter(s[1..], p)
  }

  /** `r` can be obtained from `s` by deleting elements, keeping the order of the rest. */
  predicate IsSubsequence<T(==)>(r: seq<T>, s: seq<T>)
    decreases |s|
  {
    if r == [] then true
    else if s == [] then false
    else if r[0] == s[0] then IsSubsequence(r[1..], s[1..])
    else IsSubsequence(r, s[1..])
  }

  lemma {:induction false} SubsequenceOfTail<T>(r: seq<T>, s: seq<T>)
    requires s != [] && IsSubsequence(r, s[1..])
    ensures IsSubsequence(r, s)
    decreases |s|, |r|
  {
    if r != [] && r[0] == s[0] {
      // r[0] occurs in s[1..]; match it greedily at s[0] instead
      var t := s[1..];
      if r[0] == t[0] {
        assert IsSubsequence(r[1..], t[1..]);
        SubsequenceOfTail(r[1..], t);
      } else {
        assert IsSubsequence(r, t[1..]);
        SubsequenceOfTail(r, t);
        DropHead(r, t);
      }
    }
  }

  lemma {:induction false} DropHead<T>(r: seq<T>, s: seq<T>)
    requires r != [] && IsSubsequence(r, s)
    ensures IsSubsequence(r[1..], s)
    decreases |s|, |r|
  {
    if s != [] {
      if r[0] == s[0] {
        SubsequenceOfTail(r[1..], s);
      } else {
        DropHead(r, s[1..]);
        SubsequenceOfTail(r[1..], s);
      }
    }
  }

  /** What `filter` keeps is an order-preserving selection of the input,
      every element it keeps as often as the input holds it, and nothing else. */
  lemma {:induction false} FilterIsExactSelection<T>(s: seq<T>, p: T -> bool)
    ensures IsSubsequence(Filter(s, p), s)
    ensures forall x :: multiset(Filter(s, p))[x] == if p(x) then multiset(s)[x] else 0
  {
    if s != [] {
      FilterIsExactSelection(s[1..], p);
      var rest := Filter(s[1..], p);
      assert s == [s[0]] + s[1..];
      if p(s[0]) {
        assert Filter(s, p) == [s[0]] + rest;
        assert Filter(s, p)[1..] == rest;
      } else {
        assert Filter(s, p) == rest;
        SubsequenceOfTail(rest, s);
      }
    }
  }

  /** A filter whose test every element passes returns its input unchanged. */
  lemma {:induction false} FilterKeepsAll<T>(s: seq<T>, p: T -> bool)
    requires forall i :: 0 <= i < |s| ==> p(s[i])
    ensures Filter(s, p) == s
  {
    if s != [] {
      FilterKeepsAll(s[1..], p);
      assert s == [s[0]] + s[1..];
    }
  }

  /** Filtering twice with the same test is filtering once. */
  lemma {:induction false} FilterIdempotent<T>(s: seq<T>, p: T -> bool)
    ensures Filter(Filter(s, p), p) == Filter(s, p)
  {
    var r := Filter(s, p);
    assert forall i :: 0 <= i < |r| ==> r[i] in r;
    FilterKeepsAll(r, p);
  }

  /** `Array.prototype.find` for a key: the first element whose key is `k`. */
  function FindFirst<T, K(==)>(s: seq<T>, key: T -> K, k: K): (r: Option<T>)
    ensures r.Some? ==> r.value in s && key(r.value) == k
    ensures r.None? <==> forall i :: 0 <= i < |s| ==> key(s[i]) != k
    ensures r.Some? ==> exists i :: 0 <= i < |s| && s[i] == r.value &&
                          forall j :: 0 <= j < i ==> key(s[j]) != k
  {
    if s == [] then None
    else if key(s[0]) == k then Some(s[0])
    else
      var r := FindFirst(s[1..], key, k);
      assert forall i :: 1 <= i < |s| ==> s[i] == s[1..][i - 1];
      r
  }
}
