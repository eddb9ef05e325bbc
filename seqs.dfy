/** Sequence helpers shared by the stream filters of the backend and the array
    filters of the frontend. */
module Seqs {
  /** `r` is `s` with some elements left out and the rest kept in their order. */
  predicate IsSubsequence<T(==)>(r: seq<T>, s: seq<T>)
    decreases |s|
  {
    if r == [] then true
    else if s == [] then false
    else (r[0] == s[0] && IsSubsequence(r[1..], s[1..])) || IsSubsequence(r, s[1..])
  }

  /** Stream.filter / Array.prototype.filter: the elements satisfying `keep`, in order. */
  function Filter<T(==,!new)>(s: seq<T>, keep: T -> bool): (r: seq<T>)
    ensures |r| <= |s|
    ensures forall x :: x in r <==> x in s && keep(x)
    decreases |s|
  {
    if s == [] then []
    else if keep(s[0]) then [s[0]] + Filter(s[1..], keep) else Filter(s[1..], keep)
  }

  /** The filter keeps the elements in their order. */
  lemma {:induction false} FilterIsSubsequence<T(!new)>(s: seq<T>, keep: T -> bool)
    ensures IsSubsequence(Filter(s, keep), s)
    decreases |s|
  {
    if s != [] {
      FilterIsSubsequence(s[1..], keep);
    }
  }

  /** The filter keeps every occurrence of a kept value and none of the others. */
  lemma {:induction false} FilterCounts<T(!new)>(s: seq<T>, keep: T -> bool, x: T)
    ensures multiset(Filter(s, keep))[x] == if keep(x) then multiset(s)[x] else 0
    decreases |s|
  {
    if s != [] {
      FilterCounts(s[1..], keep, x);
      assert s == [s[0]] + s[1..];
    }
  }

  /** Filtering with a test that keeps everything gives the sequence back. */
  lemma {:induction false} FilterAll<T(!new)>(s: seq<T>, keep: T -> bool)
    requires forall x :: x in s ==> keep(x)
    ensures Filter(s, keep) == s
    decreases |s|
  {
    if s != [] {
      FilterAll(s[1..], keep);
    }
  }
}
