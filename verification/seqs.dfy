/**
 * Sequence operations the store relies on from the JavaScript runtime:
 * `Array.prototype.filter` (order-preserving selection) and
 * `Array.prototype.sort` with a comparator (here a stable insertion sort).
 */
module Seqs {

  /** `a` is obtained from `b` by deleting some elements and keeping the rest in order. */
  ghost predicate IsSubsequence<T>(a: seq<T>, b: seq<T>)
    decreases |b|
  {
    if a == [] then true
    else if b == [] then false
    else (a[0] == b[0] && IsSubsequence(a[1..], b[1..])) || IsSubsequence(a, b[1..])
  }

  /** Every element of a subsequence occurs in the sequence it was taken from. */
  lemma {:induction false} SubsequenceMembers<T>(a: seq<T>, b: seq<T>, x: T)
    requires IsSubsequence(a, b)
    requires x in a
    ensures x in b
    decreases |b|
  {
    if a[0] == b[0] && IsSubsequence(a[1..], b[1..]) {
      if x != a[0] {
        SubsequenceMembers(a[1..], b[1..], x);
      }
    } else {
      SubsequenceMembers(a, b[1..], x);
    }
  }

  /** The elements of `s` satisfying `keep`, in their original order. */
  function Filter<T(!new)>(s: seq<T>, keep: T -> bool): (r: seq<T>)
    ensures IsSubsequence(r, s)
    ensures forall i :: 0 <= i < |r| ==> keep(r[i])
    ensures forall x :: multiset(r)[x] == if keep(x) then multiset(s)[x] else 0
    ensures (forall i :: 0 <= i < |s| ==> keep(s[i])) ==> r == s
  {
    if s == [] then []
    else
      var rest := Filter(s[1..], keep);
      assert s == [s[0]] + s[1..];
      if keep(s[0]) then [s[0]] + rest else rest
  }

  /** Filtering twice with the same test is filtering once. */
  lemma FilterIdempotent<T(!new)>(s: seq<T>, keep: T -> bool)
    ensures Filter(Filter(s, keep), keep) == Filter(s, keep)
  {
  }

  /**
   * `s` is in the order a JavaScript comparator asks for: no adjacent pair
   * is one the comparator wants swapped (`cmp(a, b) > 0`).
   */
  ghost predicate Sorted<T>(s: seq<T>, cmp: (T, T) -> int) {
    forall i :: 0 <= i && i + 1 < |s| ==> cmp(s[i], s[i + 1]) <= 0
  }

  /** Any two values, equal ones included, may be placed in at least one order. */
  ghost predicate StronglyConnected<T(!new)>(cmp: (T, T) -> int) {
    forall a, b :: cmp(a, b) <= 0 || cmp(b, a) <= 0
  }

  /** Inserts `x` in front of the first element it may precede. */
  function Insert<T(!new)>(x: T, s: seq<T>, cmp: (T, T) -> int): (r: seq<T>)
    ensures |r| == |s| + 1
    ensures multiset(r) == multiset(s) + multiset{x}
    ensures r[0] == x || (s != [] && r[0] == s[0])
  {
    if s == [] || cmp(x, s[0]) <= 0 then [x] + s
    else
      assert s == [s[0]] + s[1..];
      [s[0]] + Insert(x, s[1..], cmp)
  }

  /** Inserting into a sorted sequence keeps it sorted. */
  lemma {:induction false} InsertSorted<T(!new)>(x: T, s: seq<T>, cmp: (T, T) -> int)
    requires StronglyConnected(cmp)
    requires Sorted(s, cmp)
    ensures Sorted(Insert(x, s, cmp), cmp)
  {
    if s != [] && cmp(x, s[0]) > 0 {
      var rest := Insert(x, s[1..], cmp);
      var r := [s[0]] + rest;
      assert Insert(x, s, cmp) == r;
      InsertSorted(x, s[1..], cmp);
      assert cmp(s[0], rest[0]) <= 0 by {
        if rest[0] == x {
          assert cmp(x, s[0]) <= 0 || cmp(s[0], x) <= 0;
        } else {
          assert rest[0] == s[1];
        }
      }
      forall i | 0 <= i && i + 1 < |r|
        ensures cmp(r[i], r[i + 1]) <= 0
      {
        if i > 0 {
          assert r[i] == rest[i - 1] && r[i + 1] == rest[i];
        }
      }
    }
  }

  /** Insertion sort: a permutation of `s`, sorted whenever `cmp` is connected. */
  function SortBy<T(!new)>(s: seq<T>, cmp: (T, T) -> int): (r: seq<T>)
    ensures |r| == |s|
    ensures multiset(r) == multiset(s)
    ensures StronglyConnected(cmp) ==> Sorted(r, cmp)
  {
    if s == [] then []
    else
      var sorted := SortBy(s[1..], cmp);
      assert s == [s[0]] + s[1..];
      assert StronglyConnected(cmp) ==> Sorted(Insert(s[0], sorted, cmp), cmp) by {
        if StronglyConnected(cmp) {
          InsertSorted(s[0], sorted, cmp);
        }
      }
      Insert(s[0], sorted, cmp)
  }
}
