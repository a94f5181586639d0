/** The two query shapes the routes use: a filter on one field and MongoDB's
    `.sort({ startTime: -1 })`, most recent first. */
module Ordering {
  import opened Base

  /** MongoDB's order on an optional timestamp, descending: `a` may come before
      `b` when `b` is missing (null sorts lowest) or both are present and `a >= b`. */
  predicate AtOrAfter(a: Option<Time>, b: Option<Time>) {
    b.None? || (a.Some? && a.value >= b.value)
  }

  lemma AtOrAfterTotal(a: Option<Time>, b: Option<Time>)
    ensures AtOrAfter(a, b) || AtOrAfter(b, a)
  {
  }

  /** `s` is ordered most recent first by `key`. */
  predicate SortedDesc<T>(s: seq<T>, key: T -> Option<Time>) {
    forall i, j :: 0 <= i < j < |s| ==> AtOrAfter(key(s[i]), key(s[j]))
  }

  /** The elements of `s` that satisfy `p`, in the order of `s`. */
  function Filter<T(!new)>(s: seq<T>, p: T -> bool): (r: seq<T>)
    ensures forall x :: x in r <==> x in s && p(x)
    ensures forall x :: multiset(r)[x] == if p(x) then multiset(s)[x] else 0
    ensures |r| <= |s|
  {
    if s == [] then []
    else
      assert s == [s[0]] + s[1..];
      (if p(s[0]) then [s[0]] else []) + Filter(s[1..], p)
  }

  /** Inserts `x` into the descending sequence `s` before the first element it is at or after. */
  function Insert<T>(x: T, s: seq<T>, key: T -> Option<Time>): (r: seq<T>)
    requires SortedDesc(s, key)
    ensures multiset(r) == multiset(s) + multiset{x}
    ensures SortedDesc(r, key)
  {
    if s == [] then [x]
    else if AtOrAfter(key(x), key(s[0])) then [x] + s
    else
      assert s == [s[0]] + s[1..];
      var rest := Insert(x, s[1..], key);
      assert forall k :: 0 <= k < |rest| ==> AtOrAfter(key(s[0]), key(rest[k])) by {
        forall k | 0 <= k < |rest|
          ensures AtOrAfter(key(s[0]), key(rest[k]))
        {
          assert rest[k] in multiset(rest);
          if rest[k] != x {
            assert rest[k] in multiset(s[1..]);
            var j :| 0 <= j < |s[1..]| && s[1..][j] == rest[k];
            assert s[j + 1] == rest[k];
          }
        }
      }
      [s[0]] + rest
  }

  /** `s` reordered most recent first by `key` (an insertion sort). */
  function SortDesc<T>(s: seq<T>, key: T -> Option<Time>): (r: seq<T>)
    ensures multiset(r) == multiset(s)
    ensures SortedDesc(r, key)
  {
    if s == [] then []
    else
      assert s == [s[0]] + s[1..];
      Insert(s[0], SortDesc(s[1..], key), key)
  }

  /** A sorted query result holds exactly the matching elements. */
  lemma SortedFilterMembers<T(!new)>(s: seq<T>, p: T -> bool, key: T -> Option<Time>, x: T)
    ensures x in SortDesc(Filter(s, p), key) <==> x in s && p(x)
  {
    var f := Filter(s, p);
    assert x in SortDesc(f, key) <==> x in multiset(SortDesc(f, key));
    assert x in f <==> x in multiset(f);
  }
}
