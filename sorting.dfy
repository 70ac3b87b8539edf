/** List operations the pages and the SQL queries apply to fetched rows:
    filtering by a predicate, counting, finding the first match, and a
    stable sort by an integer key (JavaScript's Array.prototype.sort is
    stable; ORDER BY is modelled by the same sort). */
module Sorting {

  import opened Wrappers

  /** Every element of `s` keeps the key order: keys never decrease. */
  ghost predicate SortedBy<T>(s: seq<T>, key: T -> int) {
    forall i, j :: 0 <= i < j < |s| ==> key(s[i]) <= key(s[j])
  }

  /** Inserts `x` before the first element whose key is not smaller. */
  function Insert<T(==)>(x: T, s: seq<T>, key: T -> int): (r: seq<T>)
    requires SortedBy(s, key)
    ensures SortedBy(r, key)
    ensures multiset(r) == multiset(s) + multiset{x}
    ensures |r| == |s| + 1
    ensures r[0] == x || (s != [] && r[0] == s[0])
  {
    if s == [] then [x]
    else if key(x) <= key(s[0]) then [x] + s
    else
      assert s == [s[0]] + s[1..];
      [s[0]] + Insert(x, s[1..], key)
  }

  /** Stable insertion sort of `s` by ascending `key`. */
  function SortBy<T(==)>(s: seq<T>, key: T -> int): (r: seq<T>)
    ensures SortedBy(r, key)
    ensures multiset(r) == multiset(s)
    ensures |r| == |s|
  {
    if s == [] then []
    else
      assert s == [s[0]] + s[1..];
      Insert(s[0], SortBy(s[1..], key), key)
  }

  /** The elements of `s` that satisfy `p`, in their original order. */
  function Filter<T>(s: seq<T>, p: T -> bool): (r: seq<T>)
    ensures |r| <= |s|
    ensures forall i :: 0 <= i < |r| ==> r[i] in s && p(r[i])
    ensures forall i :: 0 <= i < |s| && p(s[i]) ==> s[i] in r
  {
    if s == [] then []
    else if p(s[0]) then [s[0]] + Filter(s[1..], p)
    else Filter(s[1..], p)
  }

  /** The number of elements of `s` that satisfy `p`. */
  function Count<T>(s: seq<T>, p: T -> bool): (n: nat)
    ensures n <= |s|
  {
    |Filter(s, p)|
  }

  /** The index of the first element of `s` that satisfies `p`. */
  function FirstIndex<T>(s: seq<T>, p: T -> bool): (r: Option<nat>)
    ensures r.Some? ==> r.value < |s| && p(s[r.value])
    ensures r.Some? ==> forall j :: 0 <= j < r.value ==> !p(s[j])
    ensures r.None? <==> forall j :: 0 <= j < |s| ==> !p(s[j])
  {
    if s == [] then None
    else if p(s[0]) then Some(0)
    else match FirstIndex(s[1..], p)
      case None => None
      case Some(i) => Some(i + 1)
  }

  /** Array.prototype.find: the first element of `s` that satisfies `p`. */
  function Find<T>(s: seq<T>, p: T -> bool): (r: Option<T>)
    ensures r.None? <==> forall i :: 0 <= i < |s| ==> !p(s[i])
    ensures r.Some? ==> exists i :: 0 <= i < |s| && s[i] == r.value && p(s[i]) &&
                                    forall j :: 0 <= j < i ==> !p(s[j])
  {
    match FirstIndex(s, p)
    case None => None
    case Some(i) => Some(s[i])
  }

  /** Filtering keeps exactly the satisfying occurrences of every element. */
  lemma {:induction false} FilterMultiset<T>(s: seq<T>, p: T -> bool, x: T)
    ensures multiset(Filter(s, p))[x] == if p(x) then multiset(s)[x] else 0
  {
    if s != [] {
      FilterMultiset(s[1..], p, x);
      assert s == [s[0]] + s[1..];
    }
  }

  /** When every element satisfies exactly one of `p` and `q`, the two
      counts add up to the length. */
  lemma {:induction false} CountSplit<T>(s: seq<T>, p: T -> bool, q: T -> bool)
    requires forall i :: 0 <= i < |s| ==> (p(s[i]) <==> !q(s[i]))
    ensures Count(s, p) + Count(s, q) == |s|
  {
    if s != [] {
      CountSplit(s[1..], p, q);
    }
  }

  /** Counting is invariant under permutation. */
  lemma {:induction false} CountPermutation<T>(s: seq<T>, t: seq<T>, p: T -> bool)
    requires multiset(s) == multiset(t)
    ensures Count(s, p) == Count(t, p)
  {
    if s != [] {
      var x := s[0];
      assert x in multiset(t);
      var i :| 0 <= i < |t| && t[i] == x;
      var t' := t[..i] + t[i+1..];
      assert t == t[..i] + [x] + t[i+1..];
      assert s == [x] + s[1..];
      assert multiset(t) == multiset(t[..i]) + multiset{x} + multiset(t[i+1..]);
      assert multiset(t') == multiset(t[..i]) + multiset(t[i+1..]);
      assert multiset(s) == multiset{x} + multiset(s[1..]);
      assert multiset(s[1..]) == multiset(s) - multiset{x};
      assert multiset(t') == multiset(t) - multiset{x};
      CountPermutation(s[1..], t', p);
      CountRemoveAt(t, i, p);
    }
  }

  /** Removing one element lowers the count by one exactly when it satisfies `p`. */
  lemma {:induction false} CountRemoveAt<T>(t: seq<T>, i: nat, p: T -> bool)
    requires i < |t|
    ensures Count(t, p) == Count(t[..i] + t[i+1..], p) + (if p(t[i]) then 1 else 0)
  {
    if i > 0 {
      assert t[1..][..i-1] + t[1..][i..] == (t[..i] + t[i+1..])[1..];
      CountRemoveAt(t[1..], i - 1, p);
    } else {
      assert t[..i] + t[i+1..] == t[1..];
    }
  }

  /** The first element of a sorted sequence has the least key. */
  lemma SortedHeadIsLeast<T>(s: seq<T>, key: T -> int, x: T)
    requires SortedBy(s, key) && x in s
    ensures key(s[0]) <= key(x)
  {
    var i :| 0 <= i < |s| && s[i] == x;
    if i > 0 { assert key(s[0]) <= key(s[i]); }
  }

  /** A sequence already in key order with strictly increasing keys is its
      own sort. */
  lemma {:induction false} SortByStrictlySorted<T>(s: seq<T>, key: T -> int)
    requires forall i, j :: 0 <= i < j < |s| ==> key(s[i]) < key(s[j])
    ensures SortBy(s, key) == s
  {
    if s != [] {
      SortByStrictlySorted(s[1..], key);
      assert SortBy(s[1..], key) == s[1..];
      if |s| > 1 {
        assert key(s[0]) < key(s[1..][0]);
      }
    }
  }

  /** Counting `q` among the elements kept by `p` counts every `q`
      element when `q` implies `p`. */
  lemma {:induction false} CountWithinFilter<T>(s: seq<T>, p: T -> bool, q: T -> bool)
    requires forall i :: 0 <= i < |s| && q(s[i]) ==> p(s[i])
    ensures Count(Filter(s, p), q) == Count(s, q)
  {
    if s != [] {
      CountWithinFilter(s[1..], p, q);
    }
  }
}
