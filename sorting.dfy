/** Ordering by an integer key, newest (largest) first. The repository sorts
    with library routines (Go's `sort.Slice`, JavaScript's `Array.prototype.sort`);
    this module gives one concrete sort and the facts every caller relies on. */
module Sorting {

  function Min(a: int, b: int): int { if a <= b then a else b }

  /** Non-increasing by `key`. */
  predicate SortedDesc<T>(s: seq<T>, key: T -> int) {
    forall i, j :: 0 <= i < j < |s| ==> key(s[i]) >= key(s[j])
  }

  /** No element occurs twice. */
  predicate Distinct<T(==)>(s: seq<T>) {
    forall i, j :: 0 <= i < j < |s| ==> s[i] != s[j]
  }

  /** Puts `x` in front of the first element whose key is not larger than its own. */
  function Insert<T>(x: T, s: seq<T>, key: T -> int): (r: seq<T>)
    requires SortedDesc(s, key)
    ensures SortedDesc(r, key)
    ensures multiset(r) == multiset(s) + multiset{x}
    decreases |s|
  {
    if s == [] || key(x) >= key(s[0]) then
      InsertFront(x, s, key);
      [x] + s
    else
      SortedTail(s, key);
      var rest := Insert(x, s[1..], key);
      InsertBehind(x, s, rest, key);
      [s[0]] + rest
  }

  /** An element no smaller than the head goes in front. */
  lemma InsertFront<T>(x: T, s: seq<T>, key: T -> int)
    requires SortedDesc(s, key) && (s == [] || key(x) >= key(s[0]))
    ensures SortedDesc([x] + s, key) && multiset([x] + s) == multiset(s) + multiset{x}
  {
    ConsSorted(x, s, key);
  }

  /** An element smaller than the head goes into the tail, behind the head. */
  lemma InsertBehind<T>(x: T, s: seq<T>, rest: seq<T>, key: T -> int)
    requires SortedDesc(s, key) && s != [] && key(x) < key(s[0])
    requires SortedDesc(rest, key) && multiset(rest) == multiset(s[1..]) + multiset{x}
    ensures SortedDesc([s[0]] + rest, key) && multiset([s[0]] + rest) == multiset(s) + multiset{x}
  {
    var tail := s[1..];
    assert s == [s[0]] + tail;
    BoundedByHead(s[0], x, tail, rest, key);
    ConsSorted(s[0], rest, key);
  }

  /** Dropping the head keeps a sequence sorted. */
  lemma SortedTail<T>(s: seq<T>, key: T -> int)
    requires SortedDesc(s, key) && s != []
    ensures SortedDesc(s[1..], key)
  {
    forall i, j | 0 <= i < j < |s| - 1 ensures key(s[1..][i]) >= key(s[1..][j]) {
      assert s[1..][i] == s[i + 1] && s[1..][j] == s[j + 1];
    }
  }

  /** A head bounding every element of a sorted sequence keeps it sorted. */
  lemma ConsSorted<T>(y: T, t: seq<T>, key: T -> int)
    requires SortedDesc(t, key)
    requires forall k :: 0 <= k < |t| ==> key(y) >= key(t[k])
    ensures SortedDesc([y] + t, key)
  {
    var r := [y] + t;
    forall i, j | 0 <= i < j < |r| ensures key(r[i]) >= key(r[j]) {
      assert r[j] == t[j - 1];
      if i > 0 {
        assert r[i] == t[i - 1];
      }
    }
  }

  /** An upper bound of `x` and of every element of `s` bounds every element of a rearrangement of both. */
  lemma BoundedByHead<T>(y: T, x: T, s: seq<T>, rest: seq<T>, key: T -> int)
    requires multiset(rest) == multiset(s) + multiset{x}
    requires key(y) >= key(x)
    requires forall k :: 0 <= k < |s| ==> key(y) >= key(s[k])
    ensures forall k :: 0 <= k < |rest| ==> key(y) >= key(rest[k])
  {
    forall k | 0 <= k < |rest| ensures key(y) >= key(rest[k]) {
      assert rest[k] in multiset(rest);
      if rest[k] != x {
        assert rest[k] in multiset(s);
        var m :| 0 <= m < |s| && s[m] == rest[k];
      }
    }
  }

  /** Insertion sort; elements with equal keys keep their input order. */
  function SortDesc<T>(s: seq<T>, key: T -> int): (r: seq<T>)
    ensures SortedDesc(r, key)
    ensures multiset(r) == multiset(s)
    decreases |s|
  {
    if s == [] then []
    else
      assert s == [s[0]] + s[1..];
      Insert(s[0], SortDesc(s[1..], key), key)
  }

  /** The first `n` elements, or all of them when there are fewer (Go's `s[:n]` behind a length guard). */
  function Take<T>(s: seq<T>, n: nat): (r: seq<T>)
    ensures |r| == Min(n, |s|)
    ensures forall k :: 0 <= k < |r| ==> r[k] == s[k]
  {
    if |s| <= n then s else s[..n]
  }

  /** `r` is what "sort newest first, then keep `limit`" may return for `c`,
      whatever the order among equal keys. */
  ghost predicate IsTopCut<T>(c: seq<T>, r: seq<T>, limit: nat, key: T -> int) {
    && |r| == Min(limit, |c|)
    && SortedDesc(r, key)
    && multiset(r) <= multiset(c)
    && forall kept, dropped :: kept in r && dropped in multiset(c) - multiset(r) ==> key(kept) >= key(dropped)
  }

  /** In a sorted sequence, everything before a cut is at least everything after it. */
  lemma SortedCutDominates<T>(p: seq<T>, n: nat, key: T -> int)
    requires SortedDesc(p, key) && n <= |p|
    ensures forall kept, dropped :: kept in p[..n] && dropped in p[n..] ==> key(kept) >= key(dropped)
  {
    forall kept, dropped | kept in p[..n] && dropped in p[n..]
      ensures key(kept) >= key(dropped)
    {
      var i :| 0 <= i < n && p[..n][i] == kept;
      var j :| 0 <= j < |p| - n && p[n..][j] == dropped;
      assert p[i] == kept && p[n + j] == dropped;
    }
  }

  /** A split of `c` into a sorted head `r` of the right length and a rest `d`
      that the head dominates is a top cut. */
  lemma TopCutOfSplit<T>(c: seq<T>, r: seq<T>, d: seq<T>, limit: nat, key: T -> int)
    requires multiset(c) == multiset(r) + multiset(d)
    requires |r| == Min(limit, |c|) && SortedDesc(r, key)
    requires forall kept, dropped :: kept in r && dropped in d ==> key(kept) >= key(dropped)
    ensures IsTopCut(c, r, limit, key)
  {
    assert multiset(c) - multiset(r) == multiset(d);
    forall kept, dropped | kept in r && dropped in multiset(c) - multiset(r)
      ensures key(kept) >= key(dropped)
    {
      assert dropped in d;
    }
  }

  lemma SortedTakeIsTopCut<T>(c: seq<T>, p: seq<T>, limit: nat, key: T -> int)
    requires SortedDesc(p, key) && multiset(p) == multiset(c)
    ensures IsTopCut(c, Take(p, limit), limit, key)
  {
    assert |p| == |multiset(p)| == |c|;
    var n := Min(limit, |p|);
    var r, d := p[..n], p[n..];
    assert p == r + d;
    assert Take(p, limit) == r;
    SortedCutDominates(p, n, key);
    assert SortedDesc(r, key) by {
      forall i, j | 0 <= i < j < |r| ensures key(r[i]) >= key(r[j]) {
        assert r[i] == p[i] && r[j] == p[j];
      }
    }
    TopCutOfSplit(c, r, d, limit, key);
  }

  /** Sorting and cutting is one admissible result of the merge step. */
  lemma TopCutOfSort<T>(c: seq<T>, limit: nat, key: T -> int)
    ensures IsTopCut(c, Take(SortDesc(c, key), limit), limit, key)
  {
    SortedTakeIsTopCut(c, SortDesc(c, key), limit, key);
  }

  lemma {:induction false} DistinctCount<T>(s: seq<T>, x: T)
    requires Distinct(s)
    ensures multiset(s)[x] <= 1
    decreases |s|
  {
    if s != [] {
      assert s == [s[0]] + s[1..];
      DistinctCount(s[1..], x);
      if s[0] == x {
        assert x !in s[1..];
      }
    }
  }

  /** A rearrangement of a repetition-free sequence is repetition-free. */
  lemma DistinctPermutation<T>(s: seq<T>, r: seq<T>)
    requires Distinct(s) && multiset(r) == multiset(s)
    ensures Distinct(r)
  {
    forall i, j | 0 <= i < j < |r| ensures r[i] != r[j] {
      if r[i] == r[j] {
        var x := r[i];
        assert r == r[..j] + [r[j]] + r[j + 1..];
        assert x in r[..j];
        assert multiset(r)[x] >= 2;
        DistinctCount(s, x);
      }
    }
  }
}
