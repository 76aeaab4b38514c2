/**
 * The collection pipeline the store's queries are made of: filtering a
 * collection by a predicate, sorting it by a numeric key in one direction,
 * and the `skip`/`limit` window a cursor applies after sorting.
 */
module Sequences {

  /** A sort direction: `1` (ascending) or `-1` (descending) in a sort object. */
  datatype Direction = Ascending | Descending

  predicate InOrder(a: int, b: int, dir: Direction) {
    match dir
    case Ascending => a <= b
    case Descending => a >= b
  }

  function Min(a: int, b: int): int { if a <= b then a else b }

  function Max(a: int, b: int): int { if a <= b then b else a }

  // ---------------------------------------------------------------- filter

  /** The elements of `s` that satisfy `p`, in their original order. */
  function Filter<T(!new)>(s: seq<T>, p: T -> bool): (r: seq<T>)
    ensures |r| <= |s|
    ensures forall x :: x in r <==> x in s && p(x)
  {
    if s == [] then []
    else
      assert s == [s[0]] + s[1..];
      if p(s[0]) then [s[0]] + Filter(s[1..], p) else Filter(s[1..], p)
  }

  /** Filtering distributes over concatenation, so it never reorders what it keeps. */
  lemma {:induction false} FilterAppend<T(!new)>(a: seq<T>, b: seq<T>, p: T -> bool)
    ensures Filter(a + b, p) == Filter(a, p) + Filter(b, p)
  {
    if a == [] {
      assert a + b == b;
    } else {
      assert (a + b)[1..] == a[1..] + b;
      FilterAppend(a[1..], b, p);
    }
  }

  /** A filter that every element passes leaves the sequence as it was. */
  lemma {:induction false} FilterKeepsAll<T(!new)>(s: seq<T>, p: T -> bool)
    requires forall x :: x in s ==> p(x)
    ensures Filter(s, p) == s
  {
    if s != [] {
      assert s[0] in s;
      assert forall x :: x in s[1..] ==> x in s;
      FilterKeepsAll(s[1..], p);
    }
  }

  /** A filter that no element passes leaves nothing. */
  lemma {:induction false} FilterKeepsNone<T(!new)>(s: seq<T>, p: T -> bool)
    requires forall x :: x in s ==> !p(x)
    ensures Filter(s, p) == []
  {
    if s != [] {
      assert s[0] in s;
      assert forall x :: x in s[1..] ==> x in s;
      FilterKeepsNone(s[1..], p);
    }
  }

  /** Filtering by `p` and by its complement `q` splits the sequence's length. */
  lemma {:induction false} FilterSplitsLength<T(!new)>(s: seq<T>, p: T -> bool, q: T -> bool)
    requires forall x :: q(x) == !p(x)
    ensures |Filter(s, p)| + |Filter(s, q)| == |s|
  {
    if s != [] {
      FilterSplitsLength(s[1..], p, q);
    }
  }

  /** Filtering twice is filtering once by the conjunction of the two predicates. */
  lemma {:induction false} FilterTwice<T(!new)>(s: seq<T>, p: T -> bool, q: T -> bool, both: T -> bool)
    requires forall x :: both(x) == (p(x) && q(x))
    ensures Filter(Filter(s, p), q) == Filter(s, both)
  {
    if s != [] {
      FilterTwice(s[1..], p, q, both);
    }
  }

  predicate NoDuplicates<T(==)>(s: seq<T>) {
    forall i, j :: 0 <= i < j < |s| ==> s[i] != s[j]
  }

  /** Appending a new element to a sequence without repetitions creates none. */
  lemma NoDuplicatesAppend<T>(s: seq<T>, x: T)
    requires NoDuplicates(s) && x !in s
    ensures NoDuplicates(s + [x])
  {
    var t := s + [x];
    forall i, j | 0 <= i < j < |t| ensures t[i] != t[j] {
      assert t[i] == s[i];
      if j == |s| { assert s[i] in s; } else { assert t[j] == s[j]; }
    }
  }

  /** Filtering a sequence without repetitions cannot create one. */
  lemma {:induction false} FilterKeepsNoDuplicates<T(!new)>(s: seq<T>, p: T -> bool)
    requires NoDuplicates(s)
    ensures NoDuplicates(Filter(s, p))
  {
    if s != [] {
      assert NoDuplicates(s[1..]) by {
        forall i, j | 0 <= i < j < |s[1..]| ensures s[1..][i] != s[1..][j] {
          assert s[1..][i] == s[i + 1] && s[1..][j] == s[j + 1];
        }
      }
      FilterKeepsNoDuplicates(s[1..], p);
      var rest := Filter(s[1..], p);
      if p(s[0]) {
        forall k | 0 <= k < |s[1..]| ensures s[1..][k] != s[0] {
          assert s[1..][k] == s[k + 1];
        }
        assert s[0] !in rest;
        var r := [s[0]] + rest;
        forall i, j | 0 <= i < j < |r| ensures r[i] != r[j] {
          if i == 0 {
            assert r[j] == rest[j - 1];
            assert r[j] in rest;
          } else {
            assert r[i] == rest[i - 1] && r[j] == rest[j - 1];
          }
        }
      }
    }
  }

  /** No two elements of `s` share a key. */
  predicate DistinctBy<T, K(==)>(s: seq<T>, key: T -> K) {
    forall i, j :: 0 <= i < j < |s| ==> key(s[i]) != key(s[j])
  }

  /** Removing elements never makes two remaining ones share a key. */
  lemma {:induction false} FilterKeepsDistinctBy<T(!new), K>(s: seq<T>, p: T -> bool, key: T -> K)
    requires DistinctBy(s, key)
    ensures DistinctBy(Filter(s, p), key)
  {
    if s != [] {
      assert DistinctBy(s[1..], key) by {
        forall i, j | 0 <= i < j < |s[1..]| ensures key(s[1..][i]) != key(s[1..][j]) {
          assert s[1..][i] == s[i + 1] && s[1..][j] == s[j + 1];
        }
      }
      FilterKeepsDistinctBy(s[1..], p, key);
      var rest := Filter(s[1..], p);
      if p(s[0]) {
        forall x | x in rest ensures key(x) != key(s[0]) {
          var k :| 0 <= k < |s[1..]| && s[1..][k] == x;
          assert s[k + 1] == x;
        }
        var r := [s[0]] + rest;
        forall i, j | 0 <= i < j < |r| ensures key(r[i]) != key(r[j]) {
          assert r[j] == rest[j - 1] && r[j] in rest;
          if i > 0 { assert r[i] == rest[i - 1]; }
        }
      }
    }
  }

  /** An element that sits at two positions occurs at least twice. */
  lemma TwoPositions<T>(s: seq<T>, i: nat, j: nat)
    requires i < j < |s| && s[i] == s[j]
    ensures multiset(s)[s[i]] >= 2
  {
    assert s == s[..j] + [s[j]] + s[j + 1..];
    assert s[..j][i] == s[i];
    assert s[i] in multiset(s[..j]);
  }

  /** In a sequence without repetitions every element occurs at most once. */
  lemma {:induction false} NoDuplicatesCount<T>(s: seq<T>, x: T)
    requires NoDuplicates(s)
    ensures multiset(s)[x] <= 1
  {
    if s != [] {
      assert s == [s[0]] + s[1..];
      assert NoDuplicates(s[1..]) by {
        forall i, j | 0 <= i < j < |s[1..]| ensures s[1..][i] != s[1..][j] {
          assert s[1..][i] == s[i + 1] && s[1..][j] == s[j + 1];
        }
      }
      NoDuplicatesCount(s[1..], x);
      if x == s[0] {
        forall k | 0 <= k < |s[1..]| ensures s[1..][k] != x {
          assert s[1..][k] == s[k + 1];
        }
        assert x !in multiset(s[1..]);
      }
    }
  }

  /** A permutation of a sequence without repetitions has none either. */
  lemma PermutationKeepsNoDuplicates<T>(a: seq<T>, b: seq<T>)
    requires NoDuplicates(a) && multiset(a) == multiset(b)
    ensures NoDuplicates(b)
  {
    forall i, j | 0 <= i < j < |b| ensures b[i] != b[j] {
      if b[i] == b[j] {
        TwoPositions(b, i, j);
        NoDuplicatesCount(a, b[i]);
      }
    }
  }

  /** Without repetitions, the part before position `n` and the part after share no element. */
  lemma SplitDisjoint<T>(s: seq<T>, n: nat)
    requires NoDuplicates(s) && n <= |s|
    ensures forall x :: x in s[..n] ==> x !in s[n..]
  {
    forall x | x in s[..n] ensures x !in s[n..] {
      var i :| 0 <= i < n && s[..n][i] == x;
      forall j | 0 <= j < |s| - n ensures s[n..][j] != x {
        assert s[n..][j] == s[n + j] && s[i] == x;
      }
    }
  }

  // ------------------------------------------------------------------ sort

  /** `s` is ordered by `key` in direction `dir`, pairwise. */
  predicate SortedBy<T>(s: seq<T>, key: T -> int, dir: Direction) {
    forall i, j :: 0 <= i < j < |s| ==> InOrder(key(s[i]), key(s[j]), dir)
  }

  /**
   * Inserts `x` in front of the first element of `t` that it may precede;
   * an element already in `t` with an equal key stays after `x`.
   */
  function InsertSorted<T>(x: T, t: seq<T>, key: T -> int, dir: Direction): (r: seq<T>)
    ensures multiset(r) == multiset(t) + multiset{x}
  {
    if t == [] || InOrder(key(x), key(t[0]), dir) then [x] + t
    else
      assert t == [t[0]] + t[1..];
      [t[0]] + InsertSorted(x, t[1..], key, dir)
  }

  /** Dropping the first element of a sorted sequence keeps it sorted. */
  lemma SortedTail<T>(t: seq<T>, key: T -> int, dir: Direction)
    requires t != [] && SortedBy(t, key, dir)
    ensures SortedBy(t[1..], key, dir)
  {
    var tail := t[1..];
    forall i, j | 0 <= i < j < |tail| ensures InOrder(key(tail[i]), key(tail[j]), dir) {
      assert tail[i] == t[i + 1] && tail[j] == t[j + 1];
    }
  }

  /** Putting in front of a sorted sequence an element that may precede all of it keeps it sorted. */
  lemma SortedCons<T>(h: T, rest: seq<T>, key: T -> int, dir: Direction)
    requires SortedBy(rest, key, dir)
    requires forall y :: y in rest ==> InOrder(key(h), key(y), dir)
    ensures SortedBy([h] + rest, key, dir)
  {
    var r := [h] + rest;
    forall i, j | 0 <= i < j < |r| ensures InOrder(key(r[i]), key(r[j]), dir) {
      assert r[j] == rest[j - 1];
      if i == 0 {
        assert rest[j - 1] in rest;
      } else {
        assert r[i] == rest[i - 1];
      }
    }
  }

  lemma {:induction false} InsertSortedKeepsOrder<T>(x: T, t: seq<T>, key: T -> int, dir: Direction)
    requires SortedBy(t, key, dir)
    ensures SortedBy(InsertSorted(x, t, key, dir), key, dir)
  {
    if t == [] || InOrder(key(x), key(t[0]), dir) {
      forall y | y in t ensures InOrder(key(x), key(y), dir) {
        var k :| 0 <= k < |t| && t[k] == y;
        if k > 0 { assert InOrder(key(t[0]), key(t[k]), dir); }
      }
      SortedCons(x, t, key, dir);
    } else {
      var tail := t[1..];
      SortedTail(t, key, dir);
      InsertSortedKeepsOrder(x, tail, key, dir);
      var rest := InsertSorted(x, tail, key, dir);
      forall y | y in rest ensures InOrder(key(t[0]), key(y), dir) {
        assert y in multiset(rest);
        if y != x {
          assert y in multiset(tail);
          var k :| 0 <= k < |tail| && tail[k] == y;
          assert t[k + 1] == y;
        }
      }
      SortedCons(t[0], rest, key, dir);
    }
  }

  /** A stable insertion sort of `s` by `key` in direction `dir`. */
  function SortBy<T>(s: seq<T>, key: T -> int, dir: Direction): (r: seq<T>)
    ensures multiset(r) == multiset(s)
    ensures |r| == |s|
    ensures SortedBy(r, key, dir)
  {
    if s == [] then []
    else
      assert s == [s[0]] + s[1..];
      var rest := SortBy(s[1..], key, dir);
      InsertSortedKeepsOrder(s[0], rest, key, dir);
      InsertSorted(s[0], rest, key, dir)
  }

  /** The first element of a sorted, non-empty permutation is an extreme of the whole collection. */
  lemma SortedHeadIsExtreme<T(!new)>(s: seq<T>, key: T -> int, dir: Direction)
    requires s != []
    ensures SortBy(s, key, dir)[0] in s
    ensures forall x :: x in s ==> InOrder(key(SortBy(s, key, dir)[0]), key(x), dir)
  {
    var t := SortBy(s, key, dir);
    assert t[0] in multiset(t);
    forall x | x in s ensures InOrder(key(t[0]), key(x), dir) {
      assert x in multiset(s);
      var k :| 0 <= k < |t| && t[k] == x;
    }
  }

  // ----------------------------------------------------------- skip / limit

  /** Resolves a `slice` argument against length `n`: negative values count from the end. */
  function SliceIndex(x: int, n: nat): (k: nat)
    ensures k <= n
    ensures 0 <= x ==> k == Min(x, n)
  {
    if x < 0 then Max(n + x, 0) else Min(x, n)
  }

  /** The segment from `start` to `end`, with JavaScript's slicing rules for negative and out-of-range bounds. */
  function Slice<T(!new)>(s: seq<T>, start: int, end: int): (r: seq<T>)
    ensures |r| <= |s|
    ensures forall x :: x in r ==> x in s
  {
    var a, b := SliceIndex(start, |s|), SliceIndex(end, |s|);
    if a < b then s[a..b] else []
  }

  /**
   * The window a cursor keeps after sorting: `limit` 0 means no limit,
   * otherwise the segment from `skip` to `skip + limit`.
   */
  function Page<T(!new)>(s: seq<T>, skip: int, limit: int): (r: seq<T>)
    ensures |r| <= |s|
    ensures forall x :: x in r ==> x in s
    ensures 0 <= skip && 0 < limit ==> |r| == Max(0, Min(limit, |s| - skip))
    ensures 0 <= skip && 0 < limit ==> forall i :: 0 <= i < |r| ==> r[i] == s[skip + i]
    ensures limit == 0 && skip == 0 ==> r == s
  {
    var lim := if limit == 0 then |s| else limit;
    Slice(s, skip, skip + lim)
  }

  /** A page of a sorted sequence is sorted. */
  lemma PageKeepsOrder<T(!new)>(s: seq<T>, skip: int, limit: int, key: T -> int, dir: Direction)
    requires SortedBy(s, key, dir)
    ensures SortedBy(Page(s, skip, limit), key, dir)
  {
    var lim := if limit == 0 then |s| else limit;
    var a, b := SliceIndex(skip, |s|), SliceIndex(skip + lim, |s|);
    if a < b {
      var r := s[a..b];
      forall i, j | 0 <= i < j < |r| ensures InOrder(key(r[i]), key(r[j]), dir) {
        assert r[i] == s[a + i] && r[j] == s[a + j];
      }
    }
  }

  /** A page that starts inside the sequence is the segment between its first and last position. */
  lemma PageIsSegment<T(!new)>(s: seq<T>, skip: nat, size: nat)
    requires 0 < size
    ensures Page(s, skip, size) == s[Min(skip, |s|)..Min(skip + size, |s|)]
  {
    var p, lo, hi := Page(s, skip, size), Min(skip, |s|), Min(skip + size, |s|);
    assert |p| == hi - lo;
    forall i | 0 <= i < |p| ensures p[i] == s[lo..hi][i] {
      assert p[i] == s[skip + i];
    }
  }

  /** Pages `0 .. n-1` of size `size`, one after the other. */
  function FirstPages<T(!new)>(s: seq<T>, n: nat, size: nat): seq<T> {
    if n == 0 then [] else FirstPages(s, n - 1, size) + Page(s, (n - 1) * size, size)
  }

  /** A run of pages that starts empty and grows by the next page at each step is the run of first pages. */
  lemma {:induction false} FirstPagesByStep<T(!new)>(run: nat -> seq<T>, s: seq<T>, n: nat, size: nat)
    requires run(0) == []
    requires forall k: nat :: 0 < k <= n ==> run(k) == run(k - 1) + Page(s, (k - 1) * size, size)
    ensures run(n) == FirstPages(s, n, size)
  {
    if n > 0 {
      FirstPagesByStep(run, s, n - 1, size);
    }
  }

  lemma MulStep(n: nat, size: nat)
    requires 0 < n
    ensures n * size == (n - 1) * size + size
  {
  }

  /**
   * Consecutive pages of a fixed size neither overlap nor leave gaps: the
   * first `n` of them are exactly the first `n * size` elements.
   */
  lemma {:induction false} FirstPagesArePrefix<T(!new)>(s: seq<T>, n: nat, size: nat)
    requires 0 < size
    ensures FirstPages(s, n, size) == s[..Min(n * size, |s|)]
  {
    if n > 0 {
      var skip: nat := (n - 1) * size;
      MulStep(n, size);
      var lo, hi := Min(skip, |s|), Min(skip + size, |s|);
      FirstPagesArePrefix(s, n - 1, size);
      PageIsSegment(s, skip, size);
      assert FirstPages(s, n, size) == s[..lo] + s[lo..hi];
      assert s[..lo] + s[lo..hi] == s[..hi];
    }
  }
}
