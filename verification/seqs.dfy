/** Generic sequence operations that model SQL's WHERE, ORDER BY and LIMIT/OFFSET
    over tables held as sequences of rows. */
module Seqs {
  import opened Common

  /** Rows kept by a WHERE predicate, in table order. */
  function Filter<T(!new)>(s: seq<T>, p: T -> bool): (r: seq<T>)
    ensures |r| <= |s|
    ensures forall i :: 0 <= i < |r| ==> p(r[i])
    ensures forall x :: x in r <==> x in s && p(x)
    ensures forall x :: multiset(r)[x] == if p(x) then multiset(s)[x] else 0
  {
    if |s| == 0 then []
    else
      assert s == [s[0]] + s[1..];
      if p(s[0]) then [s[0]] + Filter(s[1..], p) else Filter(s[1..], p)
  }

  /** Filtering keeps relative order: it distributes over concatenation. */
  lemma {:induction false} FilterAppend<T(!new)>(a: seq<T>, b: seq<T>, p: T -> bool)
    ensures Filter(a + b, p) == Filter(a, p) + Filter(b, p)
  {
    if |a| == 0 {
      assert a + b == b;
    } else {
      assert (a + b)[1..] == a[1..] + b;
      FilterAppend(a[1..], b, p);
    }
  }

  /** A filter whose predicate holds everywhere keeps the whole sequence. */
  lemma {:induction false} FilterAll<T(!new)>(s: seq<T>, p: T -> bool)
    requires forall i :: 0 <= i < |s| ==> p(s[i])
    ensures Filter(s, p) == s
  {
    if |s| > 0 {
      FilterAll(s[1..], p);
    }
  }

  /** A filter whose predicate holds nowhere keeps nothing. */
  lemma {:induction false} FilterNone<T(!new)>(s: seq<T>, p: T -> bool)
    requires forall i :: 0 <= i < |s| ==> !p(s[i])
    ensures Filter(s, p) == []
  {
    if |s| > 0 {
      FilterNone(s[1..], p);
    }
  }

  /** A comparator `le` ("may come before") is a total preorder. */
  ghost predicate TotalPreorder<T(!new)>(le: (T, T) -> bool) {
    && (forall a, b :: le(a, b) || le(b, a))
    && (forall a, b, c :: le(a, b) && le(b, c) ==> le(a, c))
  }

  predicate Sorted<T>(s: seq<T>, le: (T, T) -> bool) {
    forall i, j :: 0 <= i < j < |s| ==> le(s[i], s[j])
  }

  /** Every element of a permutation of `b` is in `b`. */
  lemma PermutationMembers<T>(a: seq<T>, b: seq<T>)
    requires multiset(a) == multiset(b)
    ensures forall i :: 0 <= i < |a| ==> a[i] in b
  {
    forall i | 0 <= i < |a|
      ensures a[i] in b
    {
      assert a[i] in multiset(b);
    }
  }

  /** A bound every element of `b` respects is respected by any permutation of `b`. */
  lemma LowerBoundKept<T>(y: T, a: seq<T>, b: seq<T>, le: (T, T) -> bool)
    requires multiset(a) == multiset(b)
    requires forall k :: 0 <= k < |b| ==> le(y, b[k])
    ensures forall k :: 0 <= k < |a| ==> le(y, a[k])
  {
    forall k | 0 <= k < |a|
      ensures le(y, a[k])
    {
      assert a[k] in multiset(b);
      var j :| 0 <= j < |b| && b[j] == a[k];
    }
  }

  /** Inserts `x` before the first element it may precede. */
  function Insert<T(!new)>(x: T, s: seq<T>, le: (T, T) -> bool): (r: seq<T>)
    requires TotalPreorder(le)
    requires Sorted(s, le)
    ensures Sorted(r, le)
    ensures multiset(r) == multiset(s) + multiset{x}
    ensures |r| == |s| + 1
  {
    if |s| == 0 then [x]
    else if le(x, s[0]) then [x] + s
    else
      assert s == [s[0]] + s[1..];
      var rest := Insert(x, s[1..], le);
      var pool := s[1..] + [x];
      assert forall k :: 0 <= k < |pool| ==> le(s[0], pool[k]) by {
        forall k | 0 <= k < |pool|
          ensures le(s[0], pool[k])
        {
          if k < |s| - 1 {
            assert pool[k] == s[k + 1];
          }
        }
      }
      LowerBoundKept(s[0], rest, pool, le);
      [s[0]] + rest
  }

  /** Stable insertion sort: the ORDER BY of a query. */
  function Sort<T(!new)>(s: seq<T>, le: (T, T) -> bool): (r: seq<T>)
    requires TotalPreorder(le)
    ensures Sorted(r, le)
    ensures multiset(r) == multiset(s)
    ensures |r| == |s|
  {
    if |s| == 0 then []
    else
      assert s == [s[0]] + s[1..];
      Insert(s[0], Sort(s[1..], le), le)
  }

  /** In a sorted sequence, what a prefix keeps comes no later than what it leaves out. */
  lemma PrefixPrecedesRest<T>(s: seq<T>, k: nat, le: (T, T) -> bool, x: T, t: T)
    requires Sorted(s, le) && k <= |s|
    requires x in s[..k] && t in s && t !in s[..k]
    ensures le(x, t)
  {
    var i :| 0 <= i < k && s[i] == x;
    var j :| 0 <= j < |s| && s[j] == t;
    assert forall m :: 0 <= m < k ==> s[..k][m] == s[m];
  }

  /** `LIMIT count OFFSET start`. */
  function Window<T>(s: seq<T>, start: nat, count: nat): (r: seq<T>)
    ensures |r| == if start >= |s| then 0 else Min(count, |s| - start)
    ensures forall i :: 0 <= i < |r| ==> r[i] == s[start + i]
  {
    if start >= |s| then [] else s[start..Min(start + count, |s|)]
  }

  /** A window of a sorted sequence is sorted. */
  lemma WindowSorted<T>(s: seq<T>, start: nat, count: nat, le: (T, T) -> bool)
    requires Sorted(s, le)
    ensures Sorted(Window(s, start, count), le)
  {
    var w := Window(s, start, count);
    forall i, j | 0 <= i < j < |w|
      ensures le(w[i], w[j])
    {
      assert w[i] == s[start + i] && w[j] == s[start + j];
    }
  }

  /** The rows before page `k`, counting pages from 1. */
  function PageStart(k: nat, size: nat): (r: nat) {
    if k == 0 then 0 else k * size - size
  }

  /** The first `n` pages of `size` rows each, concatenated. */
  ghost function Pages<T>(s: seq<T>, size: nat, n: nat): seq<T> {
    if n == 0 then [] else Pages(s, size, n - 1) + Window(s, PageStart(n, size), size)
  }

  /** `f` applied to every element, in order. */
  function Map<T, U>(s: seq<T>, f: T -> U): (r: seq<U>)
    ensures |r| == |s|
    ensures forall i :: 0 <= i < |s| ==> r[i] == f(s[i])
  {
    seq(|s|, i requires 0 <= i < |s| => f(s[i]))
  }

  lemma MapAppend<T, U>(a: seq<T>, b: seq<T>, f: T -> U)
    ensures Map(a + b, f) == Map(a, f) + Map(b, f)
  {
    assert forall i :: 0 <= i < |a + b| ==> (a + b)[i] == if i < |a| then a[i] else b[i - |a|];
  }

  /** Pieces 1..n of `g`, concatenated in order. */
  ghost function Concat<U>(g: nat -> seq<U>, n: nat): seq<U> {
    if n == 0 then [] else Concat(g, n - 1) + g(n)
  }

  /** When piece `k` is page `k` mapped through `f`, the first `n` pieces are the
      first `n` pages, mapped. */
  lemma {:induction false} ConcatOfPages<T, U>(g: nat -> seq<U>, s: seq<T>, size: nat, f: T -> U, n: nat)
    requires forall k :: 1 <= k <= n ==> g(k) == Map(Window(s, PageStart(k, size), size), f)
    ensures Concat(g, n) == Map(Pages(s, size, n), f)
  {
    if n > 0 {
      ConcatOfPages(g, s, size, f, n - 1);
      MapAppend(Pages(s, size, n - 1), Window(s, PageStart(n, size), size), f);
    }
  }

  /** When piece `k` is page `k`, the first `n` pieces are the first `n` pages. */
  lemma {:induction false} ConcatOfWindows<T>(g: nat -> seq<T>, s: seq<T>, size: nat, n: nat)
    requires forall k :: 1 <= k <= n ==> g(k) == Window(s, PageStart(k, size), size)
    ensures Concat(g, n) == Pages(s, size, n)
  {
    if n > 0 {
      ConcatOfWindows(g, s, size, n - 1);
    }
  }

  /** Consecutive pages tile the sequence: no row is skipped or repeated. */
  lemma {:induction false} PagesArePrefix<T>(s: seq<T>, size: nat, n: nat)
    requires size > 0
    ensures Pages(s, size, n) == s[..Min(n * size, |s|)]
  {
    if n > 0 {
      var lo := PageStart(n, size);
      var hi := n * size;
      assert hi == lo + size;
      var prefix := s[..Min(lo, |s|)];
      var w := Window(s, lo, size);
      assert Pages(s, size, n - 1) == prefix by {
        PagesArePrefix(s, size, n - 1);
        assert (n - 1) * size == lo;
      }
      assert prefix + w == s[..Min(hi, |s|)] by {
        if lo < |s| {
          assert w == s[lo..Min(hi, |s|)];
          assert s[..Min(hi, |s|)] == s[..lo] + s[lo..Min(hi, |s|)];
        }
      }
    }
  }

  /** Any number of pages holding every row covers the whole sequence. */
  lemma PagesCoverFrom<T>(s: seq<T>, size: nat, n: nat)
    requires size > 0 && n * size >= |s|
    ensures Pages(s, size, n) == s
  {
    PagesArePrefix(s, size, n);
  }

  /** Enough pages to hold every row cover the whole sequence. */
  lemma PagesCoverAll<T>(s: seq<T>, size: nat)
    requires size > 0
    ensures Pages(s, size, CeilDiv(|s|, size)) == s
  {
    PagesArePrefix(s, size, CeilDiv(|s|, size));
  }
}
