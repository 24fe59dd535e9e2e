/**
 * Sequence algorithms the Python code gets from its standard library:
 * slicing with negative bounds, `next(x for x in s if p(x))`, list
 * comprehensions with a filter, first-occurrence de-duplication
 * (`seen` sets, `drop_duplicates`) and the stable `list.sort`.
 */
module Seqs {
  import opened Wrappers

  // ---------------------------------------------------------------- slicing

  /** Python's clamping of a slice bound `n` against a sequence of length `len`. */
  function SliceBound(n: int, len: nat): (r: nat)
    ensures r <= len
    ensures 0 <= n <= len ==> r == n
    ensures n > len ==> r == len
    ensures n < 0 ==> r == if len + n < 0 then 0 else len + n
  {
    if n < 0 then (if len + n < 0 then 0 else len + n)
    else if n > len then len
    else n
  }

  /** Python's `s[lo:hi]`. */
  function PySlice<T>(s: seq<T>, lo: int, hi: int): (r: seq<T>)
    ensures |r| <= |s|
  {
    var a := SliceBound(lo, |s|);
    var b := SliceBound(hi, |s|);
    if a <= b then s[a..b] else []
  }

  /** Python's `s[:n]` is a prefix of `s`; for `n >= 0` it has min(n, |s|) elements,
      for a negative `n` it drops the last -n elements. */
  lemma {:induction false} PyPrefix<T>(s: seq<T>, n: int)
    ensures PySlice(s, 0, n) == s[..|PySlice(s, 0, n)|]
    ensures n >= 0 ==> |PySlice(s, 0, n)| == if n < |s| then n else |s|
    ensures n < 0 ==> |PySlice(s, 0, n)| == if |s| + n < 0 then 0 else |s| + n
  {
  }

  // ---------------------------------------------------------------- search

  /** Index of the first element satisfying `p`, as a Python loop with an early return finds it. */
  function FirstWhere<T>(s: seq<T>, p: T -> bool): (r: Option<nat>)
    ensures r.Some? ==> r.value < |s| && p(s[r.value])
    ensures r.Some? ==> forall j :: 0 <= j < r.value ==> !p(s[j])
    ensures r.None? <==> forall j :: 0 <= j < |s| ==> !p(s[j])
  {
    if |s| == 0 then None
    else if p(s[0]) then Some(0)
    else match FirstWhere(s[1..], p)
      case None => None
      case Some(k) => Some(k + 1)
  }

  // ---------------------------------------------------------------- map and filter

  function Map<T, U>(s: seq<T>, f: T -> U): (r: seq<U>)
    ensures |r| == |s|
    ensures forall i :: 0 <= i < |s| ==> r[i] == f(s[i])
  {
    if |s| == 0 then [] else [f(s[0])] + Map(s[1..], f)
  }

  /** `[x for x in s if p(x)]`. */
  function Filter<T(!new)>(s: seq<T>, p: T -> bool): (r: seq<T>)
    ensures |r| <= |s|
  {
    if |s| == 0 then [] else (if p(s[0]) then [s[0]] else []) + Filter(s[1..], p)
  }

  lemma {:induction false} FilterMembers<T(!new)>(s: seq<T>, p: T -> bool)
    ensures forall x :: x in Filter(s, p) <==> x in s && p(x)
  {
    if |s| > 0 {
      FilterMembers(s[1..], p);
      assert s == [s[0]] + s[1..];
    }
  }

  lemma {:induction false} FilterNone<T(!new)>(s: seq<T>, p: T -> bool)
    requires forall x :: x in s ==> !p(x)
    ensures Filter(s, p) == []
  {
    if |s| > 0 {
      assert s[0] in s;
      FilterNone(s[1..], p);
    }
  }

  /** Filtering an image is taking the image of a filter. */
  lemma {:induction false} FilterMap<T(!new), U(!new)>(s: seq<T>, f: T -> U, q: U -> bool, p: T -> bool)
    requires forall x :: p(x) == q(f(x))
    ensures Filter(Map(s, f), q) == Map(Filter(s, p), f)
  {
    if |s| > 0 {
      FilterMap(s[1..], f, q, p);
      assert Map(s, f)[1..] == Map(s[1..], f);
    }
  }

  /** Two filters in a row are one filter by the conjunction. */
  lemma {:induction false} FilterFilter<T(!new)>(s: seq<T>, p: T -> bool, q: T -> bool, pq: T -> bool)
    requires forall x :: pq(x) == (p(x) && q(x))
    ensures Filter(Filter(s, p), q) == Filter(s, pq)
  {
    if |s| > 0 {
      FilterFilter(s[1..], p, q, pq);
      var f1 := Filter(s[1..], p);
      if p(s[0]) {
        assert Filter(s, p) == [s[0]] + f1;
        FilterCons(s[0], f1, q);
      } else {
        assert Filter(s, p) == [] + f1 == f1;
      }
    }
  }

  lemma {:induction false} FilterAppend<T(!new)>(a: seq<T>, b: seq<T>, p: T -> bool)
    ensures Filter(a + b, p) == Filter(a, p) + Filter(b, p)
  {
    if |a| == 0 {
      assert a + b == b;
    } else {
      var h := if p(a[0]) then [a[0]] else [];
      assert (a + b)[0] == a[0];
      assert (a + b)[1..] == a[1..] + b;
      FilterAppend(a[1..], b, p);
      calc {
        Filter(a + b, p);
        h + Filter(a[1..] + b, p);
        h + (Filter(a[1..], p) + Filter(b, p));
        (h + Filter(a[1..], p)) + Filter(b, p);
        Filter(a, p) + Filter(b, p);
      }
    }
  }

  /** Number of elements kept plus number dropped is the length. */
  lemma {:induction false} FilterSplitCount<T(!new)>(s: seq<T>, p: T -> bool)
    ensures |Filter(s, p)| + |Filter(s, x => !p(x))| == |s|
  {
    if |s| > 0 {
      FilterSplitCount(s[1..], p);
    }
  }

  // ---------------------------------------------------------------- first-occurrence de-duplication

  lemma {:induction false} MapAppend<T, U>(a: seq<T>, b: seq<T>, f: T -> U)
    ensures Map(a + b, f) == Map(a, f) + Map(b, f)
  {
    assert forall i :: 0 <= i < |a| + |b| ==> Map(a + b, f)[i] == (Map(a, f) + Map(b, f))[i];
  }

  /** `[v for x in s if (v := f(x)) is not None]`: the values `f` produces, in order. */
  function Harvest<T, U>(s: seq<T>, f: T -> Option<U>): (r: seq<U>)
    ensures |r| <= |s|
    decreases |s|
  {
    if |s| == 0 then []
    else
      var e := f(s[|s| - 1]);
      Harvest(s[..|s| - 1], f) + (if e.Some? then [e.value] else [])
  }

  lemma {:induction false} HarvestSnoc<T, U>(s: seq<T>, i: int, f: T -> Option<U>)
    requires 0 <= i < |s|
    ensures Harvest(s[..i + 1], f) == Harvest(s[..i], f) + (if f(s[i]).Some? then [f(s[i]).value] else [])
  {
    assert s[..i + 1][..i] == s[..i];
  }

  /** The elements are read independently and in order. */
  lemma {:induction false} HarvestAppend<T, U>(a: seq<T>, b: seq<T>, f: T -> Option<U>)
    ensures Harvest(a + b, f) == Harvest(a, f) + Harvest(b, f)
    decreases |b|
  {
    if |b| == 0 {
      assert a + b == a;
    } else {
      var ab := a + b;
      var front := b[..|b| - 1];
      assert ab[..|ab| - 1] == a + front;
      assert ab[|ab| - 1] == b[|b| - 1];
      HarvestAppend(a, front, f);
    }
  }

  /** Every collected value is what `f` made of some element. */
  lemma {:induction false} HarvestFrom<T, U>(s: seq<T>, f: T -> Option<U>, v: U)
    requires v in Harvest(s, f)
    ensures exists i :: 0 <= i < |s| && f(s[i]) == Some(v)
    decreases |s|
  {
    var front := s[..|s| - 1];
    if v in Harvest(front, f) {
      HarvestFrom(front, f, v);
      var i :| 0 <= i < |front| && f(front[i]) == Some(v);
      assert front[i] == s[i];
    } else {
      assert f(s[|s| - 1]) == Some(v);
    }
  }

  /** A value is collected exactly when `f` makes it of some element. */
  lemma {:induction false} HarvestMembers<T, U>(s: seq<T>, f: T -> Option<U>, v: U)
    ensures v in Harvest(s, f) <==> exists x :: x in s && f(x) == Some(v)
    decreases |s|
  {
    if |s| > 0 {
      var pre := s[..|s| - 1];
      HarvestMembers(pre, f, v);
      assert s == pre + [s[|s| - 1]];
      if exists x :: x in s && f(x) == Some(v) {
        var x :| x in s && f(x) == Some(v);
        if x != s[|s| - 1] {
          assert x in pre;
        }
      }
    }
  }

  /** `seen, out = set(), []; for x in s: if key(x) not in seen: seen.add(key(x)); out.append(x)`. */
  function DedupeFirst<T(!new), K(==,!new)>(s: seq<T>, key: T -> K): (r: seq<T>)
    ensures |r| <= |s|
    ensures forall i, j :: 0 <= i < j < |r| ==> key(r[i]) != key(r[j])
    decreases |s|
  {
    if |s| == 0 then []
    else
      var pre := s[..|s| - 1];
      var last := s[|s| - 1];
      var d := DedupeFirst(pre, key);
      if key(last) in Map(d, key) then d
      else d + [last]
  }

  /** The dedupe keeps every key and adds no element. */
  lemma {:induction false} DedupeMembers<T(!new), K(!new)>(s: seq<T>, key: T -> K)
    ensures forall k :: k in Map(DedupeFirst(s, key), key) <==> k in Map(s, key)
    ensures forall x :: x in DedupeFirst(s, key) ==> x in s
    decreases |s|
  {
    if |s| > 0 {
      var pre := s[..|s| - 1];
      var last := s[|s| - 1];
      var d := DedupeFirst(pre, key);
      DedupeMembers(pre, key);
      assert s == pre + [last];
      MapAppend(pre, [last], key);
      MapAppend(d, [last], key);
    }
  }

  /** A prefix one longer. */
  lemma {:induction false} PrefixSnoc<T>(s: seq<T>, i: int)
    requires 0 <= i < |s|
    ensures s[..i + 1] == s[..i] + [s[i]]
  {
  }

  /** Two maps over one sequence that differ at one position. */
  lemma {:induction false} MapUpdateAt<T, U>(d: seq<T>, f: T -> U, g: T -> U, j: int, v: U)
    requires 0 <= j < |d| && g(d[j]) == v
    requires forall i :: 0 <= i < |d| && i != j ==> g(d[i]) == f(d[i])
    ensures Map(d, g) == Map(d, f)[j := v]
  {
  }

  /** Two maps over one sequence that agree everywhere. */
  lemma {:induction false} MapSame<T, U>(d: seq<T>, f: T -> U, g: T -> U)
    requires forall i :: 0 <= i < |d| ==> g(d[i]) == f(d[i])
    ensures Map(d, g) == Map(d, f)
  {
  }

  /** One more element: kept iff its key is new. */
  lemma {:induction false} DedupeSnoc<T(!new), K(!new)>(s: seq<T>, x: T, key: T -> K)
    ensures DedupeFirst(s + [x], key) ==
      if key(x) in Map(DedupeFirst(s, key), key) then DedupeFirst(s, key) else DedupeFirst(s, key) + [x]
  {
    var t := s + [x];
    assert t[..|t| - 1] == s && t[|t| - 1] == x;
  }

  /** `i` is the position of the first element of `s` with key `key(s[i])`. */
  ghost predicate IsFirstOccurrence<T, K>(s: seq<T>, key: T -> K, i: int) {
    0 <= i < |s| && forall m :: 0 <= m < i ==> key(s[m]) != key(s[i])
  }

  lemma {:induction false} FirstOccurrencePrefix<T, K>(s: seq<T>, key: T -> K, i: int)
    requires 0 <= i < |s| - 1
    ensures IsFirstOccurrence(s, key, i) <==> IsFirstOccurrence(s[..|s| - 1], key, i)
  {
  }

  /** The last element of `s` is a first occurrence exactly when its key does not occur before it. */
  lemma {:induction false} LastFirstOccurrence<T, K>(s: seq<T>, key: T -> K)
    requires |s| > 0
    ensures IsFirstOccurrence(s, key, |s| - 1) <==> key(s[|s| - 1]) !in Map(s[..|s| - 1], key)
  {
    var pre := s[..|s| - 1];
    if key(s[|s| - 1]) in Map(pre, key) {
      var m :| 0 <= m < |pre| && Map(pre, key)[m] == key(s[|s| - 1]);
      assert key(s[m]) == key(s[|s| - 1]);
    } else {
      forall m | 0 <= m < |pre| ensures key(s[m]) != key(s[|s| - 1]) {
        assert Map(pre, key)[m] == key(s[m]);
      }
    }
  }

  /** The positions in `s` whose elements `DedupeFirst` keeps. */
  ghost function DedupeIndices<T(!new), K(!new)>(s: seq<T>, key: T -> K): (idx: seq<nat>)
    ensures |idx| == |DedupeFirst(s, key)|
    decreases |s|
  {
    if |s| == 0 then []
    else
      var d := DedupeIndices(s[..|s| - 1], key);
      if key(s[|s| - 1]) in Map(DedupeFirst(s[..|s| - 1], key), key) then d else d + [|s| - 1]
  }

  /** The kept positions pick out `DedupeFirst`'s elements. */
  lemma {:induction false} DedupeIndicesPick<T(!new), K(!new)>(s: seq<T>, key: T -> K)
    ensures var idx := DedupeIndices(s, key);
      forall j :: 0 <= j < |idx| ==> idx[j] < |s| && DedupeFirst(s, key)[j] == s[idx[j]]
    decreases |s|
  {
    if |s| > 0 {
      var n := |s| - 1;
      var pre := s[..n];
      var d := DedupeIndices(pre, key);
      var r := DedupeFirst(pre, key);
      var idx := DedupeIndices(s, key);
      var out := DedupeFirst(s, key);
      var seen := key(s[n]) in Map(r, key);
      assert idx == if seen then d else d + [n];
      assert out == if seen then r else r + [s[n]];
      DedupeIndicesPick(pre, key);
      PickExtend(s, d, r, idx, out);
    }
  }

  /** Positions picking `r` out of all but the last element still pick it out of `s`. */
  lemma {:induction false} PickExtend<T>(s: seq<T>, d: seq<nat>, r: seq<T>, idx: seq<nat>, out: seq<T>)
    requires |s| > 0 && |d| == |r|
    requires forall j :: 0 <= j < |d| ==> d[j] < |s| - 1 && r[j] == s[..|s| - 1][d[j]]
    requires (idx == d && out == r) || (idx == d + [|s| - 1] && out == r + [s[|s| - 1]])
    ensures forall j :: 0 <= j < |idx| ==> idx[j] < |s| && out[j] == s[idx[j]]
  {
  }

  /** The kept positions ascend. */
  lemma {:induction false} DedupeIndicesAscend<T(!new), K(!new)>(s: seq<T>, key: T -> K)
    ensures var idx := DedupeIndices(s, key);
      forall j1, j2 :: 0 <= j1 < j2 < |idx| ==> idx[j1] < idx[j2]
    decreases |s|
  {
    if |s| > 0 {
      var pre := s[..|s| - 1];
      DedupeIndicesAscend(pre, key);
      DedupeIndicesPick(pre, key);
    }
  }

  /** The kept positions are exactly the first occurrences. */
  lemma {:induction false} DedupeIndicesFirst<T(!new), K(!new)>(s: seq<T>, key: T -> K)
    ensures var idx := DedupeIndices(s, key);
      && (forall j :: 0 <= j < |idx| ==> IsFirstOccurrence(s, key, idx[j]))
      && (forall i :: IsFirstOccurrence(s, key, i) ==> i in idx)
    decreases |s|
  {
    if |s| > 0 {
      var n := |s| - 1;
      var pre := s[..n];
      var d := DedupeIndices(pre, key);
      var idx := DedupeIndices(s, key);
      assert (idx == d && !IsFirstOccurrence(s, key, n)) || (idx == d + [n] && IsFirstOccurrence(s, key, n)) by {
        LastFirstOccurrence(s, key);
        DedupeMembers(pre, key);
        assert key(s[n]) in Map(DedupeFirst(pre, key), key) <==> key(s[n]) in Map(pre, key);
      }
      DedupeIndicesFirst(pre, key);
      DedupeIndicesPick(pre, key);
      FirstsExtend(s, key, d, idx);
      FirstsComplete(s, key, d, idx);
    }
  }

  /** Every first occurrence is listed once the last element is listed when it is one. */
  lemma {:induction false} FirstsComplete<T, K>(s: seq<T>, key: T -> K, d: seq<nat>, idx: seq<nat>)
    requires |s| > 0
    requires forall i :: IsFirstOccurrence(s[..|s| - 1], key, i) ==> i in d
    requires (idx == d && !IsFirstOccurrence(s, key, |s| - 1)) || (idx == d + [|s| - 1] && IsFirstOccurrence(s, key, |s| - 1))
    ensures forall i :: IsFirstOccurrence(s, key, i) ==> i in idx
  {
    forall i | IsFirstOccurrence(s, key, i) ensures i in idx {
      if i < |s| - 1 {
        FirstOccurrencePrefix(s, key, i);
      }
    }
  }

  /** First occurrences in all but the last element stay first occurrences. */
  lemma {:induction false} FirstsExtend<T, K>(s: seq<T>, key: T -> K, d: seq<nat>, idx: seq<nat>)
    requires |s| > 0
    requires forall j :: 0 <= j < |d| ==> d[j] < |s| - 1 && IsFirstOccurrence(s[..|s| - 1], key, d[j])
    requires idx == d || (idx == d + [|s| - 1] && IsFirstOccurrence(s, key, |s| - 1))
    ensures forall j :: 0 <= j < |idx| ==> IsFirstOccurrence(s, key, idx[j])
  {
    forall j | 0 <= j < |d| ensures IsFirstOccurrence(s, key, d[j]) {
      FirstOccurrencePrefix(s, key, d[j]);
    }
  }

  /** `DedupeFirst` keeps exactly the first occurrence of every key, in the order of `s`. */
  lemma {:induction false} DedupeOrder<T(!new), K(!new)>(s: seq<T>, key: T -> K)
    ensures var idx := DedupeIndices(s, key);
      && (forall j :: 0 <= j < |idx| ==> idx[j] < |s| && DedupeFirst(s, key)[j] == s[idx[j]])
      && (forall j :: 0 <= j < |idx| ==> IsFirstOccurrence(s, key, idx[j]))
      && (forall j1, j2 :: 0 <= j1 < j2 < |idx| ==> idx[j1] < idx[j2])
      && (forall i :: IsFirstOccurrence(s, key, i) ==> i in idx)
  {
    DedupeIndicesPick(s, key);
    DedupeIndicesAscend(s, key);
    DedupeIndicesFirst(s, key);
  }

  /** Every first occurrence survives the dedupe. */
  lemma {:induction false} DedupeKeepsFirst<T(!new), K(!new)>(s: seq<T>, key: T -> K)
    ensures forall i :: IsFirstOccurrence(s, key, i) ==> s[i] in DedupeFirst(s, key)
  {
    DedupeOrder(s, key);
    var idx := DedupeIndices(s, key);
    forall i | IsFirstOccurrence(s, key, i) ensures s[i] in DedupeFirst(s, key) {
      var j :| 0 <= j < |idx| && idx[j] == i;
      assert DedupeFirst(s, key)[j] == s[i];
    }
  }

  // ---------------------------------------------------------------- stable sorting

  /** `le(a, b)`: `a` may come before `b`. A total preorder is what Python's `key=` sort sorts by. */
  ghost predicate TotalPreorder<T(!new)>(le: (T, T) -> bool) {
    && (forall a, b :: le(a, b) || le(b, a))
    && (forall a, b, c :: le(a, b) && le(b, c) ==> le(a, c))
  }

  predicate SortedBy<T>(s: seq<T>, le: (T, T) -> bool) {
    forall i, j :: 0 <= i < j < |s| ==> le(s[i], s[j])
  }

  /** Insert `x` before the first element it may precede: an element placed earlier wins ties. */
  function Insert<T>(x: T, s: seq<T>, le: (T, T) -> bool): (r: seq<T>)
    ensures |r| == |s| + 1
    ensures multiset(r) == multiset(s) + multiset{x}
  {
    if |s| == 0 || le(x, s[0]) then [x] + s
    else
      assert s == [s[0]] + s[1..];
      [s[0]] + Insert(x, s[1..], le)
  }

  /** Stable insertion sort: Python's `list.sort(key=...)` (with `reverse=True` when `le` is `>=`). */
  function SortBy<T>(s: seq<T>, le: (T, T) -> bool): (r: seq<T>)
    ensures |r| == |s|
    ensures multiset(r) == multiset(s)
  {
    if |s| == 0 then []
    else
      assert s == [s[0]] + s[1..];
      Insert(s[0], SortBy(s[1..], le), le)
  }

  lemma {:induction false} InsertSorted<T(!new)>(x: T, s: seq<T>, le: (T, T) -> bool)
    requires TotalPreorder(le)
    requires SortedBy(s, le)
    ensures SortedBy(Insert(x, s, le), le)
  {
    if |s| == 0 || le(x, s[0]) {
    } else {
      var t := Insert(x, s[1..], le);
      InsertSorted(x, s[1..], le);
      forall k | 0 <= k < |t| ensures le(s[0], t[k]) {
        assert t[k] in multiset(t);
        assert t[k] == x || t[k] in multiset(s[1..]);
        if t[k] != x {
          var m :| 0 <= m < |s[1..]| && s[1..][m] == t[k];
          assert s[m + 1] == t[k];
        }
      }
      assert Insert(x, s, le) == [s[0]] + t;
    }
  }

  lemma {:induction false} SortBySorted<T(!new)>(s: seq<T>, le: (T, T) -> bool)
    requires TotalPreorder(le)
    ensures SortedBy(SortBy(s, le), le)
  {
    if |s| > 0 {
      SortBySorted(s[1..], le);
      InsertSorted(s[0], SortBy(s[1..], le), le);
    }
  }

  /** The first element of a sorted arrangement precedes every element, the last follows every one. */
  lemma {:induction false} SortByEnds<T(!new)>(s: seq<T>, le: (T, T) -> bool)
    requires TotalPreorder(le) && |s| > 0
    ensures var r := SortBy(s, le);
      && r[0] in s && r[|r| - 1] in s
      && (forall x :: x in s ==> le(r[0], x) && le(x, r[|r| - 1]))
  {
    var r := SortBy(s, le);
    SortBySorted(s, le);
    assert r[0] in multiset(s) && r[|r| - 1] in multiset(s);
    forall x | x in s ensures le(r[0], x) && le(x, r[|r| - 1]) {
      assert x in multiset(r);
      var k :| 0 <= k < |r| && r[k] == x;
      assert k == 0 || le(r[0], r[k]);
      assert k == |r| - 1 || le(r[k], r[|r| - 1]);
    }
  }

  /** The elements of `s` that `le` cannot tell apart from `x`, in their order in `s`. */
  function EquivFilter<T(!new)>(s: seq<T>, x: T, le: (T, T) -> bool): seq<T> {
    Filter(s, y => le(x, y) && le(y, x))
  }

  lemma {:induction false} InsertStable<T(!new)>(a: T, t: seq<T>, x: T, le: (T, T) -> bool)
    requires TotalPreorder(le)
    ensures EquivFilter(Insert(a, t, le), x, le)
         == (if le(x, a) && le(a, x) then [a] else []) + EquivFilter(t, x, le)
  {
    if |t| == 0 || le(a, t[0]) {
      FilterCons(a, t, y => le(x, y) && le(y, x));
    } else {
      var t1 := t[1..];
      var rest := Insert(a, t1, le);
      InsertStable(a, t1, x, le);
      assert Insert(a, t, le) == [t[0]] + rest;
      assert t == [t[0]] + t1;
      InsertStablePast(a, t[0], t1, rest, x, le);
    }
  }

  /** `a` is inserted after `u`, which it ranks strictly after, so at most one of them
      ties with `x`. */
  lemma {:induction false} InsertStablePast<T(!new)>(a: T, u: T, t1: seq<T>, rest: seq<T>, x: T, le: (T, T) -> bool)
    requires TotalPreorder(le) && !le(a, u)
    requires EquivFilter(rest, x, le) == (if le(x, a) && le(a, x) then [a] else []) + EquivFilter(t1, x, le)
    ensures EquivFilter([u] + rest, x, le) == (if le(x, a) && le(a, x) then [a] else []) + EquivFilter([u] + t1, x, le)
  {
    var p := y => le(x, y) && le(y, x);
    assert !(p(u) && p(a));
    FilterPastOther(u, a, rest, t1, p);
  }

  /** Filtering past an element `u` that cannot both pass with `v`: `v` may be counted on either side of `u`. */
  lemma {:induction false} FilterPastOther<T(!new)>(u: T, v: T, rest: seq<T>, tail: seq<T>, p: T -> bool)
    requires Filter(rest, p) == (if p(v) then [v] else []) + Filter(tail, p)
    requires !(p(u) && p(v))
    ensures Filter([u] + rest, p) == (if p(v) then [v] else []) + Filter([u] + tail, p)
  {
    FilterCons(u, rest, p);
    FilterCons(u, tail, p);
  }

  /** Stability: among elements `le` ranks equal, the sort keeps the input order. */
  lemma {:induction false} SortByStable<T(!new)>(s: seq<T>, x: T, le: (T, T) -> bool)
    requires TotalPreorder(le)
    ensures EquivFilter(SortBy(s, le), x, le) == EquivFilter(s, x, le)
  {
    if |s| > 0 {
      SortByStable(s[1..], x, le);
      InsertStable(s[0], SortBy(s[1..], le), x, le);
    }
  }

  lemma {:induction false} FilterCons<T(!new)>(a: T, s: seq<T>, p: T -> bool)
    ensures Filter([a] + s, p) == (if p(a) then [a] else []) + Filter(s, p)
  {
    assert ([a] + s)[1..] == s;
  }

  lemma {:induction false} InsertFilter<T(!new)>(x: T, t: seq<T>, le: (T, T) -> bool, p: T -> bool)
    requires TotalPreorder(le)
    requires SortedBy(t, le)
    ensures Filter(Insert(x, t, le), p) == if p(x) then Insert(x, Filter(t, p), le) else Filter(t, p)
  {
    if |t| == 0 {
      FilterCons(x, t, p);
    } else if le(x, t[0]) {
      FilterCons(x, t, p);
      var ft := Filter(t, p);
      if p(x) && |ft| > 0 {
        FilterMembers(t, p);
        assert ft[0] in t;
        var m :| 0 <= m < |t| && t[m] == ft[0];
        assert m == 0 || le(t[0], t[m]);
        assert le(x, ft[0]);
      }
    } else {
      var t1 := t[1..];
      assert t == [t[0]] + t1;
      assert SortedBy(t1, le);
      assert Insert(x, t, le) == [t[0]] + Insert(x, t1, le);
      InsertFilter(x, t1, le, p);
      InsertFilterPast(x, t[0], t1, Insert(x, t1, le), le, p);
    }
  }

  /** Filtering past an element `u` that `x` is inserted after. */
  lemma {:induction false} InsertFilterPast<T(!new)>(x: T, u: T, t1: seq<T>, ins: seq<T>, le: (T, T) -> bool, p: T -> bool)
    requires !le(x, u)
    requires Filter(ins, p) == if p(x) then Insert(x, Filter(t1, p), le) else Filter(t1, p)
    ensures Filter([u] + ins, p) == if p(x) then Insert(x, Filter([u] + t1, p), le) else Filter([u] + t1, p)
  {
    FilterCons(u, ins, p);
    FilterCons(u, t1, p);
    var f1 := Filter(t1, p);
    if !p(u) {
      assert Filter([u] + ins, p) == Filter(ins, p);
      assert Filter([u] + t1, p) == f1;
    } else if p(x) {
      var ft := [u] + f1;
      assert ft[0] == u && ft[1..] == f1;
      assert Insert(x, ft, le) == [u] + Insert(x, f1, le);
    }
  }

  /** A sort leaves a sequence whose elements are all tied as it is. */
  lemma {:induction false} SortByTied<T(!new)>(s: seq<T>, le: (T, T) -> bool)
    requires forall i, j :: 0 <= i < |s| && 0 <= j < |s| ==> le(s[i], s[j])
    ensures SortBy(s, le) == s
  {
    if |s| > 0 {
      SortByTied(s[1..], le);
      assert s == [s[0]] + s[1..];
      if |s| > 1 {
        assert le(s[0], s[1]);
      }
    }
  }

  /** Permuted sequences have permuted images. */
  lemma {:induction false} PermutationMap<T, U>(a: seq<T>, b: seq<T>, f: T -> U)
    requires multiset(a) == multiset(b)
    ensures multiset(Map(a, f)) == multiset(Map(b, f))
  {
    if |a| == 0 {
      assert |multiset(b)| == 0;
    } else {
      assert a[0] in multiset(b);
      var k :| 0 <= k < |b| && b[k] == a[0];
      var rest := b[..k] + b[k + 1..];
      RemoveMatched(a, b, k);
      PermutationMap(a[1..], rest, f);
      PermutationMapStep(a, b, f, k);
    }
  }

  /** Taking the first element of `a` out of both sides of a permutation. */
  lemma {:induction false} RemoveMatched<T>(a: seq<T>, b: seq<T>, k: int)
    requires multiset(a) == multiset(b) && |a| > 0
    requires 0 <= k < |b| && b[k] == a[0]
    ensures multiset(a[1..]) == multiset(b[..k] + b[k + 1..])
  {
    RemoveAtMultiset(b, k);
    assert a == [a[0]] + a[1..];
    assert multiset(a) == multiset{a[0]} + multiset(a[1..]);
    assert multiset(a[1..]) == multiset(a) - multiset{a[0]};
  }

  /** The step of `PermutationMap`: mapping the matched element on both sides. */
  lemma {:induction false} PermutationMapStep<T, U>(a: seq<T>, b: seq<T>, f: T -> U, k: int)
    requires |a| > 0 && 0 <= k < |b| && b[k] == a[0]
    requires multiset(Map(a[1..], f)) == multiset(Map(b[..k] + b[k + 1..], f))
    ensures multiset(Map(a, f)) == multiset(Map(b, f))
  {
    assert multiset(Map(a, f)) == multiset{f(a[0])} + multiset(Map(a[1..], f)) by {
      assert a == [a[0]] + a[1..];
      MapAppend([a[0]], a[1..], f);
    }
    MapRemoveAt(b, k, f);
  }

  /** Taking out the element at `k` takes it out of the multiset. */
  lemma {:induction false} RemoveAtMultiset<T>(b: seq<T>, k: int)
    requires 0 <= k < |b|
    ensures multiset(b) == multiset(b[..k] + b[k + 1..]) + multiset{b[k]}
  {
    assert b == b[..k] + [b[k]] + b[k + 1..];
  }

  /** Mapping commutes with taking out the element at `k`. */
  lemma {:induction false} MapRemoveAt<T, U>(b: seq<T>, k: int, f: T -> U)
    requires 0 <= k < |b|
    ensures multiset(Map(b, f)) == multiset(Map(b[..k] + b[k + 1..], f)) + multiset{f(b[k])}
  {
    var l, x, r := b[..k], b[k], b[k + 1..];
    assert b == l + ([x] + r);
    MapAppend(l, [x] + r, f);
    MapAppend([x], r, f);
    MapAppend(l, r, f);
    assert Map([x], f) == [f(x)];
  }

  /** Sorting then filtering equals filtering then sorting (the sort is stable). */
  lemma {:induction false} SortByFilter<T(!new)>(s: seq<T>, le: (T, T) -> bool, p: T -> bool)
    requires TotalPreorder(le)
    ensures Filter(SortBy(s, le), p) == SortBy(Filter(s, p), le)
  {
    if |s| > 0 {
      var s1 := s[1..];
      var f1 := Filter(s1, p);
      assert s == [s[0]] + s1;
      assert SortBy(s, le) == Insert(s[0], SortBy(s1, le), le);
      SortByFilter(s1, le, p);
      SortBySorted(s1, le);
      InsertFilter(s[0], SortBy(s1, le), le, p);
      FilterCons(s[0], s1, p);
      if p(s[0]) {
        var f := [s[0]] + f1;
        assert Filter(s, p) == f;
        assert f[0] == s[0] && f[1..] == f1;
        assert SortBy(f, le) == Insert(s[0], SortBy(f1, le), le);
        assert Filter(SortBy(s, le), p) == Insert(s[0], SortBy(f1, le), le);
      } else {
        assert Filter(s, p) == f1;
        assert Filter(SortBy(s, le), p) == SortBy(f1, le);
      }
    }
  }

  /** `le` ranks no two distinct elements of `s` equal. */
  ghost predicate NoTies<T>(s: seq<T>, le: (T, T) -> bool) {
    forall i, j :: 0 <= i < |s| && 0 <= j < |s| && le(s[i], s[j]) && le(s[j], s[i]) ==> s[i] == s[j]
  }

  lemma {:induction false} SortedHeads<T>(a: seq<T>, b: seq<T>, le: (T, T) -> bool)
    requires SortedBy(a, le) && SortedBy(b, le) && NoTies(a, le)
    requires multiset(a) == multiset(b) && |a| > 0
    ensures |b| > 0 && a[0] == b[0]
  {
    assert |b| > 0 by { assert |multiset(b)| == |multiset(a)|; }
    assert a[0] in multiset(b) && b[0] in multiset(a);
    var i :| 0 <= i < |b| && b[i] == a[0];
    var j :| 0 <= j < |a| && a[j] == b[0];
    assert i == 0 || le(b[0], a[0]);
    assert j == 0 || le(a[0], b[0]);
  }

  lemma {:induction false} TailMultiset<T>(a: seq<T>, b: seq<T>)
    requires multiset(a) == multiset(b) && |a| > 0 && |b| > 0 && a[0] == b[0]
    ensures multiset(a[1..]) == multiset(b[1..])
  {
    assert a == [a[0]] + a[1..] && b == [b[0]] + b[1..];
    assert multiset(a) == multiset{a[0]} + multiset(a[1..]);
    assert multiset(b) == multiset{b[0]} + multiset(b[1..]);
    assert multiset(a[1..]) == multiset(a) - multiset{a[0]};
    assert multiset(b[1..]) == multiset(b) - multiset{b[0]};
  }

  lemma {:induction false} TailNoTies<T>(a: seq<T>, le: (T, T) -> bool)
    requires NoTies(a, le) && |a| > 0
    ensures NoTies(a[1..], le)
  {
    forall i, j | 0 <= i < |a| - 1 && 0 <= j < |a| - 1
      ensures le(a[1..][i], a[1..][j]) && le(a[1..][j], a[1..][i]) ==> a[1..][i] == a[1..][j]
    {
      assert a[1..][i] == a[i + 1] && a[1..][j] == a[j + 1];
    }
  }

  /** Two sorted arrangements of the same elements agree when `le` ties no two distinct elements:
      any sort, stable or not, then gives the result `SortBy` gives. */
  lemma {:induction false} SortedUnique<T>(a: seq<T>, b: seq<T>, le: (T, T) -> bool)
    requires SortedBy(a, le) && SortedBy(b, le)
    requires multiset(a) == multiset(b)
    requires NoTies(a, le)
    ensures a == b
  {
    if |a| > 0 {
      SortedHeads(a, b, le);
      TailMultiset(a, b);
      TailNoTies(a, le);
      SortedUnique(a[1..], b[1..], le);
      assert a == [a[0]] + a[1..] && b == [b[0]] + b[1..];
    }
  }

  // ---------------------------------------------------------------- duplicates

  predicate NoDup<T(==)>(s: seq<T>) {
    forall i, j :: 0 <= i < j < |s| ==> s[i] != s[j]
  }

  lemma {:induction false} NoDupCount<T>(s: seq<T>, x: T)
    requires NoDup(s)
    ensures multiset(s)[x] <= 1
    decreases |s|
  {
    if |s| > 0 {
      var pre := s[..|s| - 1];
      assert s == pre + [s[|s| - 1]];
      assert NoDup(pre);
      NoDupCount(pre, x);
      if x == s[|s| - 1] {
        assert x !in pre;
      }
    }
  }

  lemma {:induction false} DupCount<T>(s: seq<T>, i: int, j: int)
    requires 0 <= i < j < |s| && s[i] == s[j]
    ensures multiset(s)[s[i]] >= 2
  {
    assert s == s[..j] + s[j..];
    assert s[i] in s[..j] && s[j..][0] == s[i];
    assert multiset(s) == multiset(s[..j]) + multiset(s[j..]);
  }

  /** Rearranging a sequence without repeated elements repeats none. */
  lemma {:induction false} PermutationNoDup<T>(a: seq<T>, b: seq<T>)
    requires multiset(a) == multiset(b) && NoDup(a)
    ensures NoDup(b)
  {
    forall i, j | 0 <= i < j < |b| ensures b[i] != b[j] {
      if b[i] == b[j] {
        DupCount(b, i, j);
        NoDupCount(a, b[i]);
      }
    }
  }

  /** A sequence without repeated elements has as many elements as its set. */
  lemma {:induction false} CardDistinct<T>(s: seq<T>)
    requires NoDup(s)
    ensures |set x | x in s| == |s|
    decreases |s|
  {
    if |s| > 0 {
      var pre := s[..|s| - 1];
      var last := s[|s| - 1];
      assert NoDup(pre);
      CardDistinct(pre);
      assert last !in pre;
      assert (set x | x in s) == (set x | x in pre) + {last};
    }
  }
}
