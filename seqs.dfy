/**
 * Array operations the TypeScript code uses: de-duplication through a `Set`
 * (`[...new Set(xs)]`, `Array.from(set)`) and `slice(0, end)`.
 */
module Seqs {

  predicate Distinct<T(==)>(xs: seq<T>) {
    forall i, j :: 0 <= i < j < |xs| ==> xs[i] != xs[j]
  }

  /** `[...new Set(xs)]`: the first occurrence of every element, in order. */
  function Dedup<T(==)>(xs: seq<T>): (r: seq<T>)
    ensures Distinct(r)
    ensures forall i :: 0 <= i < |xs| ==> xs[i] in r
    ensures forall i :: 0 <= i < |r| ==> r[i] in xs
    ensures |r| <= |xs|
  {
    if |xs| == 0 then []
    else
      var p := Dedup(xs[..|xs| - 1]);
      var z := xs[|xs| - 1];
      if z in p then p else p + [z]
  }

  /** Adding elements to a set never moves the ones already there. */
  lemma {:induction false} DedupPrefix<T>(a: seq<T>, b: seq<T>)
    ensures |Dedup(a)| <= |Dedup(a + b)|
    ensures Dedup(a + b)[..|Dedup(a)|] == Dedup(a)
    decreases |b|
  {
    if |b| == 0 {
      assert a + b == a;
    } else {
      var b' := b[..|b| - 1];
      assert (a + b)[..|a + b| - 1] == a + b';
      DedupPrefix(a, b');
    }
  }

  /** A list without repeats is its own set. */
  lemma {:induction false} DedupOfDistinct<T>(a: seq<T>)
    requires Distinct(a)
    ensures Dedup(a) == a
    decreases |a|
  {
    if |a| > 0 {
      var a' := a[..|a| - 1];
      DedupOfDistinct(a');
      assert a[|a| - 1] !in a';
      assert a' + [a[|a| - 1]] == a;
    }
  }

  /** `xs.filter(keep)`: the elements `keep` accepts, in order, repeats kept. */
  function Filter<T(==,!new)>(xs: seq<T>, keep: T -> bool): (r: seq<T>)
    ensures forall x :: multiset(r)[x] == if keep(x) then multiset(xs)[x] else 0
    ensures |r| <= |xs|
  {
    if |xs| == 0 then []
    else
      var rest := Filter(xs[1..], keep);
      assert xs == [xs[0]] + xs[1..];
      if keep(xs[0]) then [xs[0]] + rest else rest
  }

  /** An element is kept exactly when `keep` accepts it. */
  lemma FilterMembers<T(!new)>(xs: seq<T>, keep: T -> bool)
    ensures var r := Filter(xs, keep);
      (forall k :: 0 <= k < |r| ==> keep(r[k]) && r[k] in xs)
      && (forall k :: 0 <= k < |xs| && keep(xs[k]) ==> xs[k] in r)
  {
    var r := Filter(xs, keep);
    forall k | 0 <= k < |r| ensures keep(r[k]) && r[k] in xs {
      assert r[k] in multiset(r);
    }
    forall k | 0 <= k < |xs| && keep(xs[k]) ensures xs[k] in r {
      assert xs[k] in multiset(xs);
    }
  }

  /** A list whose every element is accepted passes unchanged. */
  lemma {:induction false} FilterAll<T(!new)>(xs: seq<T>, keep: T -> bool)
    requires forall k :: 0 <= k < |xs| ==> keep(xs[k])
    ensures Filter(xs, keep) == xs
    decreases |xs|
  {
    if |xs| > 0 {
      FilterAll(xs[1..], keep);
      assert [xs[0]] + xs[1..] == xs;
    }
  }

  /** The filter works element by element, so it keeps the order of `a + b`. */
  lemma {:induction false} FilterAppend<T(!new)>(a: seq<T>, b: seq<T>, keep: T -> bool)
    ensures Filter(a + b, keep) == Filter(a, keep) + Filter(b, keep)
    decreases |a|
  {
    if |a| == 0 {
      assert a + b == b;
    } else {
      assert (a + b)[1..] == a[1..] + b;
      FilterAppend(a[1..], b, keep);
    }
  }

  /** The end index `xs.slice(0, end)` uses: a negative `end` counts from the back. */
  function SliceEnd(len: nat, end: int): (k: nat)
    ensures k <= len
    ensures 0 <= end ==> k == if end < len then end else len
    ensures end < 0 ==> k == if len + end > 0 then len + end else 0
  {
    if end < 0 then (if len + end > 0 then len + end else 0)
    else if end < len then end else len
  }

  /** `xs.slice(0, end)`. */
  function SliceTo<T>(xs: seq<T>, end: int): (r: seq<T>)
    ensures r == xs[..SliceEnd(|xs|, end)]
  {
    xs[..SliceEnd(|xs|, end)]
  }
}

/**
 * `Array.prototype.sort` with a comparator `(a, b) => key(b) - key(a)`:
 * descending by an integer key, and stable, as the language requires since
 * ES2019. Modelled as insertion sort.
 */
module Sorting {

  predicate SortedDesc<T>(xs: seq<T>, key: T -> int) {
    forall i, j :: 0 <= i < j < |xs| ==> key(xs[i]) >= key(xs[j])
  }

  /** The elements of `xs` whose key is `k`, in order. */
  function WithKey<T>(xs: seq<T>, key: T -> int, k: int): (r: seq<T>)
    ensures |r| <= |xs|
  {
    if |xs| == 0 then []
    else (if key(xs[0]) == k then [xs[0]] else []) + WithKey(xs[1..], key, k)
  }

  /** Insert `x` in front of the first element whose key is not larger. */
  function InsertDesc<T>(x: T, ys: seq<T>, key: T -> int): (r: seq<T>)
    requires SortedDesc(ys, key)
    ensures SortedDesc(r, key)
    ensures multiset(r) == multiset(ys) + multiset{x}
  {
    if |ys| == 0 || key(ys[0]) <= key(x) then
      ConsSorted(x, ys, key);
      [x] + ys
    else
      assert SortedDesc(ys[1..], key);
      var rest := InsertDesc(x, ys[1..], key);
      assert ys == [ys[0]] + ys[1..];
      HeadDominates(ys[0], ys[1..], x, rest, key);
      ConsSorted(ys[0], rest, key);
      [ys[0]] + rest
  }

  /** A sorted list stays sorted behind an element no smaller than its own. */
  lemma ConsSorted<T>(y: T, rest: seq<T>, key: T -> int)
    requires SortedDesc(rest, key)
    requires |rest| > 0 ==> key(rest[0]) <= key(y)
    ensures SortedDesc([y] + rest, key)
  {
    var r := [y] + rest;
    forall i, j | 0 <= i < j < |r| ensures key(r[i]) >= key(r[j]) {
      if i == 0 {
        assert r[j] == rest[j - 1];
        if j > 1 {
          assert key(rest[0]) >= key(rest[j - 1]);
        }
      } else {
        assert r[i] == rest[i - 1] && r[j] == rest[j - 1];
      }
    }
  }

  lemma HeadDominates<T>(y: T, tail: seq<T>, x: T, rest: seq<T>, key: T -> int)
    requires forall j :: 0 <= j < |tail| ==> key(tail[j]) <= key(y)
    requires key(x) <= key(y)
    requires multiset(rest) == multiset(tail) + multiset{x}
    ensures forall j :: 0 <= j < |rest| ==> key(rest[j]) <= key(y)
  {
    forall j | 0 <= j < |rest| ensures key(rest[j]) <= key(y) {
      assert rest[j] in multiset(rest);
      if rest[j] != x {
        assert rest[j] in multiset(tail);
        var m :| 0 <= m < |tail| && tail[m] == rest[j];
      }
    }
  }

  /** `WithKey` on a list with a known head. */
  lemma WithKeyCons<T>(y: T, ys: seq<T>, key: T -> int, k: int)
    ensures WithKey([y] + ys, key, k) == (if key(y) == k then [y] else []) + WithKey(ys, key, k)
  {
    assert ([y] + ys)[1..] == ys;
  }

  function SortDesc<T>(xs: seq<T>, key: T -> int): (r: seq<T>)
    ensures SortedDesc(r, key)
    ensures multiset(r) == multiset(xs)
  {
    if |xs| == 0 then []
    else
      assert xs == [xs[0]] + xs[1..];
      InsertDesc(xs[0], SortDesc(xs[1..], key), key)
  }

  lemma {:induction false} InsertDescWithKey<T>(x: T, ys: seq<T>, key: T -> int, k: int)
    requires SortedDesc(ys, key)
    ensures WithKey(InsertDesc(x, ys, key), key, k)
            == (if key(x) == k then [x] else []) + WithKey(ys, key, k)
    decreases |ys|
  {
    if |ys| == 0 || key(ys[0]) <= key(x) {
      WithKeyCons(x, ys, key, k);
    } else {
      assert SortedDesc(ys[1..], key);
      var rest := InsertDesc(x, ys[1..], key);
      assert InsertDesc(x, ys, key) == [ys[0]] + rest;
      WithKeyCons(ys[0], rest, key, k);
      InsertDescWithKey(x, ys[1..], key, k);
      assert ys == [ys[0]] + ys[1..];
      WithKeyCons(ys[0], ys[1..], key, k);
      if key(x) == k {
        assert key(ys[0]) != k;
      }
    }
  }

  /** Stability: among elements with equal keys the input order is kept. */
  lemma {:induction false} SortDescStable<T>(xs: seq<T>, key: T -> int, k: int)
    ensures WithKey(SortDesc(xs, key), key, k) == WithKey(xs, key, k)
    decreases |xs|
  {
    if |xs| > 0 {
      SortDescStable(xs[1..], key, k);
      InsertDescWithKey(xs[0], SortDesc(xs[1..], key), key, k);
    }
  }

  lemma SortDescStableAll<T>(xs: seq<T>, key: T -> int)
    ensures forall k :: WithKey(SortDesc(xs, key), key, k) == WithKey(xs, key, k)
  {
    forall k ensures WithKey(SortDesc(xs, key), key, k) == WithKey(xs, key, k) {
      SortDescStable(xs, key, k);
    }
  }
}
