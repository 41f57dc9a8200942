/**
 Generic sequence operations the stores are built from: filtering, mapping,
 truncation and a stable sort by descending integer key (the order both the
 device store and the server listing use).
 */
module Seqs {

  /** The elements of `s` satisfying `p`, in their original order. */
  function Filter<T(!new)>(s: seq<T>, p: T -> bool): (r: seq<T>)
    ensures |r| <= |s|
    ensures forall x :: x in r <==> x in s && p(x)
    ensures forall i :: 0 <= i < |r| ==> p(r[i])
    decreases |s|
  {
    if |s| == 0 then []
    else if p(s[0]) then [s[0]] + Filter(s[1..], p)
    else Filter(s[1..], p)
  }

  /** Filtering distributes over concatenation, so it keeps relative order. */
  lemma {:induction false} FilterAppend<T(!new)>(a: seq<T>, b: seq<T>, p: T -> bool)
    ensures Filter(a + b, p) == Filter(a, p) + Filter(b, p)
    decreases |a|
  {
    if |a| == 0 {
      assert a + b == b;
    } else {
      assert (a + b)[0] == a[0];
      assert (a + b)[1..] == a[1..] + b;
      FilterAppend(a[1..], b, p);
    }
  }

  /** A filter that accepts everything changes nothing. */
  lemma {:induction false} FilterAll<T(!new)>(s: seq<T>, p: T -> bool)
    requires forall x :: x in s ==> p(x)
    ensures Filter(s, p) == s
    decreases |s|
  {
    if |s| > 0 {
      assert s[0] in s;
      forall x | x in s[1..] ensures p(x) {
        assert x in s;
      }
      FilterAll(s[1..], p);
      assert s == [s[0]] + s[1..];
    }
  }

  /** Keys strictly increase from left to right. */
  predicate StrictlyIncreasing<T>(s: seq<T>, key: T -> int) {
    forall i, j :: 0 <= i < j < |s| ==> key(s[i]) < key(s[j])
  }

  /** Filtering keeps a strictly increasing sequence strictly increasing. */
  lemma {:induction false} FilterKeepsIncreasing<T(!new)>(s: seq<T>, p: T -> bool, key: T -> int)
    requires StrictlyIncreasing(s, key)
    ensures StrictlyIncreasing(Filter(s, p), key)
    decreases |s|
  {
    if |s| > 0 {
      FilterKeepsIncreasing(s[1..], p, key);
      var rest := Filter(s[1..], p);
      forall x | x in rest ensures key(s[0]) < key(x) {
        var j :| 0 <= j < |s[1..]| && s[1..][j] == x;
        assert s[j + 1] == x;
      }
      if p(s[0]) {
        var r := [s[0]] + rest;
        forall i, j | 0 <= i < j < |r| ensures key(r[i]) < key(r[j]) {
          assert r[j] == rest[j - 1];
          assert rest[j - 1] in rest;
          if i > 0 { assert r[i] == rest[i - 1]; }
        }
      }
    }
  }

  /** Strictly increasing integer keys grow by at least one per position. */
  lemma {:induction false} IncreasingSpread<T>(s: seq<T>, key: T -> int)
    requires |s| > 0
    requires StrictlyIncreasing(s, key)
    ensures key(s[|s| - 1]) - key(s[0]) >= |s| - 1
    decreases |s|
  {
    if |s| > 1 {
      IncreasingSpread(s[..|s| - 1], key);
      assert s[..|s| - 1][|s| - 2] == s[|s| - 2];
      assert key(s[|s| - 2]) < key(s[|s| - 1]);
    }
  }

  /** `f` applied to every element, position by position. */
  function Map<T, U>(s: seq<T>, f: T -> U): (r: seq<U>)
    ensures |r| == |s|
    ensures forall i :: 0 <= i < |s| ==> r[i] == f(s[i])
  {
    seq(|s|, i requires 0 <= i < |s| => f(s[i]))
  }

  /** Mapping distributes over concatenation. */
  lemma MapAppend<T, U>(a: seq<T>, b: seq<T>, f: T -> U)
    ensures Map(a + b, f) == Map(a, f) + Map(b, f)
  {
  }

  /** Mapping a one-element sequence. */
  lemma MapSingle<T, U>(x: T, f: T -> U)
    ensures Map([x], f) == [f(x)]
  {
  }

  /** Removing one element from a super-multiset keeps the rest above the remainder. */
  lemma SubMultisetRemove<T>(x: T, a: seq<T>, b: seq<T>)
    requires multiset([x] + a) <= multiset(b)
    ensures multiset(a) <= multiset(b) - multiset{x}
  {
    assert multiset([x] + a) == multiset{x} + multiset(a);
  }

  /** The multiset of `l + [y] + r` is that of `l + r` with one more `y`. */
  lemma MultisetSplice<T>(l: seq<T>, y: T, r: seq<T>)
    ensures multiset(l + ([y] + r)) == multiset(l + r) + multiset{y}
  {
    assert multiset(l + ([y] + r)) == multiset(l) + multiset([y] + r);
    assert multiset([y] + r) == multiset{y} + multiset(r);
    assert multiset(l + r) == multiset(l) + multiset(r);
  }

  /** Adding the same element to both sides keeps the inclusion. */
  lemma SubMultisetAdd<T>(a: multiset<T>, b: multiset<T>, y: T)
    requires a <= b
    ensures a + multiset{y} <= b + multiset{y}
  {
  }

  /** Mapping keeps sub-multisets: no image occurs more often than its preimages allow. */
  lemma {:induction false} MapSubMultiset<T, U>(a: seq<T>, b: seq<T>, f: T -> U)
    requires multiset(a) <= multiset(b)
    ensures multiset(Map(a, f)) <= multiset(Map(b, f))
    decreases |a|
  {
    if |a| > 0 {
      var x := a[0];
      assert a == [x] + a[1..];
      assert x in multiset(b);
      var j :| 0 <= j < |b| && b[j] == x;
      var left, right := b[..j], b[j + 1..];
      assert b == left + ([x] + right);
      var b' := left + right;
      MultisetSplice(left, x, right);
      SubMultisetRemove(x, a[1..], b);
      MapSubMultiset(a[1..], b', f);
      MapAppend([x], a[1..], f);
      MapAppend(left, [x] + right, f);
      MapAppend([x], right, f);
      MapAppend(left, right, f);
      var l, r := Map(left, f), Map(right, f);
      MapSingle(x, f);
      assert Map(a, f) == [f(x)] + Map(a[1..], f);
      assert Map(b, f) == l + ([f(x)] + r);
      MultisetSplice([], f(x), Map(a[1..], f));
      MultisetSplice(l, f(x), r);
      SubMultisetAdd(multiset(Map(a[1..], f)), multiset(Map(b', f)), f(x));
    }
  }

  /** The first `n` elements of `s`, or all of `s` when it is shorter. */
  function Take<T>(s: seq<T>, n: nat): (r: seq<T>)
    ensures |r| == if |s| <= n then |s| else n
    ensures forall i :: 0 <= i < |r| ==> r[i] == s[i]
  {
    if |s| <= n then s else s[..n]
  }

  /** Keys never increase from left to right. */
  predicate SortedDesc<T>(s: seq<T>, key: T -> int) {
    forall i, j :: 0 <= i < j < |s| ==> key(s[i]) >= key(s[j])
  }

  /** The elements of `s` whose key is exactly `k`, in their order in `s`. */
  function Ties<T>(s: seq<T>, key: T -> int, k: int): seq<T>
    decreases |s|
  {
    if |s| == 0 then []
    else (if key(s[0]) == k then [s[0]] else []) + Ties(s[1..], key, k)
  }

  /**
   Inserts `x` in front of the first element whose key is not larger than
   its own, so `x` precedes every element of `s` with an equal key.
   */
  function Insert<T(!new)>(x: T, s: seq<T>, key: T -> int): (r: seq<T>)
    ensures multiset(r) == multiset(s) + multiset{x}
    decreases |s|
  {
    if |s| == 0 || key(s[0]) <= key(x) then
      [x] + s
    else
      assert s == [s[0]] + s[1..];
      [s[0]] + Insert(x, s[1..], key)
  }

  /** Inserting into a sorted sequence keeps it sorted. */
  lemma {:induction false} InsertSorted<T(!new)>(x: T, s: seq<T>, key: T -> int)
    requires SortedDesc(s, key)
    ensures SortedDesc(Insert(x, s, key), key)
    decreases |s|
  {
    if |s| > 0 && key(s[0]) > key(x) {
      var rest := Insert(x, s[1..], key);
      InsertSorted(x, s[1..], key);
      forall i | 0 <= i < |rest| ensures key(rest[i]) <= key(s[0]) {
        assert rest[i] in multiset(rest);
        assert rest[i] in multiset(s[1..]) + multiset{x};
        if rest[i] != x {
          assert rest[i] in s[1..];
        }
      }
      var r := [s[0]] + rest;
      assert Insert(x, s, key) == r;
      forall i, j | 0 <= i < j < |r| ensures key(r[i]) >= key(r[j]) {
        if i == 0 {
          assert r[j] == rest[j - 1];
        } else {
          assert r[i] == rest[i - 1] && r[j] == rest[j - 1];
        }
      }
    }
  }

  /**
   Stable sort by descending key: the result is a permutation of `s`, its
   keys never increase, and elements with equal keys keep their order.
   */
  function SortDesc<T(!new)>(s: seq<T>, key: T -> int): (r: seq<T>)
    ensures multiset(r) == multiset(s)
    ensures SortedDesc(r, key)
    decreases |s|
  {
    if |s| == 0 then []
    else
      assert s == [s[0]] + s[1..];
      var rest := SortDesc(s[1..], key);
      InsertSorted(s[0], rest, key);
      Insert(s[0], rest, key)
  }

  /** An element whose key is at least every other key stays in front. */
  lemma SortDescFront<T(!new)>(x: T, s: seq<T>, key: T -> int)
    requires forall y :: y in s ==> key(y) <= key(x)
    ensures SortDesc([x] + s, key) == [x] + SortDesc(s, key)
  {
    var t := [x] + s;
    assert t[0] == x && t[1..] == s;
    var rest := SortDesc(s, key);
    if |rest| > 0 {
      assert rest[0] in multiset(s);
    }
  }

  /** Inserting `x` puts it ahead of every element with the same key. */
  lemma {:induction false} InsertTies<T(!new)>(x: T, s: seq<T>, key: T -> int, k: int)
    ensures Ties(Insert(x, s, key), key, k)
         == (if key(x) == k then [x] else []) + Ties(s, key, k)
    decreases |s|
  {
    var r := Insert(x, s, key);
    if |s| == 0 || key(s[0]) <= key(x) {
      assert r[0] == x && r[1..] == s;
    } else {
      var rest := Insert(x, s[1..], key);
      InsertTies(x, s[1..], key, k);
      assert r[0] == s[0] && r[1..] == rest;
      assert Ties(s, key, k) == (if key(s[0]) == k then [s[0]] else []) + Ties(s[1..], key, k);
      if key(x) == k {
        assert key(s[0]) != k;
      }
    }
  }

  /** The sort is stable: for every key, the tied elements keep their input order. */
  lemma {:induction false} SortDescStable<T(!new)>(s: seq<T>, key: T -> int, k: int)
    ensures Ties(SortDesc(s, key), key, k) == Ties(s, key, k)
    decreases |s|
  {
    if |s| > 0 {
      SortDescStable(s[1..], key, k);
      InsertTies(s[0], SortDesc(s[1..], key), key, k);
    }
  }
}
