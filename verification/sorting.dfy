/** Stable sorting by an integer key.

    A comparator of the form `(a, b) => key(a) - key(b)` handed to a stable
    `Array.prototype.sort` orders elements by ascending key and keeps
    elements with equal keys in their input order. `SortBy` is such a sort
    (an insertion sort); `StableSortIsUnique` shows that every sequence
    that is sorted and keeps each equal-key group in input order is that
    same sequence, so `SortBy` stands for any stable sort. */
module Sorting {
  import opened Seqs

  /** Keys never decrease from left to right. */
  predicate Sorted<T>(s: seq<T>, key: T -> int) {
    forall i, j :: 0 <= i < j < |s| ==> key(s[i]) <= key(s[j])
  }

  /** The test "has key `k`" as a predicate value. */
  function HasKey<T>(key: T -> int, k: int): T -> bool {
    x => key(x) == k
  }

  /** The elements of `s` whose key is `k`, in their order in `s`. A sort is
      stable when it leaves every such group as it was. */
  function KeyClass<T>(s: seq<T>, key: T -> int, k: int): seq<T> {
    Filter(s, HasKey(key, k))
  }

  lemma KeyClassCons<T>(s: seq<T>, key: T -> int, k: int)
    requires |s| > 0
    ensures KeyClass(s, key, k) == (if key(s[0]) == k then [s[0]] else []) + KeyClass(s[1..], key, k)
  {
  }

  lemma KeyClassAppend<T>(a: seq<T>, b: seq<T>, key: T -> int, k: int)
    ensures KeyClass(a + b, key, k) == KeyClass(a, key, k) + KeyClass(b, key, k)
  {
    FilterAppend(a, b, HasKey(key, k));
  }

  /** Places `x` before the first element whose key is not smaller. */
  function Insert<T>(x: T, s: seq<T>, key: T -> int): (r: seq<T>)
    ensures |r| == |s| + 1
    ensures multiset(r) == multiset(s) + multiset{x}
  {
    if |s| == 0 then [x]
    else if key(x) <= key(s[0]) then [x] + s
    else
      assert s == [s[0]] + s[1..];
      [s[0]] + Insert(x, s[1..], key)
  }

  /** Inserting into a sorted sequence keeps it sorted. */
  lemma {:induction false} InsertSorted<T>(x: T, s: seq<T>, key: T -> int)
    requires Sorted(s, key)
    ensures Sorted(Insert(x, s, key), key)
    decreases |s|
  {
    if |s| > 0 && key(x) > key(s[0]) {
      var rest := Insert(x, s[1..], key);
      var r := [s[0]] + rest;
      InsertSorted(x, s[1..], key);
      forall j | 0 < j < |r| ensures key(s[0]) <= key(r[j]) {
        assert r[j] == rest[j - 1];
        assert r[j] in multiset(rest);
        if r[j] != x {
          assert r[j] in multiset(s[1..]);
          var m :| 0 <= m < |s[1..]| && s[1..][m] == r[j];
          assert s[m + 1] == r[j];
        }
      }
    }
  }

  /** Inserting `x` adds it at the front of its equal-key group and leaves
      every group otherwise as it was. */
  lemma {:induction false} InsertKeyClass<T>(x: T, s: seq<T>, key: T -> int, k: int)
    ensures KeyClass(Insert(x, s, key), key, k) == (if key(x) == k then [x] else []) + KeyClass(s, key, k)
    decreases |s|
  {
    if |s| == 0 {
      KeyClassCons([x], key, k);
    } else if key(x) <= key(s[0]) {
      KeyClassCons([x] + s, key, k);
      assert ([x] + s)[1..] == s;
    } else {
      var rest := Insert(x, s[1..], key);
      var r := [s[0]] + rest;
      KeyClassCons(r, key, k);
      assert r[1..] == rest;
      InsertKeyClass(x, s[1..], key, k);
      KeyClassCons(s, key, k);
    }
  }

  /** Insertion sort by ascending key. */
  function SortBy<T>(s: seq<T>, key: T -> int): (r: seq<T>)
    ensures |r| == |s|
    ensures multiset(r) == multiset(s)
  {
    if |s| == 0 then []
    else
      assert s == [s[0]] + s[1..];
      Insert(s[0], SortBy(s[1..], key), key)
  }

  /** The sort's output has non-decreasing keys. */
  lemma {:induction false} SortBySorted<T>(s: seq<T>, key: T -> int)
    ensures Sorted(SortBy(s, key), key)
    decreases |s|
  {
    if |s| > 0 {
      SortBySorted(s[1..], key);
      InsertSorted(s[0], SortBy(s[1..], key), key);
    }
  }

  /** The sort is stable: each equal-key group keeps its input order. */
  lemma {:induction false} SortByStable<T>(s: seq<T>, key: T -> int, k: int)
    ensures KeyClass(SortBy(s, key), key, k) == KeyClass(s, key, k)
    decreases |s|
  {
    if |s| > 0 {
      SortByStable(s[1..], key, k);
      InsertKeyClass(s[0], SortBy(s[1..], key), key, k);
      KeyClassCons(s, key, k);
    }
  }

  /** A sorted sequence has the key of its head as smallest key. */
  lemma HeadKeyIsLeast<T>(s: seq<T>, key: T -> int, k: int)
    requires Sorted(s, key) && |KeyClass(s, key, k)| > 0
    ensures |s| > 0 && key(s[0]) <= k
  {
    var e := KeyClass(s, key, k)[0];
    assert e in s && key(e) == k;
    var j :| 0 <= j < |s| && s[j] == e;
  }

  /** Two sorted sequences with the same equal-key groups are equal: the
      order a stable sort produces is fully determined. */
  lemma {:induction false} StableSortIsUnique<T>(r1: seq<T>, r2: seq<T>, key: T -> int)
    requires Sorted(r1, key) && Sorted(r2, key)
    requires forall k :: KeyClass(r1, key, k) == KeyClass(r2, key, k)
    ensures r1 == r2
    decreases |r1| + |r2|
  {
    if |r1| > 0 {
      KeyClassCons(r1, key, key(r1[0]));
    }
    if |r2| > 0 {
      KeyClassCons(r2, key, key(r2[0]));
    }
    if |r1| > 0 && |r2| > 0 {
      var a, b := r1[0], r2[0];
      KeyClassCons(r1, key, key(a));
      KeyClassCons(r2, key, key(b));
      HeadKeyIsLeast(r2, key, key(a));
      HeadKeyIsLeast(r1, key, key(b));
      assert key(a) == key(b);
      assert a == KeyClass(r1, key, key(a))[0] == KeyClass(r2, key, key(a))[0] == b;
      forall k ensures KeyClass(r1[1..], key, k) == KeyClass(r2[1..], key, k) {
        KeyClassCons(r1, key, k);
        KeyClassCons(r2, key, k);
        var h := if key(a) == k then [a] else [];
        assert h + KeyClass(r1[1..], key, k) == h + KeyClass(r2[1..], key, k);
        assert KeyClass(r1[1..], key, k) == (h + KeyClass(r1[1..], key, k))[|h|..];
        assert KeyClass(r2[1..], key, k) == (h + KeyClass(r2[1..], key, k))[|h|..];
      }
      StableSortIsUnique(r1[1..], r2[1..], key);
      assert r1 == [a] + r1[1..] && r2 == [b] + r2[1..];
    }
  }

  /** Any sorted arrangement that keeps every equal-key group of `s` in
      order is exactly `SortBy(s)`. */
  lemma StableSortCharacterization<T>(s: seq<T>, r: seq<T>, key: T -> int)
    requires Sorted(r, key)
    requires forall k :: KeyClass(r, key, k) == KeyClass(s, key, k)
    ensures r == SortBy(s, key)
  {
    SortBySorted(s, key);
    forall k ensures KeyClass(SortBy(s, key), key, k) == KeyClass(s, key, k) {
      SortByStable(s, key, k);
    }
    StableSortIsUnique(r, SortBy(s, key), key);
  }

  /** Sorting an already sorted sequence leaves it as it is. */
  lemma SortSortedIsIdentity<T>(s: seq<T>, key: T -> int)
    requires Sorted(s, key)
    ensures SortBy(s, key) == s
  {
    StableSortCharacterization(s, s, key);
  }

  lemma KeyClassOfKeyClass<T>(s: seq<T>, key: T -> int, j: int, k: int)
    ensures KeyClass(KeyClass(s, key, j), key, k) == if j == k then KeyClass(s, key, j) else []
  {
    var c := KeyClass(s, key, j);
    if j == k {
      FilterKeepsAll(c, HasKey(key, k));
    } else {
      FilterDropsAll(c, HasKey(key, k));
    }
  }

  /** Elements of key 0 followed by elements of key 1 are sorted. */
  lemma TwoClassesSorted<T>(s: seq<T>, key: T -> int)
    ensures Sorted(KeyClass(s, key, 0) + KeyClass(s, key, 1), key)
  {
    var lo, hi := KeyClass(s, key, 0), KeyClass(s, key, 1);
    var r := lo + hi;
    forall i, j | 0 <= i < j < |r| ensures key(r[i]) <= key(r[j]) {
      if i < |lo| { assert r[i] == lo[i]; } else { assert r[i] == hi[i - |lo|]; }
      if j < |lo| { assert r[j] == lo[j]; } else { assert r[j] == hi[j - |lo|]; }
    }
  }

  lemma TwoClassesKeyClass<T>(s: seq<T>, key: T -> int, k: int)
    requires forall i :: 0 <= i < |s| ==> 0 <= key(s[i]) <= 1
    ensures KeyClass(KeyClass(s, key, 0) + KeyClass(s, key, 1), key, k) == KeyClass(s, key, k)
  {
    KeyClassAppend(KeyClass(s, key, 0), KeyClass(s, key, 1), key, k);
    KeyClassOfKeyClass(s, key, 0, k);
    KeyClassOfKeyClass(s, key, 1, k);
    if k != 0 && k != 1 {
      FilterDropsAll(s, HasKey(key, k));
    }
  }

  /** When every key is 0 or 1, a stable sort is a stable partition: the
      key-0 elements in input order, then the key-1 elements in input order. */
  lemma SortTwoKeysIsPartition<T>(s: seq<T>, key: T -> int)
    requires forall i :: 0 <= i < |s| ==> 0 <= key(s[i]) <= 1
    ensures SortBy(s, key) == KeyClass(s, key, 0) + KeyClass(s, key, 1)
  {
    TwoClassesSorted(s, key);
    forall k ensures KeyClass(KeyClass(s, key, 0) + KeyClass(s, key, 1), key, k) == KeyClass(s, key, k) {
      TwoClassesKeyClass(s, key, k);
    }
    StableSortCharacterization(s, KeyClass(s, key, 0) + KeyClass(s, key, 1), key);
  }
}
