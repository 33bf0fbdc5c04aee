/**
 * Rust's stable `slice::sort_by` on a key, specified by insertion sort and
 * carried out in place on an array.
 */
module Sorting {

  predicate SortedBy<T>(s: seq<T>, key: T -> int) {
    forall i, j :: 0 <= i < j < |s| ==> key(s[i]) <= key(s[j])
  }

  /** Puts x after every element whose key is not larger, so equal keys keep their order. */
  function Insert<T>(s: seq<T>, x: T, key: T -> int): (r: seq<T>)
    ensures |r| == |s| + 1
  {
    if s == [] || key(x) < key(s[0]) then [x] + s else [s[0]] + Insert(s[1..], x, key)
  }

  /** The elements of s taken one by one from the left and inserted into a sorted prefix. */
  function InsertionSort<T>(s: seq<T>, key: T -> int): (r: seq<T>)
    ensures |r| == |s|
  {
    if s == [] then [] else Insert(InsertionSort(s[..|s| - 1], key), s[|s| - 1], key)
  }

  /** The elements of s whose key is k, in the order of s. */
  function WithKey<T>(s: seq<T>, key: T -> int, k: int): seq<T> {
    if s == [] then [] else (if key(s[0]) == k then [s[0]] else []) + WithKey(s[1..], key, k)
  }

  lemma {:induction false} InsertSorted<T>(s: seq<T>, x: T, key: T -> int)
    requires SortedBy(s, key)
    ensures SortedBy(Insert(s, x, key), key)
    ensures multiset(Insert(s, x, key)) == multiset(s) + multiset{x}
  {
    if s != [] && !(key(x) < key(s[0])) {
      var tail := s[1..];
      assert SortedBy(tail, key);
      InsertSorted(tail, x, key);
      var r := Insert(tail, x, key);
      assert Insert(s, x, key) == [s[0]] + r;
      forall m | 0 <= m < |r|
        ensures key(s[0]) <= key(r[m])
      {
        LowerBound(s, x, key, r[m]);
      }
      SortedCons(s[0], r, key);
      assert s == [s[0]] + tail;
    }
  }

  /** Every element of a sorted list and x are not below the head. */
  lemma LowerBound<T>(s: seq<T>, x: T, key: T -> int, y: T)
    requires SortedBy(s, key) && s != [] && key(s[0]) <= key(x)
    requires y in multiset(s[1..]) + multiset{x}
    ensures key(s[0]) <= key(y)
  {
    if y in multiset(s[1..]) {
      var q :| 0 <= q < |s[1..]| && s[1..][q] == y;
      assert s[q + 1] == y;
    }
  }

  lemma SortedCons<T>(h: T, r: seq<T>, key: T -> int)
    requires SortedBy(r, key) && forall m :: 0 <= m < |r| ==> key(h) <= key(r[m])
    ensures SortedBy([h] + r, key)
  {
    var t := [h] + r;
    forall i, j | 0 <= i < j < |t|
      ensures key(t[i]) <= key(t[j])
    {
      assert t[j] == r[j - 1];
      if i > 0 {
        assert t[i] == r[i - 1];
      }
    }
  }

  lemma {:induction false} SortSorted<T>(s: seq<T>, key: T -> int)
    ensures SortedBy(InsertionSort(s, key), key)
    ensures multiset(InsertionSort(s, key)) == multiset(s)
  {
    if s != [] {
      SortSorted(s[..|s| - 1], key);
      InsertSorted(InsertionSort(s[..|s| - 1], key), s[|s| - 1], key);
      assert s == s[..|s| - 1] + [s[|s| - 1]];
    }
  }

  lemma {:induction false} WithKeyAppend<T>(a: seq<T>, b: seq<T>, key: T -> int, k: int)
    ensures WithKey(a + b, key, k) == WithKey(a, key, k) + WithKey(b, key, k)
  {
    if a == [] {
      assert a + b == b;
    } else {
      var ab := a + b;
      assert ab[0] == a[0];
      assert ab[1..] == a[1..] + b;
      var head := if key(a[0]) == k then [a[0]] else [];
      WithKeyAppend(a[1..], b, key, k);
      var x, y, z := WithKey(a[1..], key, k), WithKey(b, key, k), WithKey(ab[1..], key, k);
      assert z == x + y;
      assert WithKey(ab, key, k) == head + z;
      assert WithKey(a, key, k) == head + x;
      assert head + (x + y) == (head + x) + y;
    }
  }

  lemma {:induction false} WithKeyAbove<T>(s: seq<T>, key: T -> int, k: int)
    requires SortedBy(s, key)
    requires s != [] && k < key(s[0])
    ensures WithKey(s, key, k) == []
  {
    if |s| > 1 {
      WithKeyAbove(s[1..], key, k);
    }
  }

  lemma {:induction false} InsertWithKey<T>(s: seq<T>, x: T, key: T -> int, k: int)
    requires SortedBy(s, key)
    ensures WithKey(Insert(s, x, key), key, k) == WithKey(s, key, k) + (if key(x) == k then [x] else [])
  {
    if s == [] {
      assert Insert(s, x, key) == [x];
    } else if key(x) < key(s[0]) {
      var r := [x] + s;
      assert Insert(s, x, key) == r;
      assert r[1..] == s;
      assert WithKey(r, key, k) == (if key(x) == k then [x] else []) + WithKey(s, key, k);
      if key(x) == k {
        WithKeyAbove(s, key, k);
      }
    } else {
      var t := Insert(s[1..], x, key);
      var r := [s[0]] + t;
      assert Insert(s, x, key) == r;
      assert r[1..] == t;
      InsertWithKey(s[1..], x, key, k);
      assert WithKey(r, key, k) == (if key(s[0]) == k then [s[0]] else []) + WithKey(t, key, k);
    }
  }

  /**
   * The sort is stable: for every key, the elements carrying it appear in the
   * result in the same order as in the input.
   */
  lemma {:induction false} SortStable<T>(s: seq<T>, key: T -> int, k: int)
    ensures WithKey(InsertionSort(s, key), key, k) == WithKey(s, key, k)
  {
    if s != [] {
      var init, last := s[..|s| - 1], s[|s| - 1];
      SortStable(init, key, k);
      SortSorted(init, key);
      InsertWithKey(InsertionSort(init, key), last, key, k);
      assert s == init + [last];
      WithKeyAppend(init, [last], key, k);
    }
  }

  /** Where Insert puts x: after the prefix of keys not above key(x). */
  lemma {:induction false} InsertAt<T>(s: seq<T>, x: T, key: T -> int, j: nat)
    requires SortedBy(s, key) && j <= |s|
    requires j == 0 || key(s[j - 1]) <= key(x)
    requires forall m :: j <= m < |s| ==> key(x) < key(s[m])
    ensures Insert(s, x, key) == s[..j] + [x] + s[j..]
  {
    if j > 0 {
      assert key(s[0]) <= key(x);
      InsertAt(s[1..], x, key, j - 1);
      assert s[1..][..j - 1] == s[1..j];
      assert s[1..][j - 1..] == s[j..];
    }
  }

  /** slice::sort_by(|a, b| key(a).cmp(&key(b))) on an array. */
  method SortInPlace<T>(a: array<T>, key: T -> int)
    modifies a
    ensures a[..] == InsertionSort(old(a[..]), key)
  {
    ghost var input := a[..];
    var i := 0;
    while i < a.Length
      invariant 0 <= i <= a.Length
      invariant a[..i] == InsertionSort(input[..i], key)
      invariant a[i..] == input[i..]
    {
      SortSorted(input[..i], key);
      assert a[i + 1..] == input[i + 1..] by {
        assert a[i + 1..] == a[i..][1..];
        assert input[i + 1..] == input[i..][1..];
      }
      InsertNext(a, i, key);
      assert input[..i + 1][..i] == input[..i];
      assert input[..i + 1] == input[..i] + [input[i]];
      i := i + 1;
    }
    assert a[..] == a[..a.Length];
    assert input == input[..a.Length];
  }

  /** One step of the insertion sort: a[i] moves into the sorted prefix a[..i]. */
  method InsertNext<T>(a: array<T>, i: nat, key: T -> int)
    requires i < a.Length && SortedBy(a[..i], key)
    modifies a
    ensures a[..i + 1] == Insert(old(a[..i]), old(a[i]), key)
    ensures a[i + 1..] == old(a[i + 1..])
  {
    ghost var sorted := a[..i];
    ghost var before := a[..];
    var x := a[i];
    var j := i;
    while j > 0 && key(x) < key(a[j - 1])
      invariant 0 <= j <= i
      invariant forall m :: 0 <= m < j ==> a[m] == sorted[m]
      invariant forall m :: j < m <= i ==> a[m] == sorted[m - 1]
      invariant forall m :: i < m < a.Length ==> a[m] == before[m]
      invariant forall m :: j <= m < i ==> key(x) < key(sorted[m])
    {
      a[j] := a[j - 1];
      j := j - 1;
    }
    a[j] := x;
    InsertAt(sorted, x, key, j);
    Shifted(sorted, x, j, a[..i + 1]);
    assert a[i + 1..] == before[i + 1..];
  }

  /** A sequence that agrees with `sorted` before `j`, holds `x` at `j` and `sorted` shifted by one after it. */
  lemma Shifted<T>(sorted: seq<T>, x: T, j: nat, t: seq<T>)
    requires j <= |sorted| && |t| == |sorted| + 1 && t[j] == x
    requires forall m :: 0 <= m < j ==> t[m] == sorted[m]
    requires forall m :: j < m < |t| ==> t[m] == sorted[m - 1]
    ensures t == sorted[..j] + [x] + sorted[j..]
  {
    var inserted := sorted[..j] + [x] + sorted[j..];
    assert forall m :: 0 <= m < |t| ==> t[m] == inserted[m];
  }
}
