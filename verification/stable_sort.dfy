/**
 A stable sort in descending order of an integer key: what
 `Array.prototype.sort((a, b) => key(b) - key(a))` computes, `sort` being
 stable since ECMAScript 2019.

 Stability is stated without positions: for every key value `k`, the elements
 whose key is `k` appear in the output in exactly the order they had in the
 input (`WithKey`). Together with descending order this determines the output
 completely (`SortUnique`).
 */
module StableSort {

  ghost predicate SortedDesc<T>(xs: seq<T>, key: T -> int)
  {
    forall i, j | 0 <= i < j < |xs| :: key(xs[i]) >= key(xs[j])
  }

  /** The subsequence of `xs` whose key is `k`. */
  function WithKey<T>(xs: seq<T>, key: T -> int, k: int): seq<T>
  {
    if |xs| == 0 then []
    else (if key(xs[0]) == k then [xs[0]] else []) + WithKey(xs[1..], key, k)
  }

  /** Places `x` before the first element of `ys` whose key is smaller. */
  function Insert<T>(x: T, ys: seq<T>, key: T -> int): seq<T>
  {
    if |ys| == 0 || key(x) >= key(ys[0]) then [x] + ys
    else [ys[0]] + Insert(x, ys[1..], key)
  }

  /** Insertion sort, from the back, by descending key. */
  function Sort<T>(xs: seq<T>, key: T -> int): (r: seq<T>)
    ensures |r| == |xs|
    ensures multiset(r) == multiset(xs)
    ensures SortedDesc(r, key)
    ensures forall k :: WithKey(r, key, k) == WithKey(xs, key, k)
  {
    if |xs| == 0 then []
    else
      var rest := Sort(xs[1..], key);
      InsertPermutes(xs[0], rest, key);
      InsertSorted(xs[0], rest, key);
      InsertStableCons(xs[0], rest, xs[1..], key);
      assert xs == [xs[0]] + xs[1..];
      Insert(xs[0], rest, key)
  }

  lemma {:induction false} InsertPermutes<T>(x: T, ys: seq<T>, key: T -> int)
    ensures |Insert(x, ys, key)| == |ys| + 1
    ensures multiset(Insert(x, ys, key)) == multiset(ys) + multiset{x}
  {
    if |ys| > 0 && key(x) < key(ys[0]) {
      InsertPermutes(x, ys[1..], key);
      assert ys == [ys[0]] + ys[1..];
    }
  }

  /** Inserting an element no larger than `bound` keeps every key below `bound`. */
  lemma {:induction false} InsertBounded<T>(x: T, ys: seq<T>, key: T -> int, bound: int)
    requires key(x) <= bound
    requires forall i | 0 <= i < |ys| :: key(ys[i]) <= bound
    ensures forall i | 0 <= i < |Insert(x, ys, key)| :: key(Insert(x, ys, key)[i]) <= bound
  {
    if |ys| > 0 && key(x) < key(ys[0]) {
      InsertBounded(x, ys[1..], key, bound);
    }
  }

  /** Inserting into a sorted sequence keeps it sorted. */
  lemma {:induction false} InsertSorted<T>(x: T, ys: seq<T>, key: T -> int)
    requires SortedDesc(ys, key)
    ensures SortedDesc(Insert(x, ys, key), key)
  {
    if |ys| > 0 && key(x) < key(ys[0]) {
      var tail := Insert(x, ys[1..], key);
      InsertSorted(x, ys[1..], key);
      InsertBounded(x, ys[1..], key, key(ys[0]));
      var r := [ys[0]] + tail;
      assert r == Insert(x, ys, key);
      forall i, j | 0 <= i < j < |r|
        ensures key(r[i]) >= key(r[j])
      {
        assert r[j] == tail[j - 1];
        if i > 0 {
          assert r[i] == tail[i - 1];
        }
      }
    }
  }

  /** Inserting at the front-most admissible place overtakes only larger keys. */
  lemma InsertStable<T>(x: T, ys: seq<T>, key: T -> int)
    ensures forall k :: WithKey(Insert(x, ys, key), key, k) == WithKey([x] + ys, key, k)
  {
    forall k
      ensures WithKey(Insert(x, ys, key), key, k) == WithKey([x] + ys, key, k)
    {
      InsertStableAt(x, ys, key, k);
    }
  }

  lemma {:induction false} InsertStableAt<T>(x: T, ys: seq<T>, key: T -> int, k: int)
    ensures WithKey(Insert(x, ys, key), key, k) == WithKey([x] + ys, key, k)
  {
    if |ys| > 0 && key(x) < key(ys[0]) {
      var tail := Insert(x, ys[1..], key);
      var hx := if key(x) == k then [x] else [];
      var hy := if key(ys[0]) == k then [ys[0]] else [];
      InsertStableAt(x, ys[1..], key, k);
      assert ([ys[0]] + tail)[1..] == tail;
      assert WithKey([ys[0]] + tail, key, k) == hy + WithKey(tail, key, k);
      assert ([x] + ys[1..])[1..] == ys[1..];
      assert WithKey(tail, key, k) == hx + WithKey(ys[1..], key, k);
      assert ([x] + ys)[1..] == ys;
      assert WithKey([x] + ys, key, k) == hx + WithKey(ys, key, k);
      assert WithKey(ys, key, k) == hy + WithKey(ys[1..], key, k);
      assert hy + hx == hx + hy;
    }
  }

  /** Inserting into a stable arrangement of `tail` is a stable arrangement of `[x] + tail`. */
  lemma InsertStableCons<T>(x: T, ys: seq<T>, tail: seq<T>, key: T -> int)
    requires forall k :: WithKey(ys, key, k) == WithKey(tail, key, k)
    ensures forall k :: WithKey(Insert(x, ys, key), key, k) == WithKey([x] + tail, key, k)
  {
    InsertStable(x, ys, key);
    forall k
      ensures WithKey([x] + ys, key, k) == WithKey([x] + tail, key, k)
    {
      assert ([x] + ys)[1..] == ys;
      assert ([x] + tail)[1..] == tail;
    }
  }

  /** Sorting an already sorted sequence changes nothing. */
  lemma {:induction false} SortSortedIsIdentity<T>(xs: seq<T>, key: T -> int)
    requires SortedDesc(xs, key)
    ensures Sort(xs, key) == xs
  {
    if |xs| > 0 {
      SortSortedIsIdentity(xs[1..], key);
      assert xs == [xs[0]] + xs[1..];
    }
  }

  lemma {:induction false} WithKeyAbsent<T>(xs: seq<T>, key: T -> int, k: int)
    requires forall i | 0 <= i < |xs| :: key(xs[i]) != k
    ensures WithKey(xs, key, k) == []
  {
    if |xs| > 0 {
      WithKeyAbsent(xs[1..], key, k);
    }
  }

  /**
   Two descending sequences that agree on every key's subsequence are equal:
   the contract of `Sort` pins its result down uniquely.
   */
  lemma {:induction false} SortedWithSameKeysEqual<T>(a: seq<T>, b: seq<T>, key: T -> int)
    requires SortedDesc(a, key) && SortedDesc(b, key)
    requires forall k :: WithKey(a, key, k) == WithKey(b, key, k)
    ensures a == b
    decreases |a| + |b|
  {
    if |a| == 0 && |b| == 0 {
      return;
    }
    if |a| == 0 {
      assert false;
    }
    if |b| == 0 {
      WithKeyAbsent(b, key, key(a[0]));
      assert false;
    }
    if key(a[0]) > key(b[0]) {
      WithKeyAbsent(b, key, key(a[0]));
      assert false;
    }
    if key(b[0]) > key(a[0]) {
      WithKeyAbsent(a, key, key(b[0]));
      assert false;
    }
    assert WithKey(a, key, key(a[0]))[0] == a[0];
    assert WithKey(b, key, key(b[0]))[0] == b[0];
    assert a[0] == b[0];
    forall k
      ensures WithKey(a[1..], key, k) == WithKey(b[1..], key, k)
    {
      var h := if key(a[0]) == k then [a[0]] else [];
      assert WithKey(a, key, k) == h + WithKey(a[1..], key, k);
      assert WithKey(b, key, k) == h + WithKey(b[1..], key, k);
      assert WithKey(a[1..], key, k) == WithKey(a, key, k)[|h|..];
      assert WithKey(b[1..], key, k) == WithKey(b, key, k)[|h|..];
    }
    SortedWithSameKeysEqual(a[1..], b[1..], key);
    assert a == [a[0]] + a[1..] && b == [b[0]] + b[1..];
  }

  /** Any descending rearrangement that keeps ties in input order is `Sort`'s. */
  lemma SortUnique<T>(xs: seq<T>, ys: seq<T>, key: T -> int)
    requires SortedDesc(ys, key)
    requires forall k :: WithKey(ys, key, k) == WithKey(xs, key, k)
    ensures ys == Sort(xs, key)
  {
    SortedWithSameKeysEqual(ys, Sort(xs, key), key);
  }
}
