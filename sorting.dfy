/**
 * Python's `list.sort(key=..., reverse=True)`, the stable descending sort the
 * indexers apply to file lists (by modification time) and to the manifest (by
 * date), and the `[:n]` slice that caps a list.
 */
module Sorting {

  /** `less` is a strict total order on keys, as `<` is on numbers and on strings. */
  ghost predicate StrictTotalOrder<K(!new)>(less: (K, K) -> bool)
  {
    && (forall a :: !less(a, a))
    && (forall a, b, c :: less(a, b) && less(b, c) ==> less(a, c))
    && (forall a, b :: a != b ==> less(a, b) || less(b, a))
  }

  /** No element has a key smaller than that of an element after it. */
  ghost predicate SortedDesc<T, K>(s: seq<T>, key: T -> K, less: (K, K) -> bool)
  {
    forall i, j :: 0 <= i < j < |s| ==> !less(key(s[i]), key(s[j]))
  }

  /** The elements of `s` whose key is `k`, in their order in `s`. */
  function WithKey<T, K(==)>(s: seq<T>, key: T -> K, k: K): seq<T>
    decreases |s|
  {
    if s == [] then [] else (if key(s[0]) == k then [s[0]] else []) + WithKey(s[1..], key, k)
  }

  /** Puts `x` before the first element whose key is not greater than its own. */
  function Insert<T, K>(x: T, s: seq<T>, key: T -> K, less: (K, K) -> bool): seq<T>
    decreases |s|
  {
    if s == [] || !less(key(x), key(s[0])) then [x] + s
    else [s[0]] + Insert(x, s[1..], key, less)
  }

  /** `sorted(s, key=key, reverse=True)` */
  function SortDesc<T, K>(s: seq<T>, key: T -> K, less: (K, K) -> bool): seq<T>
    decreases |s|
  {
    if s == [] then [] else Insert(s[0], SortDesc(s[1..], key, less), key, less)
  }

  /** `s[:n]` */
  function Take<T>(s: seq<T>, n: nat): (r: seq<T>)
    ensures |r| == if n < |s| then n else |s|
    ensures forall i :: 0 <= i < |r| ==> r[i] == s[i]
  {
    if n < |s| then s[..n] else s
  }

  // ---------------------------------------------------------------------
  // Lemmas
  // ---------------------------------------------------------------------

  lemma {:induction false} WithKeyConcat<T, K>(a: seq<T>, b: seq<T>, key: T -> K, k: K)
    ensures WithKey(a + b, key, k) == WithKey(a, key, k) + WithKey(b, key, k)
    decreases |a|
  {
    if a == [] {
      assert a + b == b;
    } else {
      var head := if key(a[0]) == k then [a[0]] else [];
      assert (a + b)[0] == a[0] && (a + b)[1..] == a[1..] + b;
      calc {
        WithKey(a + b, key, k);
        head + WithKey(a[1..] + b, key, k);
        { WithKeyConcat(a[1..], b, key, k); }
        head + (WithKey(a[1..], key, k) + WithKey(b, key, k));
        (head + WithKey(a[1..], key, k)) + WithKey(b, key, k);
        WithKey(a, key, k) + WithKey(b, key, k);
      }
    }
  }

  lemma {:induction false} InsertPermutation<T, K>(x: T, s: seq<T>, key: T -> K, less: (K, K) -> bool)
    ensures multiset(Insert(x, s, key, less)) == multiset([x] + s)
    ensures |Insert(x, s, key, less)| == |s| + 1
    decreases |s|
  {
    if s != [] && less(key(x), key(s[0])) {
      InsertPermutation(x, s[1..], key, less);
      assert s == [s[0]] + s[1..];
    }
  }

  lemma SortedCons<T, K>(h: T, t: seq<T>, key: T -> K, less: (K, K) -> bool)
    requires SortedDesc(t, key, less)
    requires forall j :: 0 <= j < |t| ==> !less(key(h), key(t[j]))
    ensures SortedDesc([h] + t, key, less)
  {
    var s := [h] + t;
    forall i, j | 0 <= i < j < |s| ensures !less(key(s[i]), key(s[j])) {
      assert s[j] == t[j - 1];
      if i > 0 { assert s[i] == t[i - 1]; }
    }
  }

  lemma {:induction false} InsertSorted<T, K(!new)>(x: T, s: seq<T>, key: T -> K, less: (K, K) -> bool)
    requires StrictTotalOrder(less)
    requires SortedDesc(s, key, less)
    ensures SortedDesc(Insert(x, s, key, less), key, less)
    decreases |s|
  {
    if s == [] {
    } else if !less(key(x), key(s[0])) {
      forall j | 0 < j < |s| ensures !less(key(x), key(s[j])) {
        assert !less(key(s[0]), key(s[j]));
        assert key(s[0]) == key(s[j]) || less(key(s[j]), key(s[0]));
      }
      SortedCons(x, s, key, less);
    } else {
      var t := Insert(x, s[1..], key, less);
      InsertSorted(x, s[1..], key, less);
      InsertPermutation(x, s[1..], key, less);
      forall j | 0 <= j < |t| ensures !less(key(s[0]), key(t[j])) {
        assert t[j] in multiset(t);
        assert t[j] in multiset([x] + s[1..]);
        if t[j] != x {
          assert t[j] in s[1..];
          var m :| 0 <= m < |s[1..]| && s[1..][m] == t[j];
          assert s[m + 1] == t[j];
        }
      }
      SortedCons(s[0], t, key, less);
    }
  }

  lemma {:induction false} InsertStable<T, K(!new)>(x: T, s: seq<T>, key: T -> K, less: (K, K) -> bool, k: K)
    requires StrictTotalOrder(less)
    requires SortedDesc(s, key, less)
    ensures WithKey(Insert(x, s, key, less), key, k) == WithKey([x] + s, key, k)
    decreases |s|
  {
    if s != [] && less(key(x), key(s[0])) {
      var t := s[1..];
      assert SortedDesc(t, key, less) by {
        forall i, j | 0 <= i < j < |t| ensures !less(key(t[i]), key(t[j])) {
          assert t[i] == s[i + 1] && t[j] == s[j + 1];
        }
      }
      InsertStable(x, t, key, less, k);
      calc {
        WithKey(Insert(x, s, key, less), key, k);
        WithKey([s[0]] + Insert(x, t, key, less), key, k);
        { WithKeyConcat([s[0]], Insert(x, t, key, less), key, k); }
        WithKey([s[0]], key, k) + WithKey(Insert(x, t, key, less), key, k);
        WithKey([s[0]], key, k) + WithKey([x] + t, key, k);
        { WithKeyConcat([x], t, key, k); }
        WithKey([s[0]], key, k) + WithKey([x], key, k) + WithKey(t, key, k);
        { assert !(key(x) == k && key(s[0]) == k); }
        WithKey([x], key, k) + WithKey([s[0]], key, k) + WithKey(t, key, k);
        { WithKeyConcat([s[0]], t, key, k); assert [s[0]] + t == s; }
        WithKey([x], key, k) + WithKey(s, key, k);
        { WithKeyConcat([x], s, key, k); }
        WithKey([x] + s, key, k);
      }
    }
  }

  /** The sort returns a permutation of its input. */
  lemma {:induction false} SortDescPermutation<T, K>(s: seq<T>, key: T -> K, less: (K, K) -> bool)
    ensures multiset(SortDesc(s, key, less)) == multiset(s)
    ensures |SortDesc(s, key, less)| == |s|
    decreases |s|
  {
    if s != [] {
      SortDescPermutation(s[1..], key, less);
      InsertPermutation(s[0], SortDesc(s[1..], key, less), key, less);
      assert s == [s[0]] + s[1..];
    }
  }

  /** The sort returns its input in descending key order. */
  lemma {:induction false} SortDescSorted<T, K(!new)>(s: seq<T>, key: T -> K, less: (K, K) -> bool)
    requires StrictTotalOrder(less)
    ensures SortedDesc(SortDesc(s, key, less), key, less)
    decreases |s|
  {
    if s != [] {
      SortDescSorted(s[1..], key, less);
      InsertSorted(s[0], SortDesc(s[1..], key, less), key, less);
    }
  }

  /** The sort is stable: elements with equal keys keep their relative order. */
  lemma {:induction false} SortDescStable<T, K(!new)>(s: seq<T>, key: T -> K, less: (K, K) -> bool, k: K)
    requires StrictTotalOrder(less)
    ensures WithKey(SortDesc(s, key, less), key, k) == WithKey(s, key, k)
    decreases |s|
  {
    if s != [] {
      var t := SortDesc(s[1..], key, less);
      SortDescSorted(s[1..], key, less);
      SortDescStable(s[1..], key, less, k);
      InsertStable(s[0], t, key, less, k);
      WithKeyConcat([s[0]], t, key, k);
      WithKeyConcat([s[0]], s[1..], key, k);
      assert [s[0]] + s[1..] == s;
    }
  }
}
