/**
 * Python's `list.sort(key=...)` for integer keys: a stable sort, so the result is ordered by
 * key and elements with equal keys keep their original relative order.
 */
module PySort {

  /** `x` placed after every element of `s` whose key is at most its own. */
  function InsertByKey<T>(s: seq<T>, x: T, key: T -> int): seq<T>
  {
    if |s| == 0 then [x]
    else if key(x) < key(s[0]) then [x] + s
    else [s[0]] + InsertByKey(s[1..], x, key)
  }

  /** The stable sort of `xs` by `key`, inserting the elements one after the other. */
  function SortBy<T>(xs: seq<T>, key: T -> int): seq<T>
  {
    if |xs| == 0 then []
    else InsertByKey(SortBy(xs[..|xs| - 1], key), xs[|xs| - 1], key)
  }

  ghost predicate SortedBy<T>(s: seq<T>, key: T -> int)
  {
    forall i, j :: 0 <= i < j < |s| ==> key(s[i]) <= key(s[j])
  }

  /** The elements of `s` whose key is `k`, in order. */
  function WithKey<T>(s: seq<T>, key: T -> int, k: int): seq<T>
  {
    if |s| == 0 then []
    else (if key(s[0]) == k then [s[0]] else []) + WithKey(s[1..], key, k)
  }

  lemma {:induction false} WithKeyConcat<T>(a: seq<T>, b: seq<T>, key: T -> int, k: int)
    ensures WithKey(a + b, key, k) == WithKey(a, key, k) + WithKey(b, key, k)
  {
    if |a| == 0 {
      assert a + b == b;
    } else {
      var ab := a + b;
      assert ab[0] == a[0] && ab[1..] == a[1..] + b;
      WithKeyConcat(a[1..], b, key, k);
      var h := if key(a[0]) == k then [a[0]] else [];
      calc {
        WithKey(ab, key, k);
        h + WithKey(a[1..] + b, key, k);
        h + (WithKey(a[1..], key, k) + WithKey(b, key, k));
        (h + WithKey(a[1..], key, k)) + WithKey(b, key, k);
      }
    }
  }

  lemma {:induction false} InsertByKeyMultiset<T>(s: seq<T>, x: T, key: T -> int)
    ensures multiset(InsertByKey(s, x, key)) == multiset(s) + multiset{x}
  {
    if |s| > 0 && key(x) >= key(s[0]) {
      InsertByKeyMultiset(s[1..], x, key);
      assert s == [s[0]] + s[1..];
    }
  }

  lemma {:induction false} InsertByKeySorted<T>(s: seq<T>, x: T, key: T -> int)
    requires SortedBy(s, key)
    ensures SortedBy(InsertByKey(s, x, key), key)
  {
    var r := InsertByKey(s, x, key);
    if |s| > 0 && key(x) >= key(s[0]) {
      var t := s[1..];
      InsertByKeySorted(t, x, key);
      assert forall m :: 0 <= m < |t| ==> key(t[m]) >= key(s[0]) by {
        forall m | 0 <= m < |t|
          ensures key(t[m]) >= key(s[0])
        {
          assert t[m] == s[m + 1];
        }
      }
      InsertByKeyAbove(t, x, key, key(s[0]));
      var rt := InsertByKey(t, x, key);
      assert r == [s[0]] + rt;
      forall i, j | 0 <= i < j < |r|
        ensures key(r[i]) <= key(r[j])
      {
        assert r[j] == rt[j - 1];
        if i > 0 {
          assert r[i] == rt[i - 1];
        }
      }
    }
  }

  /** A bound below every key of `s` and below `x`'s key stays below every key after inserting. */
  lemma {:induction false} InsertByKeyAbove<T>(s: seq<T>, x: T, key: T -> int, b: int)
    requires key(x) >= b && forall m :: 0 <= m < |s| ==> key(s[m]) >= b
    ensures forall i :: 0 <= i < |InsertByKey(s, x, key)| ==> key(InsertByKey(s, x, key)[i]) >= b
  {
    if |s| > 0 && key(x) >= key(s[0]) {
      var t := s[1..];
      assert forall m :: 0 <= m < |t| ==> t[m] == s[m + 1];
      InsertByKeyAbove(t, x, key, b);
      var r := InsertByKey(s, x, key);
      assert forall i :: 0 < i < |r| ==> r[i] == InsertByKey(t, x, key)[i - 1];
    }
  }

  /** Inserting `x` appends it to the elements of its key and leaves the others' order alone. */
  lemma {:induction false} InsertByKeyWithKey<T>(s: seq<T>, x: T, key: T -> int, k: int)
    requires SortedBy(s, key)
    ensures WithKey(InsertByKey(s, x, key), key, k) == WithKey(s, key, k) + (if key(x) == k then [x] else [])
  {
    var r := InsertByKey(s, x, key);
    if |s| == 0 {
    } else if key(x) < key(s[0]) {
      if key(x) == k {
        WithKeyNone(s, key, k);
      }
    } else {
      var t := s[1..];
      assert SortedBy(t, key);
      InsertByKeyWithKey(t, x, key, k);
      var rt := InsertByKey(t, x, key);
      assert r == [s[0]] + rt;
      assert s == [s[0]] + t;
      WithKeyConcat([s[0]], rt, key, k);
      WithKeyConcat([s[0]], t, key, k);
    }
  }

  /** A sorted list has no element with a key below its first. */
  lemma WithKeyNone<T>(s: seq<T>, key: T -> int, k: int)
    requires SortedBy(s, key) && |s| > 0 && k < key(s[0])
    ensures WithKey(s, key, k) == []
    decreases |s|
  {
    if |s| > 1 {
      WithKeyNone(s[1..], key, k);
    }
  }

  /** `list.sort(key=key)`: ordered by key, a permutation of the input, and stable. */
  lemma {:induction false} SortBySpec<T>(xs: seq<T>, key: T -> int)
    ensures SortedBy(SortBy(xs, key), key)
    ensures multiset(SortBy(xs, key)) == multiset(xs)
    ensures forall k :: WithKey(SortBy(xs, key), key, k) == WithKey(xs, key, k)
  {
    if |xs| > 0 {
      var init, last := xs[..|xs| - 1], xs[|xs| - 1];
      SortBySpec(init, key);
      InsertByKeySorted(SortBy(init, key), last, key);
      InsertByKeyMultiset(SortBy(init, key), last, key);
      assert xs == init + [last];
      forall k
        ensures WithKey(SortBy(xs, key), key, k) == WithKey(xs, key, k)
      {
        InsertByKeyWithKey(SortBy(init, key), last, key, k);
        WithKeyConcat(init, [last], key, k);
      }
    }
  }
}
