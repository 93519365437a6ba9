/**
 * Python's `sorted(xs, key=k)` and `sorted(xs, key=k, reverse=True)`: a stable sort on a
 * real-valued key. Ascending order is modelled by insertion; a descending sort is the
 * ascending sort on the negated key (Python keeps equal elements in their original order
 * in both directions).
 */
module StableSort {

  predicate SortedBy<T>(s: seq<T>, key: T -> real) {
    forall i, j :: 0 <= i < j < |s| ==> key(s[i]) <= key(s[j])
  }

  /** Inserts `x` before the first element whose key is at least `key(x)`. */
  function InsertBy<T>(x: T, s: seq<T>, key: T -> real): (r: seq<T>)
    ensures |r| == |s| + 1
    ensures r[0] == x || (|s| > 0 && r[0] == s[0])
    ensures multiset(r) == multiset(s) + multiset{x}
  {
    if |s| == 0 then [x]
    else if key(x) <= key(s[0]) then [x] + s
    else
      assert s == [s[0]] + s[1..];
      [s[0]] + InsertBy(x, s[1..], key)
  }

  /** Inserting into a sorted sequence keeps it sorted. */
  lemma {:induction false} InsertBySorted<T>(x: T, s: seq<T>, key: T -> real)
    requires SortedBy(s, key)
    ensures SortedBy(InsertBy(x, s, key), key)
  {
    if |s| > 0 && key(x) > key(s[0]) {
      var rest := InsertBy(x, s[1..], key);
      InsertBySorted(x, s[1..], key);
      assert key(s[0]) <= key(rest[0]);
      assert InsertBy(x, s, key) == [s[0]] + rest;
      forall i, j | 0 <= i < j < |rest| + 1
        ensures key(([s[0]] + rest)[i]) <= key(([s[0]] + rest)[j])
      {
        if i > 0 {
          assert ([s[0]] + rest)[i] == rest[i - 1];
          assert ([s[0]] + rest)[j] == rest[j - 1];
        } else {
          assert key(s[0]) <= key(rest[j - 1]) by {
            var y := rest[j - 1];
            assert y in multiset(rest);
            if y != x {
              assert y in multiset(s[1..]);
              var m :| 0 <= m < |s[1..]| && s[1..][m] == y;
              assert s[1 + m] == y;
            }
          }
        }
      }
    }
  }

  /** `sorted(s, key=key)`. */
  function SortBy<T>(s: seq<T>, key: T -> real): (r: seq<T>)
    ensures multiset(r) == multiset(s)
    ensures SortedBy(r, key)
  {
    if |s| == 0 then []
    else
      assert s == [s[0]] + s[1..];
      InsertBySorted(s[0], SortBy(s[1..], key), key);
      InsertBy(s[0], SortBy(s[1..], key), key)
  }

  /** The elements whose key equals `k`, in order. */
  function WithKey<T>(s: seq<T>, key: T -> real, k: real): seq<T> {
    if |s| == 0 then [] else (if key(s[0]) == k then [s[0]] else []) + WithKey(s[1..], key, k)
  }

  lemma {:induction false} InsertByWithKey<T>(x: T, s: seq<T>, key: T -> real, k: real)
    ensures WithKey(InsertBy(x, s, key), key, k) == (if key(x) == k then [x] else []) + WithKey(s, key, k)
  {
    if |s| == 0 {
      assert InsertBy(x, s, key) == [x];
    } else if key(x) <= key(s[0]) {
      assert InsertBy(x, s, key) == [x] + s;
      assert ([x] + s)[1..] == s;
    } else {
      var rest := InsertBy(x, s[1..], key);
      var w0 := if key(s[0]) == k then [s[0]] else [];
      var wx := if key(x) == k then [x] else [];
      assert InsertBy(x, s, key) == [s[0]] + rest;
      assert ([s[0]] + rest)[1..] == rest;
      assert s == [s[0]] + s[1..];
      InsertByWithKey(x, s[1..], key, k);
      assert WithKey([s[0]] + rest, key, k) == w0 + (wx + WithKey(s[1..], key, k));
      assert WithKey(s, key, k) == w0 + WithKey(s[1..], key, k);
      if wx == [] {
        assert wx + WithKey(s, key, k) == WithKey(s, key, k);
        assert w0 + (wx + WithKey(s[1..], key, k)) == w0 + WithKey(s[1..], key, k);
      } else {
        assert w0 == [];
        assert w0 + (wx + WithKey(s[1..], key, k)) == wx + WithKey(s[1..], key, k);
      }
    }
  }

  /** Stability: among elements with equal keys the original order is kept. */
  lemma {:induction false} SortByStable<T>(s: seq<T>, key: T -> real)
    ensures forall k :: WithKey(SortBy(s, key), key, k) == WithKey(s, key, k)
  {
    if |s| > 0 {
      SortByStable(s[1..], key);
      forall k
        ensures WithKey(SortBy(s, key), key, k) == WithKey(s, key, k)
      {
        InsertByWithKey(s[0], SortBy(s[1..], key), key, k);
      }
    }
  }
}
