/** Generic sequence and map helpers shared by the pipeline stages. */
module Seqs {

  /** The elements of `s` that satisfy `p`, in order (a list comprehension with an `if`). */
  function Filter<T>(s: seq<T>, p: T -> bool): (r: seq<T>)
    ensures |r| <= |s|
    ensures forall i :: 0 <= i < |r| ==> p(r[i])
  {
    if |s| == 0 then [] else (if p(s[0]) then [s[0]] else []) + Filter(s[1..], p)
  }

  lemma FilterConcat<T>(a: seq<T>, b: seq<T>, p: T -> bool)
    ensures Filter(a + b, p) == Filter(a, p) + Filter(b, p)
  {
    if |a| == 0 {
      assert a + b == b;
    } else {
      assert (a + b)[0] == a[0];
      assert (a + b)[1..] == a[1..] + b;
      FilterConcat(a[1..], b, p);
    }
  }

  /** No value occurs twice. */
  predicate Distinct<T(==)>(s: seq<T>) {
    forall i, j :: 0 <= i < j < |s| ==> s[i] != s[j]
  }

  /** Filtering yields nothing exactly when no element satisfies the predicate. */
  lemma {:induction false} FilterEmpty<T>(s: seq<T>, p: T -> bool)
    ensures |Filter(s, p)| == 0 <==> forall i :: 0 <= i < |s| ==> !p(s[i])
  {
    if |s| > 0 {
      FilterEmpty(s[1..], p);
      assert forall i :: 1 <= i < |s| ==> s[1..][i - 1] == s[i];
    }
  }

  /** Filtering only keeps elements of the input. */
  lemma {:induction false} FilterSubset<T>(s: seq<T>, p: T -> bool)
    ensures forall x :: x in Filter(s, p) ==> x in s
  {
    if |s| > 0 {
      FilterSubset(s[1..], p);
      var first := if p(s[0]) then [s[0]] else [];
      assert Filter(s, p) == first + Filter(s[1..], p);
    }
  }

  /** Multiplicities after filtering: the kept values keep their count, the others vanish. */
  lemma FilterMultiplicity<T>(s: seq<T>, p: T -> bool, x: T)
    ensures multiset(Filter(s, p))[x] == if p(x) then multiset(s)[x] else 0
  {
    if |s| > 0 {
      assert s == [s[0]] + s[1..];
      FilterMultiplicity(s[1..], p, x);
    }
  }

  /** Multisets with the same multiplicities are equal. */
  lemma MultisetExt<T>(a: multiset<T>, b: multiset<T>)
    requires forall x :: a[x] == b[x]
    ensures a == b
  {
  }

  /** Filtering two permutations of each other yields two permutations of each other. */
  lemma {:induction false} FilterPermutation<T>(a: seq<T>, b: seq<T>, p: T -> bool)
    requires multiset(a) == multiset(b)
    ensures multiset(Filter(a, p)) == multiset(Filter(b, p))
  {
    forall x
      ensures multiset(Filter(a, p))[x] == multiset(Filter(b, p))[x]
    {
      FilterMultiplicity(a, p, x);
      FilterMultiplicity(b, p, x);
      assert multiset(a)[x] == multiset(b)[x];
    }
    MultisetExt(multiset(Filter(a, p)), multiset(Filter(b, p)));
  }

  /** `[f(x) for x in s]`. */
  function Map<T, U>(s: seq<T>, f: T -> U): (r: seq<U>)
    ensures |r| == |s|
    ensures forall i :: 0 <= i < |s| ==> r[i] == f(s[i])
  {
    if |s| == 0 then [] else [f(s[0])] + Map(s[1..], f)
  }

  lemma MapConcat<T, U>(a: seq<T>, b: seq<T>, f: T -> U)
    ensures Map(a + b, f) == Map(a, f) + Map(b, f)
  {
  }

  /** Removing the element at `k` removes one occurrence of it. */
  lemma MultisetRemove<T>(b: seq<T>, k: nat)
    requires k < |b|
    ensures multiset(b[..k] + b[k + 1..]) + multiset{b[k]} == multiset(b)
  {
    assert b == b[..k] + [b[k]] + b[k + 1..];
  }

  /** Adding the same element to two multisets keeps them equal only if they were equal. */
  lemma MultisetCancel<T>(a: multiset<T>, b: multiset<T>, x: T)
    requires a + multiset{x} == b + multiset{x}
    ensures a == b
  {
    forall y
      ensures a[y] == b[y]
    {
      assert (a + multiset{x})[y] == a[y] + multiset{x}[y];
      assert (b + multiset{x})[y] == b[y] + multiset{x}[y];
    }
    MultisetExt(a, b);
  }

  /** Mapping commutes with removing the element at `k`. */
  lemma MapRemove<T, U>(b: seq<T>, k: nat, f: T -> U)
    requires k < |b|
    ensures Map(b, f)[..k] + Map(b, f)[k + 1..] == Map(b[..k] + b[k + 1..], f)
  {
    var l := Map(b, f)[..k] + Map(b, f)[k + 1..];
    var r := Map(b[..k] + b[k + 1..], f);
    assert |l| == |r|;
    forall i | 0 <= i < |l|
      ensures l[i] == r[i]
    {
      if i < k {
        assert l[i] == f(b[i]);
      } else {
        assert l[i] == f(b[i + 1]);
      }
    }
  }

  /** Mapping two permutations of each other yields two permutations of each other. */
  lemma {:induction false} MapPermutation<T, U>(a: seq<T>, b: seq<T>, f: T -> U)
    requires multiset(a) == multiset(b)
    ensures multiset(Map(a, f)) == multiset(Map(b, f))
    decreases |a|
  {
    if |a| == 0 {
      assert |b| == |multiset(b)| == 0;
    } else {
      var x := a[0];
      assert x in multiset(b);
      var k :| 0 <= k < |b| && b[k] == x;
      var rest := b[..k] + b[k + 1..];
      assert a == [x] + a[1..];
      MultisetRemove(b, k);
      MultisetCancel(multiset(a[1..]), multiset(rest), x);
      MapPermutation(a[1..], rest, f);
      var mb := Map(b, f);
      MultisetRemove(mb, k);
      MapRemove(b, k, f);
      assert Map(a, f) == [f(x)] + Map(a[1..], f);
    }
  }

  lemma ConcatAssoc<T>(a: seq<T>, b: seq<T>, c: seq<T>)
    ensures (a + b) + c == a + (b + c)
  {
  }

  /** Concatenation of a sequence of sequences (`list.extend` in a loop). */
  function Flatten<T>(ss: seq<seq<T>>): (r: seq<T>)
  {
    if |ss| == 0 then [] else ss[0] + Flatten(ss[1..])
  }

  lemma {:induction false} FlattenConcat<T>(a: seq<seq<T>>, b: seq<seq<T>>)
    ensures Flatten(a + b) == Flatten(a) + Flatten(b)
  {
    if |a| == 0 {
      assert a + b == b;
    } else {
      assert (a + b)[0] == a[0];
      assert (a + b)[1..] == a[1..] + b;
      FlattenConcat(a[1..], b);
    }
  }

  /** Every element of a flattened sequence comes from some inner sequence. */
  lemma {:induction false} FlattenIndex<T>(ss: seq<seq<T>>, a: nat) returns (i: nat, j: nat)
    requires a < |Flatten(ss)|
    ensures i < |ss| && j < |ss[i]| && Flatten(ss)[a] == ss[i][j]
    decreases |ss|
  {
    assert |ss| > 0;
    if a < |ss[0]| {
      i, j := 0, a;
    } else {
      var i', j' := FlattenIndex(ss[1..], a - |ss[0]|);
      i, j := i' + 1, j';
    }
  }

  /** Concatenation of the pieces `f` makes of each element (a list built by conditional `append`). */
  function FlatMap<T, U>(s: seq<T>, f: T -> seq<U>): (r: seq<U>)
    decreases |s|
  {
    if |s| == 0 then [] else f(s[0]) + FlatMap(s[1..], f)
  }

  /**
   * When `f` makes exactly one item of the elements satisfying `p` and nothing of the
   * others, the flat map lists the items of the kept elements, in order.
   */
  lemma {:induction false} FlatMapKeeps<T, U>(s: seq<T>, f: T -> seq<U>, p: T -> bool)
    requires forall x :: |f(x)| == (if p(x) then 1 else 0)
    ensures |FlatMap(s, f)| == |Filter(s, p)|
    ensures forall i :: 0 <= i < |Filter(s, p)| ==>
      p(Filter(s, p)[i]) && |f(Filter(s, p)[i])| == 1 && FlatMap(s, f)[i] == f(Filter(s, p)[i])[0]
    decreases |s|
  {
    if |s| > 0 {
      FlatMapKeeps(s[1..], f, p);
      var u' := Filter(s[1..], p);
      var r' := FlatMap(s[1..], f);
      assert FlatMap(s, f) == f(s[0]) + r';
      if p(s[0]) {
        assert Filter(s, p) == [s[0]] + u';
      } else {
        assert Filter(s, p) == u';
        assert f(s[0]) == [];
      }
    }
  }

  /** Sum of reals (a running `+=` starting from zero). */
  function Sum(xs: seq<real>): real
  {
    if |xs| == 0 then 0.0 else xs[0] + Sum(xs[1..])
  }

  /** Sum of the values of a finite map. */
  ghost function SumValues<K>(m: map<K, nat>): nat
    decreases |m.Keys|
  {
    if m.Keys == {} then 0
    else
      var k :| k in m;
      assert m.Keys - {k} < m.Keys;
      m[k] + SumValues(m - {k})
  }

  lemma {:induction false} SumValuesRemove<K>(m: map<K, nat>, k: K)
    requires k in m
    ensures SumValues(m) == m[k] + SumValues(m - {k})
    decreases |m.Keys|
  {
    var j :| j in m && SumValues(m) == m[j] + SumValues(m - {j});
    if j != k {
      assert (m - {j}).Keys < m.Keys;
      assert (m - {k}).Keys < m.Keys;
      SumValuesRemove(m - {j}, k);
      SumValuesRemove(m - {k}, j);
      assert m - {j} - {k} == m - {k} - {j};
    }
  }

  /** Incrementing one key's count (`d[k] = d.get(k, 0) + 1`) raises the total by one. */
  lemma SumValuesIncrement<K>(m: map<K, nat>, k: K)
    ensures SumValues(m[k := (if k in m then m[k] else 0) + 1]) == SumValues(m) + 1
  {
    var m' := m[k := (if k in m then m[k] else 0) + 1];
    SumValuesRemove(m', k);
    if k in m {
      SumValuesRemove(m, k);
      assert m' - {k} == m - {k};
    } else {
      assert m' - {k} == m;
    }
  }
}
