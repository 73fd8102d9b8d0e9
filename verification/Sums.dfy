/** Sums over the entries of a finite map, in any order, and over the elements of a sequence. */
module Sums {

  lemma OneFewer<K, V>(m: map<K, V>, k: K)
    requires k in m
    ensures |m - {k}| + 1 == |m|
  {
    assert m.Keys == (m - {k}).Keys + {k};
  }

  lemma OneMoreKey<K, V>(m: map<K, V>, k: K, v: V)
    requires k !in m
    ensures |m[k := v]| == |m| + 1
  {
    OneFewer(m[k := v], k);
    assert m[k := v] - {k} == m;
  }

  ghost function SumOver<K, V>(m: map<K, V>, f: V -> nat): nat
    decreases |m|
  {
    if m == map[] then 0
    else
      var k :| k in m;
      f(m[k]) + SumOver(m - {k}, f)
  }

  /** Any entry may be counted first. */
  lemma {:induction false} AnyOrder<K, V>(m: map<K, V>, f: V -> nat, k: K)
    requires k in m
    ensures SumOver(m, f) == f(m[k]) + SumOver(m - {k}, f)
    decreases |m|
  {
    var j :| j in m && SumOver(m, f) == f(m[j]) + SumOver(m - {j}, f);
    if j != k {
      AnyOrder(m - {j}, f, k);
      AnyOrder(m - {k}, f, j);
      assert m - {j} - {k} == m - {k} - {j};
    }
  }

  lemma AfterUpdate<K, V>(m: map<K, V>, f: V -> nat, k: K, v: V)
    ensures SumOver(m[k := v], f) == SumOver(m - {k}, f) + f(v)
    ensures SumOver(m[k := v], f) + (if k in m then f(m[k]) else 0) == SumOver(m, f) + f(v)
  {
    AnyOrder(m[k := v], f, k);
    assert m[k := v] - {k} == m - {k};
    if k in m {
      AnyOrder(m, f, k);
    } else {
      assert m - {k} == m;
    }
  }

  ghost function SeqSum<T>(s: seq<T>, f: T -> nat): nat {
    if s == [] then 0 else SeqSum(s[..|s| - 1], f) + f(s[|s| - 1])
  }

  lemma SeqSumOne<T>(s: seq<T>, x: T, f: T -> nat)
    ensures SeqSum(s + [x], f) == SeqSum(s, f) + f(x)
  {
    assert (s + [x])[..|s|] == s;
  }

  lemma {:induction false} SeqSumAppend<T>(a: seq<T>, b: seq<T>, f: T -> nat)
    ensures SeqSum(a + b, f) == SeqSum(a, f) + SeqSum(b, f)
  {
    if b == [] {
      assert a + b == a;
    } else {
      SeqSumAppend(a, b[..|b| - 1], f);
      assert (a + b)[..|a + b| - 1] == a + b[..|b| - 1];
    }
  }

  lemma {:induction false} SeqSumUpdate<T>(s: seq<T>, i: nat, x: T, f: T -> nat)
    requires i < |s|
    ensures SeqSum(s[i := x], f) + f(s[i]) == SeqSum(s, f) + f(x)
    ensures SeqSum(s, f) >= f(s[i])
  {
    var k := |s| - 1;
    if i < k {
      SeqSumUpdate(s[..k], i, x, f);
      assert s[i := x][..k] == s[..k][i := x];
    } else {
      assert s[i := x][..k] == s[..k];
    }
  }

  /** A positive sum has a positive element. */
  lemma {:induction false} SeqSumPositive<T>(s: seq<T>, f: T -> nat) returns (i: nat)
    requires SeqSum(s, f) > 0
    ensures i < |s| && f(s[i]) > 0
  {
    var k := |s| - 1;
    if f(s[k]) > 0 {
      i := k;
    } else {
      i := SeqSumPositive(s[..k], f);
    }
  }

  /** Element-wise equal terms have equal sums. */
  lemma {:induction false} SeqSumSame<S, T>(a: seq<S>, f: S -> nat, b: seq<T>, g: T -> nat)
    requires |a| == |b| && forall i :: 0 <= i < |a| ==> f(a[i]) == g(b[i])
    ensures SeqSum(a, f) == SeqSum(b, g)
  {
    if a != [] {
      SeqSumSame(a[..|a| - 1], f, b[..|b| - 1], g);
    }
  }
}
