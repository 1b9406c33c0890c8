/** Sums over index sequences, and what makes such a sum independent of the order of the indices. */
module Seqs {

  /** No element occurs twice. */
  ghost predicate Distinct(s: seq<nat>) {
    forall x: nat :: multiset(s)[x] <= 1
  }

  predicate Below(s: seq<nat>, n: nat) {
    forall i :: 0 <= i < |s| ==> s[i] < n
  }

  /** The sum of `v[i]` over the indices `i` listed in `x`, in the order of a forward loop. */
  function Sum(x: seq<nat>, v: seq<real>): real
    requires Below(x, |v|)
  {
    if x == [] then 0.0 else Sum(x[..|x| - 1], v) + v[x[|x| - 1]]
  }

  lemma SumSnoc(x: seq<nat>, k: nat, v: seq<real>)
    requires Below(x, |v|) && k < |x|
    ensures Sum(x[..k + 1], v) == Sum(x[..k], v) + v[x[k]]
  {
    assert x[..k + 1][..k] == x[..k];
  }

  lemma {:induction false} SumConcat(a: seq<nat>, b: seq<nat>, v: seq<real>)
    requires Below(a, |v|) && Below(b, |v|)
    ensures Below(a + b, |v|)
    ensures Sum(a + b, v) == Sum(a, v) + Sum(b, v)
  {
    if b == [] {
      assert a + b == a;
    } else {
      var b' := b[..|b| - 1];
      SumConcat(a, b', v);
      assert (a + b)[..|a + b| - 1] == a + b';
    }
  }

  lemma BelowPermuted(a: seq<nat>, b: seq<nat>, n: nat)
    requires multiset(a) == multiset(b) && Below(a, n)
    ensures Below(b, n)
  {
    forall i | 0 <= i < |b|
      ensures b[i] < n
    {
      assert b[i] in multiset(b);
      assert b[i] in a;
    }
  }

  lemma SumMiddle(b1: seq<nat>, e: nat, b2: seq<nat>, v: seq<real>)
    requires Below(b1 + [e] + b2, |v|)
    ensures Below(b1 + b2, |v|) && e < |v|
    ensures Sum(b1 + [e] + b2, v) == Sum(b1 + b2, v) + v[e]
  {
    var b := b1 + [e] + b2;
    assert b[|b1|] == e;
    assert forall i :: 0 <= i < |b1| ==> b1[i] == b[i];
    assert forall i :: 0 <= i < |b2| ==> b2[i] == b[|b1| + 1 + i];
    SumConcat(b1, b2, v);
    SumConcat(b1 + [e], b2, v);
    assert (b1 + [e])[..|b1|] == b1;
  }

  lemma MultisetMiddle<T>(a: seq<T>, e: T, b1: seq<T>, b2: seq<T>)
    requires multiset(a + [e]) == multiset(b1 + [e] + b2)
    ensures multiset(a) == multiset(b1 + b2)
  {
    assert multiset(a + [e]) == multiset(a) + multiset{e};
    assert multiset(b1 + [e] + b2) == multiset(b1 + b2) + multiset{e};
    assert multiset(a) == multiset(a + [e]) - multiset{e};
    assert multiset(b1 + b2) == multiset(b1 + [e] + b2) - multiset{e};
  }

  /** A sum does not depend on the order of its indices. */
  lemma {:induction false} SumPermuted(a: seq<nat>, b: seq<nat>, v: seq<real>)
    requires multiset(a) == multiset(b) && Below(a, |v|)
    ensures Below(b, |v|)
    ensures Sum(a, v) == Sum(b, v)
    decreases |a|
  {
    BelowPermuted(a, b, |v|);
    if a == [] {
      assert |multiset(b)| == 0;
    } else {
      var a', e := a[..|a| - 1], a[|a| - 1];
      assert a == a' + [e];
      assert e in multiset(b);
      var j :| 0 <= j < |b| && b[j] == e;
      var b1, b2 := b[..j], b[j + 1..];
      assert b == b1 + [e] + b2;
      MultisetMiddle(a', e, b1, b2);
      SumPermuted(a', b1 + b2, v);
      SumMiddle(b1, e, b2, v);
    }
  }

  lemma CountZero<T>(s: seq<T>, x: T)
    ensures x !in s ==> multiset(s)[x] == 0
    ensures x in s ==> multiset(s)[x] >= 1
  {
    assert x in s <==> x in multiset(s);
  }

  lemma DistinctSnoc(s: seq<nat>, e: nat)
    requires Distinct(s) && e !in s
    ensures Distinct(s + [e])
  {
    CountZero(s, e);
    forall x: nat
      ensures multiset(s + [e])[x] <= 1
    {
      assert multiset(s)[x] <= 1;
    }
  }

  /** In a duplicate-free sequence an element is on one side of a cut only. */
  lemma DistinctSides(s: seq<nat>, k: nat, e: nat)
    requires Distinct(s) && k <= |s| && e in s
    ensures e in s[..k] <==> e !in s[k..]
  {
    assert s == s[..k] + s[k..];
    assert multiset(s[..k] + s[k..]) == multiset(s[..k]) + multiset(s[k..]);
    assert multiset(s)[e] <= 1;
    CountZero(s[..k], e);
    CountZero(s[k..], e);
  }

  lemma DistinctSlice(x: seq<nat>, a: nat, b: nat)
    requires Distinct(x) && a <= b <= |x|
    ensures Distinct(x[a..b])
  {
    assert x == x[..a] + x[a..b] + x[b..];
    forall e: nat
      ensures multiset(x[a..b])[e] <= 1
    {
      assert multiset(x)[e] <= 1;
      assert multiset(x[..a] + x[a..b] + x[b..]) == multiset(x[..a]) + multiset(x[a..b]) + multiset(x[b..]);
    }
  }

  lemma ThreeSlices<T>(x: seq<T>, a: nat, b: nat)
    requires a <= b <= |x|
    ensures x == x[..a] + x[a..b] + x[b..]
  {
  }

  function Range(n: nat): (r: seq<nat>)
    ensures |r| == n && forall i :: 0 <= i < n ==> r[i] == i
  {
    seq(n, i => i)
  }

  ghost predicate IsPermutation(s: seq<nat>, n: nat) {
    multiset(s) == multiset(Range(n))
  }

  lemma PermutationMembers(s: seq<nat>, n: nat)
    requires IsPermutation(s, n)
    ensures |s| == n && Below(s, n) && Distinct(s)
    ensures forall i: nat :: i in s <==> i < n
  {
    RangeIsDistinct(n);
    BelowPermuted(Range(n), s, n);
    assert |s| == |multiset(s)| && n == |multiset(Range(n))|;
    forall i: nat
      ensures i in s <==> i < n
    {
      CountZero(s, i);
      CountZero(Range(n), i);
      if i < n {
        assert Range(n)[i] == i;
      }
    }
  }

  ghost function Members(s: seq<nat>): set<nat> {
    set i | i in s
  }

  lemma {:induction false} MembersSize(s: seq<nat>)
    requires Distinct(s)
    ensures |Members(s)| == |s|
  {
    if s == [] {
      assert Members(s) == {};
    } else {
      var k := |s| - 1;
      DistinctSlice(s, 0, k);
      assert s[0..k] == s[..k];
      MembersSize(s[..k]);
      DistinctSides(s, k, s[k]);
      assert s[k] in s[k..];
      assert Members(s) == Members(s[..k]) + {s[k]};
    }
  }

  /** A sum only looks at the listed positions. */
  lemma {:induction false} SumSame(x: seq<nat>, v: seq<real>, w: seq<real>)
    requires Below(x, |v|) && Below(x, |w|)
    requires forall k :: 0 <= k < |x| ==> v[x[k]] == w[x[k]]
    ensures Sum(x, v) == Sum(x, w)
  {
    if x != [] {
      SumSame(x[..|x| - 1], v, w);
    }
  }

  lemma {:induction false} RangeIsDistinct(n: nat)
    ensures Distinct(Range(n))
  {
    if n > 0 {
      var m: nat := n - 1;
      RangeIsDistinct(m);
      assert Range(n) == Range(m) + [m];
      CountZero(Range(m), m);
      assert multiset(Range(m) + [m]) == multiset(Range(m)) + multiset([m]);
    }
  }
}
