/**
 * What a split of a tree node is: every cut between two consecutive known feature values has a
 * cost, computed from scratch, and the node is split at the first cheapest cut.
 */
module SplitSearch {
  import opened Options
  import opened Seqs
  import opened Values
  import opened Orderings

  /** target * weight, target * target * weight and weight: of one sample, or summed over several. */
  datatype CacheValue = CacheValue(s: real, ss: real, c: real)

  function S(values: seq<CacheValue>): (v: seq<real>)
    ensures |v| == |values| && forall i :: 0 <= i < |v| ==> v[i] == values[i].s
  {
    seq(|values|, i requires 0 <= i < |values| => values[i].s)
  }

  function SS(values: seq<CacheValue>): (v: seq<real>)
    ensures |v| == |values| && forall i :: 0 <= i < |v| ==> v[i] == values[i].ss
  {
    seq(|values|, i requires 0 <= i < |values| => values[i].ss)
  }

  function C(values: seq<CacheValue>): (v: seq<real>)
    ensures |v| == |values| && forall i :: 0 <= i < |v| ==> v[i] == values[i].c
  {
    seq(|values|, i requires 0 <= i < |values| => values[i].c)
  }

  function Total(x: seq<nat>, values: seq<CacheValue>): CacheValue
    requires Below(x, |values|)
  {
    CacheValue(Sum(x, S(values)), Sum(x, SS(values)), Sum(x, C(values)))
  }

  function Plus(a: CacheValue, b: CacheValue): CacheValue {
    CacheValue(a.s + b.s, a.ss + b.ss, a.c + b.c)
  }

  function Minus(a: CacheValue, b: CacheValue): CacheValue {
    CacheValue(a.s - b.s, a.ss - b.ss, a.c - b.c)
  }

  lemma TotalSnoc(x: seq<nat>, k: nat, values: seq<CacheValue>)
    requires Below(x, |values|) && k < |x|
    ensures Total(x[..k + 1], values) == Plus(Total(x[..k], values), values[x[k]])
  {
    SumSnoc(x, k, S(values));
    SumSnoc(x, k, SS(values));
    SumSnoc(x, k, C(values));
  }

  lemma TotalConcat(a: seq<nat>, b: seq<nat>, values: seq<CacheValue>)
    requires Below(a, |values|) && Below(b, |values|)
    ensures Below(a + b, |values|)
    ensures Total(a + b, values) == Plus(Total(a, values), Total(b, values))
  {
    SumConcat(a, b, S(values));
    SumConcat(a, b, SS(values));
    SumConcat(a, b, C(values));
  }

  lemma TotalPermuted(a: seq<nat>, b: seq<nat>, values: seq<CacheValue>)
    requires multiset(a) == multiset(b) && Below(a, |values|)
    ensures Below(b, |values|)
    ensures Total(a, values) == Total(b, values)
  {
    SumPermuted(a, b, S(values));
    SumPermuted(a, b, SS(values));
    SumPermuted(a, b, C(values));
  }

  /** One step of the sweep moves sample `x[i]` from the right sums to the left sums. */
  lemma SweepStep(x: seq<nat>, u: nat, i: nat, values: seq<CacheValue>)
    requires Below(x, |values|) && u <= i < |x|
    ensures Total(x[u..i + 1], values) == Plus(Total(x[u..i], values), values[x[i]])
    ensures Total(x[i + 1..], values) == Minus(Total(x[i..], values), values[x[i]])
  {
    assert x[u..][..i + 1 - u] == x[u..i + 1] && x[u..][..i - u] == x[u..i];
    TotalSnoc(x[u..], i - u, values);
    assert x[i..] == [x[i]] + x[i + 1..];
    TotalConcat([x[i]], x[i + 1..], values);
    TotalSnoc([x[i]], 0, values);
    assert [x[i]][..1] == [x[i]] && [x[i]][..0] == [];
  }

  // ---- the cost of a cut -----------------------------------------------------------------------

  /** The weighted squared deviation from the mean, without the clamp. */
  function RawCost(t: CacheValue): real {
    if t.c > 1.0 then t.ss - t.s * t.s / t.c else 0.0
  }

  function Cost(t: CacheValue): real {
    if RawCost(t) < 0.0 then 0.0 else RawCost(t)
  }

  /** The length of the prefix of samples whose feature value is unknown. */
  function UnknownCount(o: seq<Entry>): (u: nat)
    ensures u <= |o|
    ensures forall k :: 0 <= k < u ==> o[k].value == UNKNOWN
    ensures u < |o| ==> o[u].value != UNKNOWN
  {
    if o == [] || o[0].value != UNKNOWN then 0 else 1 + UnknownCount(o[1..])
  }

  /** A cut behind position `i`: between two known values that are not almost equal. */
  predicate IsCut(o: seq<Entry>, i: int) {
    UnknownCount(o) <= i < |o| - 1 && !AlmostEqual(o[i].value, o[i + 1].value)
  }

  /** Unknown samples, known samples up to the cut, and the rest, each summed from scratch. */
  function CutCost(o: seq<Entry>, values: seq<CacheValue>, i: int): real
    requires IndicesBelow(o, |values|) && UnknownCount(o) <= i < |o|
  {
    var x, u := Indices(o), UnknownCount(o);
    Cost(Total(x[..u], values)) + Cost(Total(x[u..i + 1], values)) + Cost(Total(x[i + 1..], values))
  }

  function Threshold(o: seq<Entry>, i: int): real
    requires IsCut(o, i)
  {
    (o[i].value + o[i + 1].value) / 2.0
  }

  /** The first cheapest cut among the positions before `k`. */
  function BestCut(o: seq<Entry>, values: seq<CacheValue>, k: nat): (b: Option<nat>)
    requires IndicesBelow(o, |values|) && k <= |o|
    ensures b.Some? ==> IsCut(o, b.value) && b.value < k
  {
    if k == 0 then None
    else
      var b := BestCut(o, values, k - 1);
      if IsCut(o, k - 1) && (b.None? || CutCost(o, values, b.value) > CutCost(o, values, k - 1))
      then Some(k - 1) else b
  }

  /** `i` is the first of the cheapest cuts before `k`. */
  ghost predicate IsFirstCheapest(o: seq<Entry>, values: seq<CacheValue>, k: nat, i: nat)
    requires IndicesBelow(o, |values|) && k <= |o|
  {
    && i < k && IsCut(o, i)
    && (forall j :: 0 <= j < k && IsCut(o, j) ==> CutCost(o, values, i) <= CutCost(o, values, j))
    && (forall j :: 0 <= j < i && IsCut(o, j) ==> CutCost(o, values, i) < CutCost(o, values, j))
  }

  /** The running search finds a cut iff there is one, and then the first cheapest. */
  lemma {:induction false} BestCutIsFirstCheapest(o: seq<Entry>, values: seq<CacheValue>, k: nat)
    requires IndicesBelow(o, |values|) && k <= |o|
    ensures var b := BestCut(o, values, k);
            && (b.None? <==> forall j :: 0 <= j < k ==> !IsCut(o, j))
            && (b.Some? ==> IsFirstCheapest(o, values, k, b.value))
  {
    hide IsCut, CutCost;
    if k > 0 {
      BestCutIsFirstCheapest(o, values, k - 1);
    }
  }

  /** `a > b`, with a missing impurity above every number. */
  predicate Worse(a: Option<real>, b: Option<real>) {
    b.Some? && (a.None? || a.value > b.value)
  }

  /** Among the first `k` impurities, the position of the first smallest one. */
  function FirstSmallest(imps: seq<Option<real>>, k: nat): (b: Option<nat>)
    requires k <= |imps|
    ensures b.Some? ==> b.value < k && imps[b.value].Some?
  {
    if k == 0 then None
    else
      var b := FirstSmallest(imps, k - 1);
      if Worse(if b.None? then None else imps[b.value], imps[k - 1]) then Some(k - 1) else b
  }

  lemma FirstSmallestStart(imps: seq<Option<real>>)
    ensures FirstSmallest(imps, 0) == None
  {
  }

  lemma FirstSmallestStep(imps: seq<Option<real>>, k: nat)
    requires k < |imps|
    ensures var b := FirstSmallest(imps, k);
            FirstSmallest(imps, k + 1) == if Worse(if b.None? then None else imps[b.value], imps[k]) then Some(k) else b
  {
  }

  lemma {:induction false} FirstSmallestIsMinimum(imps: seq<Option<real>>, k: nat)
    requires k <= |imps|
    ensures var b := FirstSmallest(imps, k);
            if b.None? then forall j :: 0 <= j < k ==> imps[j].None?
            else
              && (forall j :: 0 <= j < k ==> !Worse(imps[b.value], imps[j]))
              && (forall j :: 0 <= j < b.value ==> Worse(imps[j], imps[b.value]))
  {
    if k > 0 {
      FirstSmallestIsMinimum(imps, k - 1);
    }
  }

  // ---- the parts of a cut ----------------------------------------------------------------------

  datatype Split = Split(left: seq<nat>, right: seq<nat>, unknown: seq<nat>, feature: nat, threshold: real)

  /** The split at cut `i`: the known prefix the sweep scored, the suffix, and the unknown samples. */
  function CutAt(o: seq<Entry>, feature: nat, i: nat): Split
    requires IsCut(o, i)
  {
    var x, u := Indices(o), UnknownCount(o);
    Split(x[u..i + 1], x[i + 1..], x[..u], feature, Threshold(o, i))
  }

  ghost predicate AboveUnknown(column: seq<real>) {
    forall i :: 0 <= i < |column| ==> UNKNOWN <= column[i]
  }

  lemma SortedUpTo(o: seq<Entry>, i: nat)
    requires Sorted(o) && i < |o|
    ensures forall k :: 0 <= k < i ==> o[k].value <= o[i].value
  {
  }

  lemma CutValues(o: seq<Entry>, i: nat)
    requires Sorted(o) && IsCut(o, i) && forall k :: 0 <= k < |o| ==> UNKNOWN <= o[k].value
    ensures var u := UnknownCount(o);
            && (forall k :: 0 <= k < u ==> o[k].value == UNKNOWN)
            && (forall k :: u <= k <= i ==> UNKNOWN < o[k].value < Threshold(o, i))
            && (forall k :: i < k < |o| ==> UNKNOWN < Threshold(o, i) < o[k].value)
  {
    hide Sorted;
    SortedUpTo(o, i);
    SortedFrom(o, i + 1);
    SortedFrom(o, UnknownCount(o));
    assert o[i].value < Threshold(o, i) < o[i + 1].value by { SortedUpTo(o, i + 1); }
  }

  ghost predicate Separates(s: Split, column: seq<real>) {
    && (forall k :: 0 <= k < |s.left| ==> s.left[k] < |column| && UNKNOWN < column[s.left[k]] < s.threshold)
    && (forall k :: 0 <= k < |s.right| ==> s.right[k] < |column| && UNKNOWN < s.threshold < column[s.right[k]])
    && (forall k :: 0 <= k < |s.unknown| ==> s.unknown[k] < |column| && column[s.unknown[k]] == UNKNOWN)
  }

  lemma CutSeparates(o: seq<Entry>, column: seq<real>, feature: nat, i: nat)
    requires Matches(o, column) && AboveUnknown(column) && Sorted(o) && IsCut(o, i)
    ensures Separates(CutAt(o, feature, i), column)
  {
    CutValues(o, i);
    var u, s := UnknownCount(o), CutAt(o, feature, i);
    forall k | 0 <= k < |s.left|
      ensures s.left[k] < |column| && UNKNOWN < column[s.left[k]] < s.threshold
    {
      assert s.left[k] == o[u + k].index;
    }
    forall k | 0 <= k < |s.right|
      ensures s.right[k] < |column| && UNKNOWN < s.threshold < column[s.right[k]]
    {
      assert s.right[k] == o[i + 1 + k].index;
    }
    forall k | 0 <= k < |s.unknown|
      ensures s.unknown[k] < |column| && column[s.unknown[k]] == UNKNOWN
    {
      assert s.unknown[k] == o[k].index;
    }
  }

  /** The parts partition `samples`, and the threshold separates the known two, which are not empty. */
  ghost predicate IsPartition(s: Split, samples: seq<nat>, column: seq<real>) {
    && multiset(samples) == multiset(s.unknown + s.left + s.right)
    && Distinct(s.left) && Distinct(s.right)
    && s.left != [] && s.right != []
    && Separates(s, column)
  }

  lemma PartitionMembers(s: Split, samples: seq<nat>, column: seq<real>)
    requires IsPartition(s, samples, column) && Distinct(samples)
    ensures forall i :: i in samples <==> i in s.unknown || i in s.left || i in s.right
    ensures forall i :: i in s.left ==> i !in s.right && i !in s.unknown
    ensures forall i :: i in s.right ==> i !in s.unknown
  {
    hide Separates;
    forall i: nat
      ensures i in samples <==> i in s.unknown || i in s.left || i in s.right
      ensures i in s.left ==> i !in s.right && i !in s.unknown
      ensures i in s.right ==> i !in s.unknown
    {
      assert multiset(s.unknown + s.left + s.right) == multiset(s.unknown) + multiset(s.left) + multiset(s.right);
      CountZero(samples, i);
      CountZero(s.unknown, i);
      CountZero(s.left, i);
      CountZero(s.right, i);
      assert multiset(samples)[i] <= 1;
    }
  }

  lemma CutDistinct(o: seq<Entry>, feature: nat, i: nat)
    requires Distinct(Indices(o)) && IsCut(o, i)
    ensures var s := CutAt(o, feature, i);
            Distinct(s.left) && Distinct(s.right) && s.left != [] && s.right != []
  {
    DistinctSlice(Indices(o), UnknownCount(o), i + 1);
    DistinctSlice(Indices(o), i + 1, |o|);
    assert Indices(o)[i + 1..] == Indices(o)[i + 1..|o|];
  }

  lemma CutPartitions(o: seq<Entry>, column: seq<real>, samples: seq<nat>, feature: nat, i: nat)
    requires Matches(o, column) && AboveUnknown(column) && Sorted(o) && Distinct(Indices(o)) && IsCut(o, i)
    requires multiset(Indices(o)) == multiset(samples)
    ensures IsPartition(CutAt(o, feature, i), samples, column)
  {
    CutDistinct(o, feature, i);
    CutSeparates(o, column, feature, i);
    ThreeSlices(Indices(o), UnknownCount(o), i + 1);
  }

  /** With non-negative weights no cost is negative: the clamps in the sweep never fire. */
  lemma ClampNeverFires(x: seq<nat>, values: seq<CacheValue>, target: seq<real>)
    requires Below(x, |values|) && |target| == |values|
    requires forall i :: 0 <= i < |values| ==> ValueOf(target[i], values[i].c) == values[i] && values[i].c >= 0.0
    ensures RawCost(Total(x, values)) >= 0.0
    ensures Cost(Total(x, values)) == RawCost(Total(x, values))
  {
    CauchySchwarz(x, values, target);
    var t := Total(x, values);
    if t.c > 1.0 {
      assert t.s * t.s / t.c <= t.ss by { DivideBound(t.s * t.s, t.c, t.ss); }
    }
  }

  function ValueOf(target: real, weight: real): CacheValue {
    CacheValue(target * weight, target * (target * weight), weight)
  }

  lemma DivideBound(a: real, c: real, b: real)
    requires c > 0.0 && a <= c * b
    ensures a / c <= b
  {
  }

  /** Adding one more weighted sample keeps (sum wt)^2 <= (sum w)(sum wtt). */
  lemma CauchyStep(t: CacheValue, y: real, w: real)
    requires t.c >= 0.0 && t.ss >= 0.0 && w >= 0.0 && t.s * t.s <= t.c * t.ss
    ensures var r := Plus(t, ValueOf(y, w)); r.c >= 0.0 && r.ss >= 0.0 && r.s * r.s <= r.c * r.ss
  {
    var yw := y * w;
    var yy := y * y;
    assert yy >= 0.0;
    assert y * yw == w * yy;
    assert w * yy >= 0.0;
    // w * (t.ss - 2 y s + c y^2) >= 0, because c times the bracket is at least (c y - s)^2
    var q := t.ss - 2.0 * y * t.s + t.c * yy;
    assert q >= 0.0 by { Quadratic(t, y); }
    assert w * q >= 0.0;
    assert w * q == w * t.ss - 2.0 * yw * t.s + t.c * (w * yy) by {
      assert w * q == w * t.ss - w * (2.0 * y * t.s) + w * (t.c * yy);
      assert w * (2.0 * y * t.s) == 2.0 * yw * t.s;
      assert w * (t.c * yy) == t.c * (w * yy);
    }
    assert (t.s + yw) * (t.s + yw) == t.s * t.s + 2.0 * yw * t.s + yw * yw;
    assert (t.c + w) * (t.ss + w * yy) == t.c * t.ss + t.c * (w * yy) + w * t.ss + w * (w * yy);
    assert yw * yw == w * (w * yy);
  }

  lemma NonNegativeFactor(c: real, q: real)
    requires c > 0.0 && c * q >= 0.0
    ensures q >= 0.0
  {
  }

  lemma Quadratic(t: CacheValue, y: real)
    requires t.c >= 0.0 && t.ss >= 0.0 && t.s * t.s <= t.c * t.ss
    ensures t.ss - 2.0 * y * t.s + t.c * (y * y) >= 0.0
  {
    var q := t.ss - 2.0 * y * t.s + t.c * (y * y);
    var d := t.c * y - t.s;
    if t.c > 0.0 {
      assert t.c * q == t.c * t.ss - t.s * t.s + d * d by {
        assert d * d == (t.c * y) * (t.c * y) - 2.0 * (t.c * y) * t.s + t.s * t.s;
        assert (t.c * y) * (t.c * y) == t.c * (t.c * (y * y));
        assert t.c * (2.0 * y * t.s) == 2.0 * (t.c * y) * t.s;
        assert t.c * q == t.c * t.ss - t.c * (2.0 * y * t.s) + t.c * (t.c * (y * y));
      }
      assert d * d >= 0.0;
      NonNegativeFactor(t.c, q);
    } else {
      assert t.c * t.ss == 0.0;
      if t.s != 0.0 {
        assert t.s * t.s > 0.0;
      }
    }
  }

  lemma {:induction false} CauchySchwarz(x: seq<nat>, values: seq<CacheValue>, target: seq<real>)
    requires Below(x, |values|) && |target| == |values|
    requires forall i :: 0 <= i < |values| ==> ValueOf(target[i], values[i].c) == values[i] && values[i].c >= 0.0
    ensures var t := Total(x, values); t.c >= 0.0 && t.ss >= 0.0 && t.s * t.s <= t.c * t.ss
  {
    if x != [] {
      var k := |x| - 1;
      CauchySchwarz(x[..k], values, target);
      TotalSnoc(x, k, values);
      assert x[..k + 1] == x;
      CauchyStep(Total(x[..k], values), target[x[k]], values[x[k]].c);
    }
  }
}
