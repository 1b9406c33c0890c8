/**
 * What a trained tree is, read off the samples alone: their features, targets and weights, the order
 * the sort puts them in, and the settings. Nothing here is shared with the trainer or with `Grow`.
 */
module TrainedTree {
  import opened Options
  import opened Seqs
  import opened Values
  import opened Orderings
  import opened SplitSearch
  import opened TreeSpec
  import opened FittedTree
  import opened LeafSize
  import opened Descent

  // ---- samples in the order of a column ----------------------------------------------------------

  /** The members of `keep`, in the order in which `order` lists them. */
  ghost function Picked(order: seq<nat>, keep: set<nat>): (r: seq<nat>)
    ensures forall k :: 0 <= k < |r| ==> r[k] in order && r[k] in keep
  {
    if order == [] then []
    else
      var n := |order| - 1;
      Picked(order[..n], keep) + if order[n] in keep then [order[n]] else []
  }

  /** All samples, ordered by the values `v`. */
  ghost function Sorting(sort: Sorter, v: seq<real>): (r: seq<nat>)
    ensures Below(r, |v|)
  {
    assert IsOrdering(sort(Entries(v)), v);
    Indices(sort(Entries(v)))
  }

  ghost function FeatureValues(data: seq<Data>, featureSize: nat, f: nat): (v: seq<real>)
    requires ValidData(data, featureSize) && f < featureSize
    ensures |v| == |data| && forall i :: 0 <= i < |v| ==> v[i] == data[i].feature[f]
  {
    seq(|data|, i requires 0 <= i < |data| => data[i].feature[f])
  }

  ghost function ByFeature(data: seq<Data>, conf: TreeConfig, f: nat, samples: set<nat>): (r: seq<nat>)
    requires ValidData(data, conf.featureSize) && f < conf.featureSize
    ensures Below(r, |data|)
  {
    Picked(Sorting(conf.sort, FeatureValues(data, conf.featureSize, f)), samples)
  }

  datatype Side = Missing | Lower | Upper

  ghost predicate OnSide(value: real, v: real, side: Side) {
    match side
    case Missing => value == UNKNOWN
    case Lower => value != UNKNOWN && value < v
    case Upper => value != UNKNOWN && value >= v
  }

  /** The samples whose feature `f` is unknown, below `v`, or neither. */
  ghost function Part(data: seq<Data>, conf: TreeConfig, samples: set<nat>, f: nat, v: real, side: Side): set<nat>
    requires ValidData(data, conf.featureSize) && f < conf.featureSize
  {
    set i | i in samples && i < |data| && OnSide(data[i].feature[f], v, side)
  }

  ghost function PartByFeature(data: seq<Data>, conf: TreeConfig, samples: set<nat>, f: nat, v: real, side: Side): (r: seq<nat>)
    requires ValidData(data, conf.featureSize) && f < conf.featureSize
    ensures Below(r, |data|)
  {
    ByFeature(data, conf, f, Part(data, conf, samples, f, v, side))
  }

  // ---- sums over samples -------------------------------------------------------------------------

  ghost function WeightsIn(data: seq<Data>): (v: seq<real>)
    ensures |v| == |data| && forall i :: 0 <= i < |v| ==> v[i] == data[i].weight
  {
    seq(|data|, i requires 0 <= i < |data| => data[i].weight)
  }

  ghost function WeightedTargets(data: seq<Data>): (v: seq<real>)
    ensures |v| == |data| && forall i :: 0 <= i < |v| ==> v[i] == data[i].target * data[i].weight
  {
    seq(|data|, i requires 0 <= i < |data| => data[i].target * data[i].weight)
  }

  /** |target| * (2 - |target|) * weight */
  ghost function LogitWeightsIn(data: seq<Data>): (v: seq<real>)
    ensures |v| == |data|
    ensures forall i :: 0 <= i < |v| ==>
              v[i] == var y := if data[i].target < 0.0 then -data[i].target else data[i].target; y * (2.0 - y) * data[i].weight
  {
    seq(|data|, i requires 0 <= i < |data| =>
      var y := if data[i].target < 0.0 then -data[i].target else data[i].target; y * (2.0 - y) * data[i].weight)
  }

  ghost function DeviationsFrom(data: seq<Data>, mean: real): (v: seq<real>)
    ensures |v| == |data|
    ensures forall i :: 0 <= i < |v| ==> v[i] == data[i].weight * ((data[i].target - mean) * (data[i].target - mean))
  {
    seq(|data|, i requires 0 <= i < |data| => data[i].weight * ((data[i].target - mean) * (data[i].target - mean)))
  }

  /**
   * The weighted squared deviation of the targets from their weighted mean, if the weights add up to
   * more than 1; negative weights may bring it below zero, which counts as zero.
   */
  ghost function Deviation(data: seq<Data>, x: seq<nat>): real
    requires Below(x, |data|)
  {
    var w := Sum(x, WeightsIn(data));
    if w <= 1.0 then 0.0
    else
      var d := Sum(x, DeviationsFrom(data, Sum(x, WeightedTargets(data)) / w));
      if d < 0.0 then 0.0 else d
  }

  lemma {:induction false} SumsAgree(data: seq<Data>)
    ensures S(ValuesOf(data)) == WeightedTargets(data) && C(ValuesOf(data)) == WeightsIn(data)
  {
    forall i | 0 <= i < |data|
      ensures S(ValuesOf(data))[i] == WeightedTargets(data)[i] && C(ValuesOf(data))[i] == WeightsIn(data)[i]
    {
      assert ValuesOf(data)[i] == ValueOf(data[i].target, data[i].weight);
    }
  }

  /** The deviations from any `mean`, from the three sums of the sweep. */
  lemma {:induction false} DeviationsAre(data: seq<Data>, x: seq<nat>, mean: real)
    requires Below(x, |data|)
    ensures var t := Total(x, ValuesOf(data));
            Sum(x, DeviationsFrom(data, mean)) == t.ss - 2.0 * mean * t.s + mean * mean * t.c
  {
    hide Sum;
    forall k | 0 <= k < |x|
      ensures DeviationsFrom(data, mean)[x[k]] == ErrorOf(TargetsOf(data)[x[k]], ValuesOf(data)[x[k]].c, mean)
    {
    }
    LeafErrors(x, ValuesOf(data), TargetsOf(data), DeviationsFrom(data, mean), mean);
  }

  /** The cost of the sweep, from running sums, is that deviation. */
  lemma {:induction false} CostIsDeviation(data: seq<Data>, x: seq<nat>)
    requires Below(x, |data|)
    ensures Cost(Total(x, ValuesOf(data))) == Deviation(data, x)
  {
    hide Sum, DeviationsFrom, ValuesOf, WeightsIn, WeightedTargets;
    var t := Total(x, ValuesOf(data));
    SumsAgree(data);
    if t.c > 1.0 {
      var mean := t.s / t.c;
      DeviationsAre(data, x, mean);
      MeanCancels(t, mean);
      CostFrom(t, Sum(x, DeviationsFrom(data, mean)));
    }
  }

  lemma {:induction false} CostFrom(t: CacheValue, d: real)
    requires t.c > 1.0 && d == t.ss - t.s * t.s / t.c
    ensures Cost(t) == if d < 0.0 then 0.0 else d
  {
  }

  lemma {:induction false} MeanCancels(t: CacheValue, mean: real)
    requires t.c > 1.0 && mean == t.s / t.c
    ensures t.ss - 2.0 * mean * t.s + mean * mean * t.c == t.ss - t.s * t.s / t.c
  {
    assert mean * t.c == t.s;
    assert mean * mean * t.c == mean * t.s;
    assert t.s * t.s / t.c == mean * t.s;
  }

  // ---- leaf values -------------------------------------------------------------------------------

  /** `pred` is the quotient `s / w`, or 0 where the divisor all but vanishes. */
  ghost predicate IsQuotient(pred: real, s: real, w: real) {
    if -0.0000000001 < w < 0.0000000001 then pred == 0.0 else pred * w == s
  }

  /** Position `i` is the first of `o` up to which more than half of the weight lies. */
  ghost predicate PassesHalf(data: seq<Data>, o: seq<nat>, i: nat)
    requires Below(o, |data|) && i < |o|
  {
    var all := Sum(o, WeightsIn(data));
    && Sum(o[..i + 1], WeightsIn(data)) * 2.0 > all
    && forall k :: 0 <= k < i ==> WeightUpTo(data, o, k) * 2.0 <= all
  }

  ghost function WeightUpTo(data: seq<Data>, o: seq<nat>, k: nat): real
    requires Below(o, |data|) && k < |o|
  {
    Sum(o[..k + 1], WeightsIn(data))
  }

  ghost predicate IsMedian(pred: real, data: seq<Data>, o: seq<nat>)
    requires Below(o, |data|)
  {
    || (exists i: nat :: i < |o| && PassesHalf(data, o, i)
          && pred == if i == 0 then data[o[0]].residual else (data[o[i]].residual + data[o[i - 1]].residual) / 2.0)
    || ((forall i: nat :: i < |o| ==> !PassesHalf(data, o, i)) && pred == 0.0)
  }

  /** What a node predicts: weighted mean, Newton step or weighted median, by loss. */
  ghost predicate IsNodeValue(pred: real, data: seq<Data>, conf: TreeConfig, samples: seq<nat>)
    requires Below(samples, |data|)
  {
    match conf.loss
    case LogLikelyhood => IsQuotient(pred, Sum(samples, WeightedTargets(data)), Sum(samples, LogitWeightsIn(data)))
    case LAD => IsMedian(pred, data, Picked(Sorting(conf.sort, ResidualsOf(data)), Members(samples)))
    case _ => IsQuotient(pred, Sum(samples, WeightedTargets(data)), Sum(samples, WeightsIn(data)))
  }

  // ---- cuts --------------------------------------------------------------------------------------

  /** `v` lies half way between two neighbouring known values of feature `f` that differ by at least 0.00001. */
  ghost predicate CutsAt(data: seq<Data>, conf: TreeConfig, samples: set<nat>, f: nat, i: nat, v: real)
    requires ValidData(data, conf.featureSize) && f < conf.featureSize
  {
    var o := ByFeature(data, conf, f, samples);
    && i + 1 < |o|
    && var a, b := FeatureValues(data, conf.featureSize, f)[o[i]], FeatureValues(data, conf.featureSize, f)[o[i + 1]];
       a != UNKNOWN && (b - a >= 0.00001 || a - b >= 0.00001) && v == (a + b) / 2.0
  }

  /** The deviations of the three parts, each from its own mean. */
  ghost function CutDeviation(data: seq<Data>, conf: TreeConfig, samples: set<nat>, f: nat, v: real): real
    requires ValidData(data, conf.featureSize) && f < conf.featureSize
  {
    Deviation(data, PartByFeature(data, conf, samples, f, v, Missing))
    + Deviation(data, PartByFeature(data, conf, samples, f, v, Lower))
    + Deviation(data, PartByFeature(data, conf, samples, f, v, Upper))
  }

  /** The features looked at: all in order, or that share of the shuffle, rounded down. */
  ghost predicate LooksAt(conf: TreeConfig, shuffled: seq<nat>, cands: seq<nat>) {
    && (forall k :: 0 <= k < |cands| ==> cands[k] < conf.featureSize)
    && if conf.featureSampleRatio >= 1.0 then
         |cands| == conf.featureSize && forall k :: 0 <= k < |cands| ==> cands[k] == k
       else
         && cands <= shuffled
         && (conf.featureSampleRatio < 0.0 ==> cands == [])
         && (conf.featureSampleRatio >= 0.0 ==> |cands| as real <= conf.featureSampleRatio * conf.featureSize as real < |cands| as real + 1.0)
  }

  /** Cut `i` of candidate `b` deviates least, and is the first to, by candidate and then by value. */
  ghost predicate IsBestCut(data: seq<Data>, conf: TreeConfig, samples: set<nat>, cands: seq<nat>, b: nat, i: nat, v: real)
    requires ValidData(data, conf.featureSize) && forall k :: 0 <= k < |cands| ==> cands[k] < conf.featureSize
  {
    && b < |cands| && CutsAt(data, conf, samples, cands[b], i, v)
    && forall c: nat, j: nat, w: real :: c < |cands| && CutsAt(data, conf, samples, cands[c], j, w) ==>
         var here, there := CutDeviation(data, conf, samples, cands[b], v), CutDeviation(data, conf, samples, cands[c], w);
         here <= there && (c < b || (c == b && j < i) ==> here < there)
  }

  ghost predicate HasNoCut(data: seq<Data>, conf: TreeConfig, samples: set<nat>, cands: seq<nat>)
    requires ValidData(data, conf.featureSize) && forall k :: 0 <= k < |cands| ==> cands[k] < conf.featureSize
  {
    forall c: nat, j: nat, w: real :: c < |cands| ==> !CutsAt(data, conf, samples, cands[c], j, w)
  }

  // ---- the tree ----------------------------------------------------------------------------------

  /** All targets lie within 0.00001 of the first one. */
  ghost predicate LikeFirst(data: seq<Data>, samples: seq<nat>)
    requires Below(samples, |data|)
  {
    samples != [] && forall k :: 0 < k < |samples| ==> -0.00001 < data[samples[0]].target - data[samples[k]].target < 0.00001
  }

  ghost predicate MustStop(data: seq<Data>, conf: TreeConfig, samples: seq<nat>, depth: nat)
    requires Below(samples, |data|)
  {
    depth >= conf.maxDepth || |samples| <= conf.minLeafSize || LikeFirst(data, samples)
  }

  /**
   * `t` is what training on `samples` has to give: a leaf exactly where the settings demand one, the
   * targets agree or no candidate feature has a cut, and otherwise a branch at the best cut. Values at
   * both, and the same again for the samples passed on to each side.
   */
  ghost predicate IsTrained(t: DTree, data: seq<Data>, conf: TreeConfig, rng: Shuffles, samples: seq<nat>, depth: nat, path: seq<bool>)
    requires ValidData(data, conf.featureSize) && Below(samples, |data|)
    decreases t
  {
    && IsNodeValue(t.pred, data, conf, samples)
    && match t
       case Leaf(_) =>
         MustStop(data, conf, samples, depth)
         || exists cands :: LooksAt(conf, rng(path), cands) && HasNoCut(data, conf, Members(samples), cands)
       case Branch(f, v, _, missing, l, r) =>
         && !MustStop(data, conf, samples, depth)
         && f < conf.featureSize && missing == 0
         && (exists cands, b: nat, i: nat :: LooksAt(conf, rng(path), cands) && b < |cands| && IsBestCut(data, conf, Members(samples), cands, b, i, v) && cands[b] == f)
         && IsTrained(l, data, conf, rng, PartByFeature(data, conf, Members(samples), f, v, Lower), depth + 1, path + [false])
         && IsTrained(r, data, conf, rng, PartByFeature(data, conf, Members(samples), f, v, Upper), depth + 1, path + [true])
  }

  // ---- orders and parts --------------------------------------------------------------------------

  lemma {:induction false} PickedSnoc(a: seq<nat>, e: nat, keep: set<nat>)
    ensures Picked(a + [e], keep) == Picked(a, keep) + if e in keep then [e] else []
  {
    assert (a + [e])[..|a|] == a;
  }

  lemma {:induction false} PickedConcat(a: seq<nat>, b: seq<nat>, keep: set<nat>)
    ensures Picked(a + b, keep) == Picked(a, keep) + Picked(b, keep)
  {
    if b == [] {
      assert a + b == a;
    } else {
      var n := |b| - 1;
      assert (a + b)[..|a + b| - 1] == a + b[..n];
      PickedConcat(a, b[..n], keep);
    }
  }

  lemma {:induction false} PickedAll(a: seq<nat>, keep: set<nat>)
    requires forall k :: 0 <= k < |a| ==> a[k] in keep
    ensures Picked(a, keep) == a
  {
    if a != [] {
      PickedAll(a[..|a| - 1], keep);
    }
  }

  lemma {:induction false} PickedNone(a: seq<nat>, keep: set<nat>)
    requires forall k :: 0 <= k < |a| ==> a[k] !in keep
    ensures Picked(a, keep) == []
  {
    if a != [] {
      PickedNone(a[..|a| - 1], keep);
    }
  }

  lemma {:induction false} PickedTwice(a: seq<nat>, big: set<nat>, small: set<nat>)
    requires small <= big
    ensures Picked(Picked(a, big), small) == Picked(a, small)
  {
    if a != [] {
      var n := |a| - 1;
      PickedTwice(a[..n], big, small);
      PickedSnoc(Picked(a[..n], big), a[n], small);
      assert Picked(a, big) == Picked(a[..n], big) + if a[n] in big then [a[n]] else [];
      assert a[n] !in big ==> Picked(a, big) == Picked(a[..n], big);
    }
  }

  /** A stretch of a list without repeats is what its members pick from the list. */
  lemma {:induction false} PickedSlice(x: seq<nat>, a: nat, b: nat)
    requires Distinct(x) && a <= b <= |x|
    ensures Picked(x, Members(x[a..b])) == x[a..b]
  {
    var keep := Members(x[a..b]);
    ThreeSlices(x, a, b);
    SlicesApart(x, a, b);
    PickedConcat(x[..a] + x[a..b], x[b..], keep);
    PickedConcat(x[..a], x[a..b], keep);
    PickedNone(x[..a], keep);
    PickedAll(x[a..b], keep);
    PickedNone(x[b..], keep);
  }

  lemma {:induction false} SlicesApart(x: seq<nat>, a: nat, b: nat)
    requires Distinct(x) && a <= b <= |x|
    ensures forall k :: 0 <= k < a ==> x[..a][k] !in x[a..b]
    ensures forall k :: 0 <= k < |x| - b ==> x[b..][k] !in x[a..b]
  {
    forall p: nat, q: nat | p < q < |x|
      ensures x[p] != x[q]
    {
      DistinctAt(x, p, q);
    }
  }

  lemma {:induction false} DistinctAt(x: seq<nat>, p: nat, q: nat)
    requires Distinct(x) && p < q < |x|
    ensures x[p] != x[q]
  {
    DistinctSides(x, q, x[p]);
    assert x[..q][p] == x[p] && x[q..][0] == x[q];
  }

  /** Filtering a column by a node's mask picks the node's samples from the order of the column. */
  lemma {:induction false} FilterPicks(o: seq<Entry>, n: nat, samples: seq<nat>)
    requires IndicesBelow(o, n)
    ensures Indices(NodeOrder(o, n, samples)) == Picked(Indices(o), Members(samples))
  {
    if o != [] {
      var m := |o| - 1;
      FilterPicks(o[..m], n, samples);
      assert Indices(o)[..m] == Indices(o[..m]);
      var front := NodeOrder(o[..m], n, samples);
      if o[m].index in samples {
        assert NodeOrder(o, n, samples) == front + [o[m]];
        assert Indices(front + [o[m]]) == Indices(front) + [o[m].index];
      } else {
        assert NodeOrder(o, n, samples) == front;
      }
    }
  }

  /** The node's order of a feature, as the trainer keeps it and as it is defined here. */
  lemma {:induction false} OrderIsByFeature(data: seq<Data>, conf: TreeConfig, samples: seq<nat>, f: nat)
    requires ValidData(data, conf.featureSize) && f < conf.featureSize && Distinct(samples) && Below(samples, |data|)
    ensures var p := ProblemOf(data, conf.featureSize, conf.sort);
            && p.Valid() && f < |p.orders|
            && var o := p.Order(f, samples);
            && Indices(o) == ByFeature(data, conf, f, Members(samples))
            && Distinct(Indices(o)) && Sorted(o) && Matches(o, FeatureValues(data, conf.featureSize, f))
            && multiset(Indices(o)) == multiset(samples)
            && (forall k :: 0 <= k < |o| ==> UNKNOWN <= o[k].value)
  {
    hide IsOrdering;
    var p := ProblemOf(data, conf.featureSize, conf.sort);
    ProblemIsValid(data, conf.featureSize, conf.sort);
    var column := Column(p.features, f);
    assert column == FeatureValues(data, conf.featureSize, f);
    NodeOrderProperties(p.orders[f], column, samples);
    FilterPicks(p.orders[f], |data|, samples);
    SameCounts(samples, Indices(p.Order(f, samples)));
  }

  /** The three slices around a cut are the three parts, in order. */
  lemma {:induction false} SlicesAreParts(data: seq<Data>, conf: TreeConfig, samples: seq<nat>, f: nat, o: seq<Entry>, i: nat)
    requires ValidData(data, conf.featureSize) && f < conf.featureSize && Distinct(samples) && Below(samples, |data|)
    requires Indices(o) == ByFeature(data, conf, f, Members(samples))
    requires Distinct(Indices(o)) && Sorted(o) && Matches(o, FeatureValues(data, conf.featureSize, f))
    requires multiset(Indices(o)) == multiset(samples)
    requires IsCut(o, i)
    ensures var s := CutAt(o, f, i);
            && s.unknown == PartByFeature(data, conf, Members(samples), f, s.threshold, Missing)
            && s.left == PartByFeature(data, conf, Members(samples), f, s.threshold, Lower)
            && s.right == PartByFeature(data, conf, Members(samples), f, s.threshold, Upper)
  {
    hide IsCut, CutAt, Distinct, Part, IsPartition, Sorting, Matches, Sorted, Picked, ByFeature, PartByFeature, Members, Indices;
    var values, s := FeatureValues(data, conf.featureSize, f), CutAt(o, f, i);
    CutSlices(o, f, i);
    CutPartitions(o, values, samples, f, i);
    PartsAre(data, conf, samples, s);
    var x, u := Indices(o), UnknownCount(o);
    PartSlice(data, conf, samples, f, s.threshold, Missing, x, 0, u);
    PartSlice(data, conf, samples, f, s.threshold, Lower, x, u, i + 1);
    PartSlice(data, conf, samples, f, s.threshold, Upper, x, i + 1, |x|);
  }

  lemma {:induction false} PartSlice(data: seq<Data>, conf: TreeConfig, samples: seq<nat>, f: nat, v: real, side: Side,
                                    x: seq<nat>, a: nat, b: nat)
    requires ValidData(data, conf.featureSize) && f < conf.featureSize
    requires x == ByFeature(data, conf, f, Members(samples)) && Distinct(x) && a <= b <= |x|
    requires Members(x[a..b]) == Part(data, conf, Members(samples), f, v, side)
    ensures x[a..b] == PartByFeature(data, conf, Members(samples), f, v, side)
  {
    hide Part, Sorting, Picked, Distinct;
    SliceOfNode(Sorting(conf.sort, FeatureValues(data, conf.featureSize, f)), Members(samples), x, a, b);
  }

  lemma {:induction false} CutSlices(o: seq<Entry>, f: nat, i: nat)
    requires IsCut(o, i)
    ensures var s, x, u := CutAt(o, f, i), Indices(o), UnknownCount(o);
            && u <= i < |x| - 1 && s.feature == f
            && s.unknown == x[0..u] && s.left == x[u..i + 1] && s.right == x[i + 1..|x|]
  {
  }

  lemma CutInRange(o: seq<Entry>, i: nat)
    requires IsCut(o, i)
    ensures UnknownCount(o) <= i < |o| - 1
  {
  }

  lemma {:induction false} SliceOfNode(all: seq<nat>, samples: set<nat>, x: seq<nat>, a: nat, b: nat)
    requires x == Picked(all, samples) && Distinct(x) && a <= b <= |x|
    ensures Picked(all, Members(x[a..b])) == x[a..b]
  {
    PickedTwice(all, samples, Members(x[a..b]));
    PickedSlice(x, a, b);
  }

  lemma {:induction false} PartsAre(data: seq<Data>, conf: TreeConfig, samples: seq<nat>, s: Split)
    requires ValidData(data, conf.featureSize) && s.feature < conf.featureSize && Distinct(samples) && Below(samples, |data|)
    requires IsPartition(s, samples, FeatureValues(data, conf.featureSize, s.feature))
    ensures Members(s.unknown) == Part(data, conf, Members(samples), s.feature, s.threshold, Missing)
    ensures Members(s.left) == Part(data, conf, Members(samples), s.feature, s.threshold, Lower)
    ensures Members(s.right) == Part(data, conf, Members(samples), s.feature, s.threshold, Upper)
  {
    var values := FeatureValues(data, conf.featureSize, s.feature);
    PartitionMembers(s, samples, values);
    forall i: nat | i in samples
      ensures i in s.unknown <==> OnSide(values[i], s.threshold, Missing)
      ensures i in s.left <==> OnSide(values[i], s.threshold, Lower)
      ensures i in s.right <==> OnSide(values[i], s.threshold, Upper)
    {
      PartValue(s, samples, values, i);
    }
  }

  // ---- the split ---------------------------------------------------------------------------------

  /** A list of entries is the order of feature `f` for the node. */
  ghost predicate OrdersNode(o: seq<Entry>, data: seq<Data>, conf: TreeConfig, samples: seq<nat>, f: nat)
    requires ValidData(data, conf.featureSize) && f < conf.featureSize
  {
    && Indices(o) == ByFeature(data, conf, f, Members(samples))
    && Distinct(Indices(o)) && Sorted(o) && Matches(o, FeatureValues(data, conf.featureSize, f))
    && multiset(Indices(o)) == multiset(samples)
  }

  lemma {:induction false} KnownFrom(o: seq<Entry>, i: nat)
    requires Sorted(o) && i < |o| && forall k :: 0 <= k < |o| ==> UNKNOWN <= o[k].value
    ensures UnknownCount(o) <= i <==> o[i].value != UNKNOWN
  {
    var u := UnknownCount(o);
    if u < i {
      assert o[u].value <= o[i].value;
    }
  }

  lemma {:induction false} ValueAt(o: seq<Entry>, data: seq<Data>, conf: TreeConfig, samples: seq<nat>, f: nat, i: nat)
    requires ValidData(data, conf.featureSize) && f < conf.featureSize && OrdersNode(o, data, conf, samples, f) && i < |o|
    ensures var x := ByFeature(data, conf, f, Members(samples));
            |x| == |o| && o[i].value == FeatureValues(data, conf.featureSize, f)[x[i]]
    ensures UNKNOWN <= o[i].value
  {
    hide ByFeature, Distinct;
    assert Indices(o)[i] == o[i].index;
    assert data[o[i].index].feature[f] == o[i].value;
  }

  /** The cuts of the sweep are the cuts. */
  lemma {:induction false} CutsAtIsCut(o: seq<Entry>, data: seq<Data>, conf: TreeConfig, samples: seq<nat>, f: nat, i: nat, v: real)
    requires ValidData(data, conf.featureSize) && f < conf.featureSize && OrdersNode(o, data, conf, samples, f)
    ensures CutsAt(data, conf, Members(samples), f, i, v) <==> IsCut(o, i) && v == Threshold(o, i)
  {
    hide ByFeature, UnknownCount, OrdersNode;
    var x := ByFeature(data, conf, f, Members(samples));
    forall k: nat | k < |o|
      ensures |x| == |o| && o[k].value == FeatureValues(data, conf.featureSize, f)[x[k]] && UNKNOWN <= o[k].value
    {
      ValueAt(o, data, conf, samples, f, k);
    }
    OrderedLength(o, data, conf, samples, f);
    if i + 1 < |o| {
      KnownFrom(o, i);
    }
  }

  lemma OrderedLength(o: seq<Entry>, data: seq<Data>, conf: TreeConfig, samples: seq<nat>, f: nat)
    requires ValidData(data, conf.featureSize) && f < conf.featureSize && OrdersNode(o, data, conf, samples, f)
    ensures |ByFeature(data, conf, f, Members(samples))| == |o| && Sorted(o)
  {
  }

  /** What the sweep minimises is the deviation of the three parts. */
  lemma {:induction false} CutCostIsDeviation(o: seq<Entry>, data: seq<Data>, conf: TreeConfig, samples: seq<nat>, f: nat, i: nat)
    requires ValidData(data, conf.featureSize) && f < conf.featureSize && Distinct(samples) && Below(samples, |data|)
    requires OrdersNode(o, data, conf, samples, f) && IsCut(o, i)
    ensures IndicesBelow(o, |data|)
    ensures CutCost(o, ValuesOf(data), i) == CutDeviation(data, conf, Members(samples), f, Threshold(o, i))
  {
    hide Distinct, Cost, Total, Deviation, PartByFeature;
    SlicesAreParts(data, conf, samples, f, o, i);
    var x, u := Indices(o), UnknownCount(o);
    CostIsDeviation(data, x[..u]);
    CostIsDeviation(data, x[u..i + 1]);
    CostIsDeviation(data, x[i + 1..]);
  }

  ghost predicate NoCutOf(data: seq<Data>, conf: TreeConfig, samples: set<nat>, f: nat)
    requires ValidData(data, conf.featureSize) && f < conf.featureSize
  {
    forall j: nat, w :: !CutsAt(data, conf, samples, f, j, w)
  }

  /** Cut `i` at `v` is the first of those of feature `f` that deviate least. */
  ghost predicate BestOfFeature(data: seq<Data>, conf: TreeConfig, samples: set<nat>, f: nat, i: nat, v: real)
    requires ValidData(data, conf.featureSize) && f < conf.featureSize
  {
    && CutsAt(data, conf, samples, f, i, v)
    && forall j: nat, w :: CutsAt(data, conf, samples, f, j, w) ==>
         var here, there := CutDeviation(data, conf, samples, f, v), CutDeviation(data, conf, samples, f, w);
         here <= there && (j < i ==> here < there)
  }

  /** The best cut of one feature. */
  lemma {:induction false} FeatureCutIsBest(data: seq<Data>, conf: TreeConfig, samples: seq<nat>, f: nat)
    requires ValidData(data, conf.featureSize) && f < conf.featureSize && Distinct(samples) && Below(samples, |data|)
    ensures var p := ProblemOf(data, conf.featureSize, conf.sort);
            && p.Valid() && |p.orders| == conf.featureSize
            && match FeatureCut(p, samples, f)
               case None => Impurity(p, samples, f) == None && NoCutOf(data, conf, Members(samples), f)
               case Some(i) =>
                 var v := Threshold(p.Order(f, samples), i);
                 && BestOfFeature(data, conf, Members(samples), f, i, v)
                 && Impurity(p, samples, f) == Some(CutDeviation(data, conf, Members(samples), f, v))
  {
    hide CutsAt, CutDeviation, OrdersNode, IsCut, CutCost, BestCut, NodeOrder, FeatureOrders, Threshold, Distinct;
    var p, all := ProblemOf(data, conf.featureSize, conf.sort), Members(samples);
    ProblemIsValid(data, conf.featureSize, conf.sort);
    NodeIsOrdered(data, conf, samples, f);
    var o, b := p.Order(f, samples), FeatureCut(p, samples, f);
    BestCutIsFirstCheapest(o, p.values, |o|);
    forall j: nat, w | CutsAt(data, conf, all, f, j, w)
      ensures IsCut(o, j) && UnknownCount(o) <= j < |o| && w == Threshold(o, j)
      ensures CutCost(o, p.values, j) == CutDeviation(data, conf, all, f, w)
    {
      CutsAtIsCut(o, data, conf, samples, f, j, w);
      CutInRange(o, j);
      CutCostIsDeviation(o, data, conf, samples, f, j);
    }
    if b.Some? {
      CutsAtIsCut(o, data, conf, samples, f, b.value, Threshold(o, b.value));
      CutCostIsDeviation(o, data, conf, samples, f, b.value);
    }
  }

  lemma {:induction false} NodeIsOrdered(data: seq<Data>, conf: TreeConfig, samples: seq<nat>, f: nat)
    requires ValidData(data, conf.featureSize) && f < conf.featureSize && Distinct(samples) && Below(samples, |data|)
    ensures var p := ProblemOf(data, conf.featureSize, conf.sort);
            p.Valid() && |p.orders| == conf.featureSize && OrdersNode(p.Order(f, samples), data, conf, samples, f)
            && IndicesBelow(p.Order(f, samples), |data|)
  {
    hide IsOrdering, NodeOrder, FeatureOrders, Distinct, ByFeature;
    ProblemIsValid(data, conf.featureSize, conf.sort);
    OrderIsByFeature(data, conf, samples, f);
  }

  lemma {:induction false} CandidatesLooked(conf: TreeConfig, shuffled: seq<nat>)
    requires IsPermutation(shuffled, conf.featureSize)
    ensures LooksAt(conf, shuffled, Candidates(conf, shuffled))
  {
    hide SampledFeatureCount, Distinct, IsPermutation;
    PermutationMembers(shuffled, conf.featureSize);
    CountIsShare(conf);
  }

  lemma {:induction false} CountIsShare(conf: TreeConfig)
    ensures conf.featureSampleRatio < 0.0 ==> SampledFeatureCount(conf) == 0
    ensures 0.0 <= conf.featureSampleRatio < 1.0 ==>
              && SampledFeatureCount(conf) <= conf.featureSize
              && SampledFeatureCount(conf) as real <= conf.featureSampleRatio * conf.featureSize as real < SampledFeatureCount(conf) as real + 1.0
  {
    if 0.0 <= conf.featureSampleRatio < 1.0 {
      var x := conf.featureSampleRatio * conf.featureSize as real;
      AtMostAll(conf.featureSampleRatio, conf.featureSize);
      FloorAtMost(x, conf.featureSize);
    }
  }

  lemma {:induction false} NonNegativeProduct(a: real, b: real)
    requires a >= 0.0 && b >= 0.0
    ensures a * b >= 0.0
  {
  }

  lemma {:induction false} FloorAtMost(x: real, n: nat)
    requires 0.0 <= x <= n as real
    ensures 0 <= x.Floor <= n
  {
  }

  lemma {:induction false} AtMostAll(r: real, n: nat)
    requires 0.0 <= r < 1.0
    ensures 0.0 <= r * n as real <= n as real
  {
    NonNegativeProduct(r, n as real);
    NonNegativeProduct(1.0 - r, n as real);
    assert (1.0 - r) * n as real == n as real - r * n as real;
  }

  /** The best of the features' best cuts, the first of them on a tie, is the best of all cuts. */
  lemma {:induction false} BestOfBest(data: seq<Data>, conf: TreeConfig, samples: set<nat>, cands: seq<nat>, b: nat,
                                     at: seq<Option<(nat, real)>>)
    requires ValidData(data, conf.featureSize) && Below(cands, conf.featureSize) && |at| == |cands| && b < |at| && at[b].Some?
    requires forall c :: 0 <= c < |cands| ==>
               if at[c].None? then NoCutOf(data, conf, samples, cands[c])
               else BestOfFeature(data, conf, samples, cands[c], at[c].value.0, at[c].value.1)
    requires forall c :: 0 <= c < |cands| && at[c].Some? ==>
               var here, there := CutDeviation(data, conf, samples, cands[b], at[b].value.1), CutDeviation(data, conf, samples, cands[c], at[c].value.1);
               here <= there && (c < b ==> here < there)
    ensures IsBestCut(data, conf, samples, cands, b, at[b].value.0, at[b].value.1)
  {
    hide CutsAt, CutDeviation;
  }

  /** Where the trainer cuts feature `f`: behind which position and at which value. */
  ghost function CutMade(p: Problem, samples: seq<nat>, f: nat): Option<(nat, real)>
    requires p.Valid() && f < |p.orders|
  {
    match FeatureCut(p, samples, f)
    case None => None
    case Some(i) => Some((i, Threshold(p.Order(f, samples), i)))
  }

  ghost function CutsMade(p: Problem, samples: seq<nat>, cands: seq<nat>): (at: seq<Option<(nat, real)>>)
    requires p.Valid() && Below(cands, |p.orders|)
    ensures |at| == |cands| && forall c :: 0 <= c < |cands| ==> at[c] == CutMade(p, samples, cands[c])
  {
    seq(|cands|, c requires 0 <= c < |cands| => CutMade(p, samples, cands[c]))
  }

  /** What `at` says is the best cut of feature `f`, if it has one, and `cost` what it deviates. */
  ghost predicate BestOrNone(data: seq<Data>, conf: TreeConfig, samples: set<nat>, f: nat, at: Option<(nat, real)>, cost: Option<real>)
    requires ValidData(data, conf.featureSize) && f < conf.featureSize
  {
    match at
    case None => cost == None && NoCutOf(data, conf, samples, f)
    case Some((i, v)) => BestOfFeature(data, conf, samples, f, i, v) && cost == Some(CutDeviation(data, conf, samples, f, v))
  }

  lemma {:induction false} CutMadeIsBest(data: seq<Data>, conf: TreeConfig, samples: seq<nat>, f: nat)
    requires ValidData(data, conf.featureSize) && f < conf.featureSize && Distinct(samples) && Below(samples, |data|)
    ensures var p := ProblemOf(data, conf.featureSize, conf.sort);
            && p.Valid() && |p.orders| == conf.featureSize
            && BestOrNone(data, conf, Members(samples), f, CutMade(p, samples, f), Impurity(p, samples, f))
  {
    hide BestOfFeature, NoCutOf, CutDeviation, FeatureCut, Impurity, FeatureOrders, Threshold;
    FeatureCutIsBest(data, conf, samples, f);
  }

  /** Looking for the smallest impurity finds the best cut of all. */
  lemma {:induction false} SmallestIsBest(data: seq<Data>, conf: TreeConfig, samples: set<nat>, cands: seq<nat>,
                                         at: seq<Option<(nat, real)>>, imps: seq<Option<real>>)
    requires ValidData(data, conf.featureSize) && Below(cands, conf.featureSize) && |at| == |imps| == |cands|
    requires forall c :: 0 <= c < |cands| ==> BestOrNone(data, conf, samples, cands[c], at[c], imps[c])
    ensures match FirstSmallest(imps, |cands|)
            case None => HasNoCut(data, conf, samples, cands)
            case Some(b) => at[b].Some? && IsBestCut(data, conf, samples, cands, b, at[b].value.0, at[b].value.1)
  {
    hide BestOfFeature, NoCutOf, CutDeviation, FirstSmallest, IsBestCut, HasNoCut;
    FirstSmallestIsMinimum(imps, |cands|);
    if FirstSmallest(imps, |cands|).None? {
      NoCuts(data, conf, samples, cands);
    } else {
      BestOfBest(data, conf, samples, cands, FirstSmallest(imps, |cands|).value, at);
    }
  }

  /** No split where there is no cut; otherwise one at the best cut, with the lower and upper parts. */
  ghost predicate IsBestSplit(r: Option<Split>, data: seq<Data>, conf: TreeConfig, samples: set<nat>, cands: seq<nat>)
    requires ValidData(data, conf.featureSize) && Below(cands, conf.featureSize)
  {
    match r
    case None => HasNoCut(data, conf, samples, cands)
    case Some(s) =>
      && s.feature < conf.featureSize
      && (exists b: nat, i: nat :: b < |cands| && IsBestCut(data, conf, samples, cands, b, i, s.threshold) && cands[b] == s.feature)
      && s.left == PartByFeature(data, conf, samples, s.feature, s.threshold, Lower)
      && s.right == PartByFeature(data, conf, samples, s.feature, s.threshold, Upper)
  }

  /** The split of a node is at the best cut, and there is none only where there is no cut. */
  lemma {:induction false} SplitIsBestCut(data: seq<Data>, conf: TreeConfig, samples: seq<nat>, cands: seq<nat>)
    requires ValidData(data, conf.featureSize) && Distinct(samples) && Below(samples, |data|) && Below(cands, conf.featureSize)
    ensures var p := ProblemOf(data, conf.featureSize, conf.sort);
            && p.Valid() && |p.orders| == conf.featureSize
            && IsBestSplit(SplitNode(p, samples, cands), data, conf, Members(samples), cands)
  {
    hide CutDeviation, FeatureCut, FirstSmallest, FeatureOrders, PartByFeature, Threshold, Impurity, Problem.Order;
    hide IsBestCut, HasNoCut, BestOrNone, IsCut, ProblemOf, Problem.Valid, CutAt, Distinct, SplitNode, CutMade, Members;
    var p, all := ProblemOf(data, conf.featureSize, conf.sort), Members(samples);
    ProblemIsValid(data, conf.featureSize, conf.sort);
    var imps, at := Impurities(p, samples, cands), CutsMade(p, samples, cands);
    forall c | 0 <= c < |cands|
      ensures BestOrNone(data, conf, all, cands[c], at[c], imps[c])
    {
      CutMadeIsBest(data, conf, samples, cands[c]);
    }
    SmallestIsBest(data, conf, all, cands, at, imps);
    SplitIsCutMade(p, samples, cands);
    if FirstSmallest(imps, |cands|).Some? {
      var b := FirstSmallest(imps, |cands|).value;
      PartsOfSplit(data, conf, samples, cands[b]);
    }
  }

  lemma {:induction false} SplitIsCutMade(p: Problem, samples: seq<nat>, cands: seq<nat>)
    requires p.Valid() && Below(cands, |p.orders|)
    ensures match FirstSmallest(Impurities(p, samples, cands), |cands|)
            case None => SplitNode(p, samples, cands) == None
            case Some(b) =>
              && FeatureCut(p, samples, cands[b]).Some?
              && var s := CutAt(p.Order(cands[b], samples), cands[b], FeatureCut(p, samples, cands[b]).value);
                 && SplitNode(p, samples, cands) == Some(s) && s.feature == cands[b]
                 && CutMade(p, samples, cands[b]) == Some((FeatureCut(p, samples, cands[b]).value, s.threshold))
  {
    hide FeatureCut, FirstSmallest, Problem.Order, IsCut;
  }

  lemma {:induction false} NoCuts(data: seq<Data>, conf: TreeConfig, samples: set<nat>, cands: seq<nat>)
    requires ValidData(data, conf.featureSize) && Below(cands, conf.featureSize)
    requires forall c :: 0 <= c < |cands| ==> NoCutOf(data, conf, samples, cands[c])
    ensures HasNoCut(data, conf, samples, cands)
  {
    hide CutsAt;
  }

  lemma {:induction false} PartsOfSplit(data: seq<Data>, conf: TreeConfig, samples: seq<nat>, f: nat)
    requires ValidData(data, conf.featureSize) && f < conf.featureSize && Distinct(samples) && Below(samples, |data|)
    ensures var p := ProblemOf(data, conf.featureSize, conf.sort);
            && p.Valid() && |p.orders| == conf.featureSize
            && (FeatureCut(p, samples, f).Some? ==>
                  var s := CutAt(p.Order(f, samples), f, FeatureCut(p, samples, f).value);
                  && s.left == PartByFeature(data, conf, Members(samples), f, s.threshold, Lower)
                  && s.right == PartByFeature(data, conf, Members(samples), f, s.threshold, Upper))
  {
    hide IsCut, BestCut, NodeOrder, FeatureOrders, Distinct, PartByFeature, Threshold;
    NodeIsOrdered(data, conf, samples, f);
    var p := ProblemOf(data, conf.featureSize, conf.sort);
    if FeatureCut(p, samples, f).Some? {
      SlicesAreParts(data, conf, samples, f, p.Order(f, samples), FeatureCut(p, samples, f).value);
    }
  }

  // ---- values and stops --------------------------------------------------------------------------

  lemma {:induction false} RatioIsQuotient(s: real, w: real)
    ensures IsQuotient(Ratio(s, w), s, w)
  {
  }

  lemma {:induction false} SameIsLikeFirst(data: seq<Data>, samples: seq<nat>)
    requires Below(samples, |data|)
    ensures Same(samples, TargetsOf(data)) <==> LikeFirst(data, samples)
  {
  }

  lemma {:induction false} WeightsAgree(data: seq<Data>, o: seq<Entry>, k: nat)
    requires IndicesBelow(o, |data|) && k < |o|
    ensures WeightThrough(o, ValuesOf(data), k) == WeightUpTo(data, Indices(o), k)
    ensures Sum(Indices(o), C(ValuesOf(data))) == Sum(Indices(o), WeightsIn(data))
  {
    SumsAgree(data);
  }

  /** The median of the trainer is the weighted median. */
  lemma {:induction false} MedianIs(data: seq<Data>, o: seq<Entry>)
    requires IndicesBelow(o, |data|) && Matches(o, ResidualsOf(data))
    ensures IsMedian(MedianFrom(o, ValuesOf(data), Sum(Indices(o), C(ValuesOf(data))), 0), data, Indices(o))
  {
    hide PassesHalf, PassesHalfAt, MedianFrom;
    var values, x := ValuesOf(data), Indices(o);
    var all := Sum(x, C(values));
    if i: nat :| i < |o| && PassesHalfAt(o, values, all, i) {
      PassesAgree(data, o, i);
      MedianPassesHalf(o, values, all, i);
      assert o[i].value == data[x[i]].residual && (i > 0 ==> o[i - 1].value == data[x[i - 1]].residual);
    } else {
      forall i: nat | i < |o|
        ensures !PassesHalf(data, x, i)
      {
        PassesAgree(data, o, i);
      }
      NeverPasses(o, values, all, |o|);
    }
  }

  lemma {:induction false} PassesAgree(data: seq<Data>, o: seq<Entry>, i: nat)
    requires IndicesBelow(o, |data|) && i < |o|
    ensures PassesHalfAt(o, ValuesOf(data), Sum(Indices(o), C(ValuesOf(data))), i) <==> PassesHalf(data, Indices(o), i)
  {
    hide WeightThrough, Sum;
    forall k: nat | k <= i
      ensures WeightThrough(o, ValuesOf(data), k) == WeightUpTo(data, Indices(o), k)
    {
      WeightsAgree(data, o, k);
    }
    WeightsAgree(data, o, i);
  }

  /** If no position is the first past half of the weight, the search runs to the end. */
  lemma {:induction false} NeverPasses(o: seq<Entry>, values: seq<CacheValue>, all: real, n: nat)
    requires IndicesBelow(o, |values|) && n <= |o|
    requires forall i: nat :: i < |o| ==> !PassesHalfAt(o, values, all, i)
    ensures MedianFrom(o, values, all, 0) == MedianFrom(o, values, all, n)
    ensures forall k: nat :: k < n ==> WeightThrough(o, values, k) * 2.0 <= all
    ensures MedianFrom(o, values, all, |o|) == 0.0
  {
    if n > 0 {
      NeverPasses(o, values, all, n - 1);
      assert !PassesHalfAt(o, values, all, n - 1);
    }
  }

  lemma {:induction false} LogitsAgree(data: seq<Data>)
    ensures LogitsOf(data) == LogitWeightsIn(data)
  {
    forall i | 0 <= i < |data|
      ensures LogitsOf(data)[i] == LogitWeightsIn(data)[i]
    {
      assert Abs(data[i].target) == if data[i].target < 0.0 then -data[i].target else data[i].target;
    }
  }

  lemma {:induction false} NodeValueIs(data: seq<Data>, conf: TreeConfig, samples: seq<nat>)
    requires ValidData(data, conf.featureSize) && Distinct(samples) && Below(samples, |data|)
    ensures var p := ProblemOf(data, conf.featureSize, conf.sort);
            p.Valid() && IsNodeValue(LeafValue(p, conf.loss, samples), data, conf, samples)
  {
    hide IsMedian, MedianFrom, NodeOrder, FeatureOrders, Distinct, IsQuotient, Ratio, Sum;
    var p := ProblemOf(data, conf.featureSize, conf.sort);
    ProblemIsValid(data, conf.featureSize, conf.sort);
    if conf.loss.LAD? {
      NodeOrderProperties(p.residualOrder, p.residual, samples);
      FilterPicks(p.residualOrder, |data|, samples);
      MedianIs(data, NodeOrder(p.residualOrder, |data|, samples));
    } else {
      SumsAgree(data);
      LogitsAgree(data);
      RatioIsQuotient(Sum(samples, WeightedTargets(data)), Sum(samples, LogitWeightsIn(data)));
      RatioIsQuotient(Sum(samples, WeightedTargets(data)), Sum(samples, WeightsIn(data)));
    }
  }

  // ---- the trained tree --------------------------------------------------------------------------

  /** The tree that the trainer grows is what training has to give. */
  lemma {:induction false} GrowIsTrained(data: seq<Data>, conf: TreeConfig, rng: Shuffles, samples: seq<nat>, depth: nat, path: seq<bool>)
    requires ValidData(data, conf.featureSize) && FairShuffles(rng, conf.featureSize)
    requires Distinct(samples) && Below(samples, |data|)
    ensures var p := ProblemOf(data, conf.featureSize, conf.sort);
            p.Valid() && |p.orders| == conf.featureSize
            && IsTrained(Grow(p, conf, rng, samples, depth, path), data, conf, rng, samples, depth, path)
    decreases if depth >= conf.maxDepth then 0 else conf.maxDepth - depth
  {
    hide IsNodeValue, LeafValue, SplitNode, HasNoCut, IsBestCut, Candidates, LooksAt, PartByFeature, Problem.Valid, IsPartition, Same, LikeFirst, Distinct;
    var p := ProblemOf(data, conf.featureSize, conf.sort);
    ProblemIsValid(data, conf.featureSize, conf.sort);
    NodeValueIs(data, conf, samples);
    SameIsLikeFirst(data, samples);
    if !Stops(p, conf, rng, samples, depth) {
      var cands := Candidates(conf, rng(path));
      CandidatesLooked(conf, rng(path));
      SplitIsBestCut(data, conf, samples, cands);
      var s := NodeSplit(p, conf, rng, samples, path);
      assert IsBestSplit(s, data, conf, Members(samples), cands);
      if s.Some? {
        var b: nat, i: nat :| b < |cands| && IsBestCut(data, conf, Members(samples), cands, b, i, s.value.threshold) && cands[b] == s.value.feature;
        GrowIsTrained(data, conf, rng, s.value.left, depth + 1, path + [false]);
        GrowIsTrained(data, conf, rng, s.value.right, depth + 1, path + [true]);
      }
    }
  }

  lemma {:induction false} TreeOfIsTrained(data: seq<Data>, conf: TreeConfig, rng: Shuffles, subset: seq<nat>)
    requires ValidData(data, conf.featureSize) && FairShuffles(rng, conf.featureSize)
    requires Distinct(subset) && Below(subset, |data|)
    ensures IsTrained(TreeOf(data, conf, rng, subset), data, conf, rng, subset, 0, [])
  {
    hide Grow, IsTrained;
    GrowIsTrained(data, conf, rng, subset, 0, []);
  }

  // ---- nothing else is ---------------------------------------------------------------------------

  lemma {:induction false} LooksAtOnce(conf: TreeConfig, shuffled: seq<nat>, a: seq<nat>, b: seq<nat>)
    requires LooksAt(conf, shuffled, a) && LooksAt(conf, shuffled, b)
    ensures a == b
  {
    assert |a| == |b|;
    forall k | 0 <= k < |a|
      ensures a[k] == b[k]
    {
      if conf.featureSampleRatio < 1.0 {
        assert a[k] == shuffled[k] && b[k] == shuffled[k];
      }
    }
  }

  /** There is one best cut. */
  lemma {:induction false} OneBestCut(data: seq<Data>, conf: TreeConfig, samples: set<nat>, cands: seq<nat>,
                                     b: nat, i: nat, v: real, c: nat, j: nat, w: real)
    requires ValidData(data, conf.featureSize) && Below(cands, conf.featureSize)
    requires IsBestCut(data, conf, samples, cands, b, i, v) && IsBestCut(data, conf, samples, cands, c, j, w)
    ensures b == c && v == w
  {
    hide CutDeviation, ByFeature;
    assert CutsAt(data, conf, samples, cands[b], i, v) && CutsAt(data, conf, samples, cands[c], j, w);
  }

  lemma {:induction false} OneValue(p: real, q: real, data: seq<Data>, conf: TreeConfig, samples: seq<nat>)
    requires Below(samples, |data|) && IsNodeValue(p, data, conf, samples) && IsNodeValue(q, data, conf, samples)
    ensures p == q
  {
    hide Sum, Sorting, Picked, WeightUpTo;
    match conf.loss
    case LAD => OneMedian(p, q, data, Picked(Sorting(conf.sort, ResidualsOf(data)), Members(samples)));
    case LogLikelyhood => OneQuotient(p, q, Sum(samples, WeightedTargets(data)), Sum(samples, LogitWeightsIn(data)));
    case _ => OneQuotient(p, q, Sum(samples, WeightedTargets(data)), Sum(samples, WeightsIn(data)));
  }

  lemma {:induction false} OneQuotient(p: real, q: real, s: real, w: real)
    requires IsQuotient(p, s, w) && IsQuotient(q, s, w)
    ensures p == q
  {
    if !(-0.0000000001 < w < 0.0000000001) {
      DividesOnce(p, q, w);
    }
  }

  lemma {:induction false} DividesOnce(p: real, q: real, w: real)
    requires w != 0.0 && p * w == q * w
    ensures p == q
  {
    assert p * w / w == q * w / w;
  }

  lemma {:induction false} OneMedian(p: real, q: real, data: seq<Data>, o: seq<nat>)
    requires Below(o, |data|) && IsMedian(p, data, o) && IsMedian(q, data, o)
    ensures p == q
  {
    forall i: nat, j: nat | i < |o| && j < |o| && PassesHalf(data, o, i) && PassesHalf(data, o, j)
      ensures i == j
    {
      assert WeightUpTo(data, o, i) * 2.0 > Sum(o, WeightsIn(data)) && WeightUpTo(data, o, j) * 2.0 > Sum(o, WeightsIn(data));
    }
  }

  /** What training has to give is one tree. */
  lemma {:induction false} TrainedIsUnique(t: DTree, u: DTree, data: seq<Data>, conf: TreeConfig, rng: Shuffles,
                                          samples: seq<nat>, depth: nat, path: seq<bool>)
    requires ValidData(data, conf.featureSize) && Below(samples, |data|)
    requires IsTrained(t, data, conf, rng, samples, depth, path) && IsTrained(u, data, conf, rng, samples, depth, path)
    ensures t == u
    decreases t
  {
    hide IsNodeValue, LooksAt, IsBestCut, HasNoCut, PartByFeature, MustStop;
    OneValue(t.pred, u.pred, data, conf, samples);
    if t.Branch? && u.Branch? {
      SameCut(t, u, data, conf, rng, samples, depth, path);
      TrainedIsUnique(t.left, u.left, data, conf, rng, PartByFeature(data, conf, Members(samples), t.feature, t.threshold, Lower), depth + 1, path + [false]);
      TrainedIsUnique(t.right, u.right, data, conf, rng, PartByFeature(data, conf, Members(samples), t.feature, t.threshold, Upper), depth + 1, path + [true]);
    } else if t.Branch? {
      LeafOrBranch(u, t, data, conf, rng, samples, depth, path);
    } else if u.Branch? {
      LeafOrBranch(t, u, data, conf, rng, samples, depth, path);
    }
  }

  lemma {:induction false} SameCut(t: DTree, u: DTree, data: seq<Data>, conf: TreeConfig, rng: Shuffles,
                                  samples: seq<nat>, depth: nat, path: seq<bool>)
    requires ValidData(data, conf.featureSize) && Below(samples, |data|) && t.Branch? && u.Branch?
    requires IsTrained(t, data, conf, rng, samples, depth, path) && IsTrained(u, data, conf, rng, samples, depth, path)
    ensures t.feature == u.feature && t.threshold == u.threshold
  {
    hide IsNodeValue, CutsAt, CutDeviation, PartByFeature;
    var a, b: nat, i: nat :| LooksAt(conf, rng(path), a) && b < |a| && IsBestCut(data, conf, Members(samples), a, b, i, t.threshold) && a[b] == t.feature;
    var e, c: nat, j: nat :| LooksAt(conf, rng(path), e) && c < |e| && IsBestCut(data, conf, Members(samples), e, c, j, u.threshold) && e[c] == u.feature;
    LooksAtOnce(conf, rng(path), a, e);
    OneBestCut(data, conf, Members(samples), a, b, i, t.threshold, c, j, u.threshold);
  }

  lemma {:induction false} LeafOrBranch(t: DTree, u: DTree, data: seq<Data>, conf: TreeConfig, rng: Shuffles,
                                       samples: seq<nat>, depth: nat, path: seq<bool>)
    requires ValidData(data, conf.featureSize) && Below(samples, |data|) && t.Leaf? && u.Branch?
    requires IsTrained(t, data, conf, rng, samples, depth, path)
    ensures !IsTrained(u, data, conf, rng, samples, depth, path)
  {
    hide IsNodeValue, IsBestCut, HasNoCut, PartByFeature, MustStop;
    if IsTrained(u, data, conf, rng, samples, depth, path) {
      var a :| LooksAt(conf, rng(path), a) && HasNoCut(data, conf, Members(samples), a);
      var e, c: nat, j: nat :| LooksAt(conf, rng(path), e) && c < |e| && IsBestCut(data, conf, Members(samples), e, c, j, u.threshold) && e[c] == u.feature;
      LooksAtOnce(conf, rng(path), a, e);
      BestIsCut(data, conf, Members(samples), e, c, j, u.threshold);
      assert false;
    }
  }

  lemma {:induction false} BestIsCut(data: seq<Data>, conf: TreeConfig, samples: set<nat>, cands: seq<nat>, b: nat, i: nat, v: real)
    requires ValidData(data, conf.featureSize) && Below(cands, conf.featureSize) && IsBestCut(data, conf, samples, cands, b, i, v)
    ensures !HasNoCut(data, conf, samples, cands)
  {
    hide CutsAt, CutDeviation;
    assert CutsAt(data, conf, samples, cands[b], i, v);
  }

  // ---- the size of nodes -------------------------------------------------------------------------

  ghost predicate TargetsDiffer(data: seq<Data>, a: nat, b: nat) {
    a < |data| && b < |data| && (data[a].target - data[b].target >= 0.00001 || data[b].target - data[a].target >= 0.00001)
  }

  /**
   * Every branch is passed more than `minLeafSize` samples, two of which differ in their targets; and
   * a leaf above the greatest depth that is passed more, each differing from another, has no cut.
   */
  ghost predicate ObeysSizes(t: DTree, data: seq<Data>, conf: TreeConfig, rng: Shuffles, samples: set<nat>, depth: nat, path: seq<bool>)
    requires ValidData(data, conf.featureSize)
  {
    match t
    case Leaf(_) =>
      depth < conf.maxDepth && |samples| > conf.minLeafSize && (forall a :: a in samples ==> exists b :: b in samples && TargetsDiffer(data, a, b)) ==>
        exists cands :: LooksAt(conf, rng(path), cands) && HasNoCut(data, conf, samples, cands)
    case Branch(f, v, _, _, l, r) =>
      && depth < conf.maxDepth && |samples| > conf.minLeafSize
      && (exists a, b :: a in samples && b in samples && TargetsDiffer(data, a, b))
      && ObeysSizes(l, data, conf, rng, PassedOn(FeaturesOf(data), samples, f, v, true), depth + 1, path + [false])
      && ObeysSizes(r, data, conf, rng, PassedOn(FeaturesOf(data), samples, f, v, false), depth + 1, path + [true])
  }

  lemma {:induction false} PartIsPassedOn(data: seq<Data>, conf: TreeConfig, samples: set<nat>, f: nat, v: real)
    requires ValidData(data, conf.featureSize) && f < conf.featureSize && forall i :: i in samples ==> i < |data|
    ensures Members(PartByFeature(data, conf, samples, f, v, Lower)) == PassedOn(FeaturesOf(data), samples, f, v, true)
    ensures Members(PartByFeature(data, conf, samples, f, v, Upper)) == PassedOn(FeaturesOf(data), samples, f, v, false)
    ensures Distinct(PartByFeature(data, conf, samples, f, v, Lower)) && Distinct(PartByFeature(data, conf, samples, f, v, Upper))
  {
    hide Sorting;
    var o := Sorting(conf.sort, FeatureValues(data, conf.featureSize, f));
    SortingIsAll(conf.sort, FeatureValues(data, conf.featureSize, f));
    PickedMembers(o, Part(data, conf, samples, f, v, Lower));
    PickedMembers(o, Part(data, conf, samples, f, v, Upper));
  }

  lemma {:induction false} SortingIsAll(sort: Sorter, v: seq<real>)
    ensures Distinct(Sorting(sort, v)) && forall i: nat :: i < |v| ==> i in Sorting(sort, v)
  {
    var o := sort(Entries(v));
    OrderingIsPermutation(o, v);
    RangeIsDistinct(|v|);
    SameCounts(Range(|v|), Indices(o));
    forall i: nat | i < |v|
      ensures i in Indices(o)
    {
      assert Range(|v|)[i] == i;
      CountZero(Range(|v|), i);
      CountZero(Indices(o), i);
    }
  }

  lemma {:induction false} PickedMembers(o: seq<nat>, keep: set<nat>)
    requires Distinct(o)
    ensures Distinct(Picked(o, keep)) && forall i :: i in Picked(o, keep) <==> i in o && i in keep
  {
    if o != [] {
      var n := |o| - 1;
      DistinctSlice(o, 0, n);
      assert o[0..n] == o[..n] && o == o[..n] + [o[n]];
      PickedMembers(o[..n], keep);
      DistinctSides(o, n, o[n]);
      assert o[n..] == [o[n]];
      if o[n] in keep {
        DistinctSnoc(Picked(o[..n], keep), o[n]);
      }
    }
  }

  lemma {:induction false} TrainedObeysSizes(t: DTree, data: seq<Data>, conf: TreeConfig, rng: Shuffles,
                                            samples: seq<nat>, depth: nat, path: seq<bool>)
    requires ValidData(data, conf.featureSize) && Below(samples, |data|) && Distinct(samples)
    requires IsTrained(t, data, conf, rng, samples, depth, path)
    ensures ObeysSizes(t, data, conf, rng, Members(samples), depth, path)
    decreases t
  {
    hide IsNodeValue, LooksAt, IsBestCut, HasNoCut, PartByFeature, PassedOn, Distinct, TargetsDiffer, LikeFirst;
    MembersSize(samples);
    FirstDiffers(data, samples);
    if t.Branch? {
      PartIsPassedOn(data, conf, Members(samples), t.feature, t.threshold);
      TrainedObeysSizes(t.left, data, conf, rng, PartByFeature(data, conf, Members(samples), t.feature, t.threshold, Lower), depth + 1, path + [false]);
      TrainedObeysSizes(t.right, data, conf, rng, PartByFeature(data, conf, Members(samples), t.feature, t.threshold, Upper), depth + 1, path + [true]);
    }
  }

  lemma {:induction false} FirstDiffers(data: seq<Data>, samples: seq<nat>)
    requires Below(samples, |data|)
    ensures !LikeFirst(data, samples) && samples != [] ==>
              exists a, b :: a in Members(samples) && b in Members(samples) && TargetsDiffer(data, a, b)
    ensures LikeFirst(data, samples) ==> exists a :: a in Members(samples) && forall b :: b in Members(samples) ==> !TargetsDiffer(data, a, b)
  {
    if LikeFirst(data, samples) {
      assert samples[0] in Members(samples);
    } else if samples != [] {
      var k :| 0 < k < |samples| && !(-0.00001 < data[samples[0]].target - data[samples[k]].target < 0.00001);
      assert samples[0] in Members(samples) && samples[k] in Members(samples);
      assert TargetsDiffer(data, samples[0], samples[k]);
    }
  }

  /** Training obeys `min_leaf_size` and the comparison of the targets at every node. */
  lemma {:induction false} SizesAreObeyed(data: seq<Data>, conf: TreeConfig, rng: Shuffles, subset: seq<nat>)
    requires ValidData(data, conf.featureSize) && FairShuffles(rng, conf.featureSize)
    requires Distinct(subset) && Below(subset, |data|)
    ensures ObeysSizes(TreeOf(data, conf, rng, subset), data, conf, rng, Members(subset), 0, [])
  {
    hide TreeOf, IsTrained, ObeysSizes;
    TreeOfIsTrained(data, conf, rng, subset);
    TrainedObeysSizes(TreeOf(data, conf, rng, subset), data, conf, rng, subset, 0, []);
  }
}
