/**
 * The tree that training builds, as a function of the samples alone: no cache level, no vector of
 * nodes, no running sums. The imperative trainer is proved to build exactly this tree.
 */
module TreeSpec {
  import opened Options
  import opened Seqs
  import opened Values
  import opened Orderings
  import opened SplitSearch

  /** `sort` stands for the column sort, which may order equal values in any way of its own. */
  datatype TreeConfig = TreeConfig(
    featureSize: nat,
    maxDepth: nat,
    minLeafSize: nat,
    loss: Loss,
    featureSampleRatio: real,
    sort: Sorter)

  /** The shuffles drawn while one tree is grown, indexed by the path (false = left) of the node. */
  type Shuffles = seq<bool> -> seq<nat>

  ghost predicate FairShuffles(rng: Shuffles, featureSize: nat) {
    forall path :: IsPermutation(rng(path), featureSize)
  }

  /** Everything the trainer may look at while it grows one tree. */
  datatype Problem = Problem(
    features: seq<seq<Feature>>,
    orders: seq<seq<Entry>>,
    residual: seq<real>,
    residualOrder: seq<Entry>,
    values: seq<CacheValue>,
    logitC: seq<real>,
    target: seq<real>)
  {
    ghost predicate Valid() {
      var n := |features|;
      && |values| == |logitC| == |target| == |residual| == n
      && (forall i :: 0 <= i < n ==> |features[i]| == |orders|)
      && (forall i :: 0 <= i < n ==> values[i] == ValueOf(target[i], values[i].c))
      && (forall f :: 0 <= f < |orders| ==> IndicesBelow(orders[f], n) && IsOrdering(orders[f], Column(features, f)))
      && IndicesBelow(residualOrder, n)
      && IsOrdering(residualOrder, residual)
    }

    /** The sorted samples of a node, by feature `f`. */
    ghost function Order(f: nat, samples: seq<nat>): seq<Entry>
      requires f < |orders| && IndicesBelow(orders[f], |features|)
    {
      NodeOrder(orders[f], |features|, samples)
    }
  }

  function LogitWeight(target: real, weight: real): real {
    Abs(target) * (2.0 - Abs(target)) * weight
  }

  function FeaturesOf(data: seq<Data>): (r: seq<seq<Feature>>)
    ensures |r| == |data| && forall i :: 0 <= i < |data| ==> r[i] == data[i].feature
  {
    seq(|data|, i requires 0 <= i < |data| => data[i].feature)
  }

  function FeatureOrders(features: seq<seq<Feature>>, featureSize: nat, sort: Sorter): (r: seq<seq<Entry>>)
    requires forall i :: 0 <= i < |features| ==> |features[i]| == featureSize
    ensures |r| == featureSize
    ensures forall f :: 0 <= f < featureSize ==> r[f] == sort(Entries(Column(features, f)))
  {
    seq(featureSize, f requires 0 <= f < featureSize => sort(Entries(Column(features, f))))
  }

  function ResidualsOf(data: seq<Data>): (r: seq<real>)
    ensures |r| == |data| && forall i :: 0 <= i < |data| ==> r[i] == data[i].residual
  {
    seq(|data|, i requires 0 <= i < |data| => data[i].residual)
  }

  function ValuesOf(data: seq<Data>): (r: seq<CacheValue>)
    ensures |r| == |data| && forall i :: 0 <= i < |data| ==> r[i] == ValueOf(data[i].target, data[i].weight)
  {
    seq(|data|, i requires 0 <= i < |data| => ValueOf(data[i].target, data[i].weight))
  }

  function LogitsOf(data: seq<Data>): (r: seq<real>)
    ensures |r| == |data| && forall i :: 0 <= i < |data| ==> r[i] == LogitWeight(data[i].target, data[i].weight)
  {
    seq(|data|, i requires 0 <= i < |data| => LogitWeight(data[i].target, data[i].weight))
  }

  function TargetsOf(data: seq<Data>): (r: seq<real>)
    ensures |r| == |data| && forall i :: 0 <= i < |data| ==> r[i] == data[i].target
  {
    seq(|data|, i requires 0 <= i < |data| => data[i].target)
  }

  /** What one iteration of training sees of its data. */
  function ProblemOf(data: seq<Data>, featureSize: nat, sort: Sorter): Problem
    requires ValidData(data, featureSize)
  {
    Problem(FeaturesOf(data), FeatureOrders(FeaturesOf(data), featureSize, sort),
            ResidualsOf(data), sort(Entries(ResidualsOf(data))),
            ValuesOf(data), LogitsOf(data), TargetsOf(data))
  }

  lemma ProblemIsValid(data: seq<Data>, featureSize: nat, sort: Sorter)
    requires ValidData(data, featureSize)
    ensures ProblemOf(data, featureSize, sort).Valid()
    ensures |ProblemOf(data, featureSize, sort).orders| == featureSize
  {
    var features := FeaturesOf(data);
    forall f: nat | f < featureSize
      ensures IsOrdering(sort(Entries(Column(features, f))), Column(features, f))
    {
    }
  }

  function Column(features: seq<seq<Feature>>, f: nat): (c: seq<real>)
    requires forall i :: 0 <= i < |features| ==> f < |features[i]|
    ensures |c| == |features| && forall i :: 0 <= i < |c| ==> c[i] == features[i][f]
  {
    seq(|features|, i requires 0 <= i < |features| => features[i][f])
  }

  // ---- leaf values -----------------------------------------------------------------------------

  function Ratio(s: real, c: real): real {
    if Abs(c) < 0.0000000001 then 0.0 else s / c
  }

  /** From position `i` on, the first sample at which the running weight passes half of `all`. */
  function MedianFrom(o: seq<Entry>, values: seq<CacheValue>, all: real, i: nat): real
    requires IndicesBelow(o, |values|) && i <= |o|
    decreases |o| - i
  {
    if i == |o| then 0.0
    else if Sum(Indices(o)[..i + 1], C(values)) * 2.0 > all then
      if i >= 1 then (o[i].value + o[i - 1].value) / 2.0 else o[i].value
    else MedianFrom(o, values, all, i + 1)
  }

  function WeightThrough(o: seq<Entry>, values: seq<CacheValue>, i: nat): real
    requires IndicesBelow(o, |values|) && i < |o|
  {
    Sum(Indices(o)[..i + 1], C(values))
  }

  /** `i` is the first sample at which the running weight passes half of `all`. */
  ghost predicate PassesHalfAt(o: seq<Entry>, values: seq<CacheValue>, all: real, i: nat)
    requires IndicesBelow(o, |values|) && i < |o|
  {
    && WeightThrough(o, values, i) * 2.0 > all
    && forall k :: 0 <= k < i ==> WeightThrough(o, values, k) * 2.0 <= all
  }

  /** The weighted median is the mean of the first sample past half of the weight and its predecessor. */
  lemma MedianPassesHalf(o: seq<Entry>, values: seq<CacheValue>, all: real, i: nat)
    requires IndicesBelow(o, |values|) && i < |o| && PassesHalfAt(o, values, all, i)
    ensures MedianFrom(o, values, all, 0) == if i == 0 then o[0].value else (o[i].value + o[i - 1].value) / 2.0
  {
    for k := 0 to i
      invariant MedianFrom(o, values, all, 0) == MedianFrom(o, values, all, k)
    {
      assert k < i ==> WeightThrough(o, values, k) * 2.0 <= all;
    }
  }

  ghost function LeafValue(p: Problem, loss: Loss, samples: seq<nat>): real
    requires p.Valid() && Below(samples, |p.features|)
  {
    match loss
    case LogLikelyhood => Ratio(Sum(samples, S(p.values)), Sum(samples, p.logitC))
    case LAD =>
      var o := NodeOrder(p.residualOrder, |p.features|, samples);
      MedianFrom(o, p.values, Sum(Indices(o), C(p.values)), 0)
    case _ => Ratio(Sum(samples, S(p.values)), Sum(samples, C(p.values)))
  }

  // ---- choosing the split ----------------------------------------------------------------------

  function SampledFeatureCount(conf: TreeConfig): (fs: nat) {
    if conf.featureSampleRatio < 0.0 then 0
    else
      var x := conf.featureSampleRatio * conf.featureSize as real;
      assert x >= 0.0;
      x.Floor
  }

  /** The features looked at in one split: all of them in order, or a prefix of the shuffle. */
  function Candidates(conf: TreeConfig, shuffled: seq<nat>): (c: seq<nat>)
    requires IsPermutation(shuffled, conf.featureSize)
    ensures Below(c, conf.featureSize)
  {
    PermutationMembers(shuffled, conf.featureSize);
    if conf.featureSampleRatio < 1.0 then
      shuffled[..if SampledFeatureCount(conf) <= |shuffled| then SampledFeatureCount(conf) else |shuffled|]
    else Range(conf.featureSize)
  }

  ghost function FeatureCut(p: Problem, samples: seq<nat>, f: nat): (b: Option<nat>)
    requires p.Valid() && f < |p.orders|
    ensures b.Some? ==> IsCut(p.Order(f, samples), b.value)
  {
    BestCut(p.Order(f, samples), p.values, |p.Order(f, samples)|)
  }

  ghost function Impurity(p: Problem, samples: seq<nat>, f: nat): Option<real>
    requires p.Valid() && f < |p.orders|
  {
    match FeatureCut(p, samples, f)
    case None => None
    case Some(i) => Some(CutCost(p.Order(f, samples), p.values, i))
  }

  ghost function Impurities(p: Problem, samples: seq<nat>, cands: seq<nat>): (imps: seq<Option<real>>)
    requires p.Valid() && Below(cands, |p.orders|)
    ensures |imps| == |cands| && forall j :: 0 <= j < |cands| ==> imps[j] == Impurity(p, samples, cands[j])
  {
    seq(|cands|, j requires 0 <= j < |cands| => Impurity(p, samples, cands[j]))
  }

  ghost function SplitNode(p: Problem, samples: seq<nat>, cands: seq<nat>): Option<Split>
    requires p.Valid() && Below(cands, |p.orders|)
  {
    match FirstSmallest(Impurities(p, samples, cands), |cands|)
    case None => None
    case Some(b) => Some(CutAt(p.Order(cands[b], samples), cands[b], FeatureCut(p, samples, cands[b]).value))
  }

  /** One feature: its cut is cheapest, or it has none. */
  lemma FeatureCutIsCheapest(p: Problem, samples: seq<nat>, f: nat)
    requires p.Valid() && f < |p.orders|
    ensures match Impurity(p, samples, f)
            case None => forall i :: !HasCut(p, samples, f, i)
            case Some(cost) => FeatureCheapest(p, samples, f, cost)
  {
    var o := p.Order(f, samples);
    BestCutIsFirstCheapest(o, p.values, |o|);
  }

  ghost predicate HasCut(p: Problem, samples: seq<nat>, f: nat, i: nat)
    requires p.Valid() && f < |p.orders|
  {
    IsCut(p.Order(f, samples), i)
  }

  ghost function CostAt(p: Problem, samples: seq<nat>, f: nat, i: nat): real
    requires p.Valid() && f < |p.orders| && HasCut(p, samples, f, i)
  {
    CutCost(p.Order(f, samples), p.values, i)
  }

  /** No cut of feature `f` costs less. */
  ghost predicate FeatureCheapest(p: Problem, samples: seq<nat>, f: nat, cost: real)
    requires p.Valid() && f < |p.orders|
  {
    forall i :: HasCut(p, samples, f, i) ==> cost <= CostAt(p, samples, f, i)
  }

  lemma StillCheapest(p: Problem, samples: seq<nat>, f: nat)
    requires p.Valid() && f < |p.orders|
    ensures forall a, b :: FeatureCheapest(p, samples, f, a) && b <= a ==> FeatureCheapest(p, samples, f, b)
    ensures (forall i :: !HasCut(p, samples, f, i)) ==> forall b :: FeatureCheapest(p, samples, f, b)
  {
  }

  /**
   * The split search is brute force over all candidate features and all of their cuts: there is no
   * split only when there is no cut at all, and otherwise no cut of any candidate costs less than
   * the one made.
   */
  lemma SplitIsBruteForce(p: Problem, samples: seq<nat>, cands: seq<nat>)
    requires p.Valid() && Below(cands, |p.orders|)
    ensures match SplitNode(p, samples, cands)
            case None =>
              forall j, i :: 0 <= j < |cands| ==> !HasCut(p, samples, cands[j], i)
            case Some(s) =>
              exists b, c :: 0 <= b < |cands| && HasCut(p, samples, cands[b], c)
                && s == CutAt(p.Order(cands[b], samples), cands[b], c)
                && forall j :: 0 <= j < |cands| ==>
                     FeatureCheapest(p, samples, cands[j], CostAt(p, samples, cands[b], c))
  {
    hide FeatureCheapest, IsCut, CutCost, FirstSmallest;
    var imps := Impurities(p, samples, cands);
    FirstSmallestIsMinimum(imps, |cands|);
    forall j | 0 <= j < |cands|
      ensures imps[j].None? ==> forall i :: !HasCut(p, samples, cands[j], i)
      ensures imps[j].Some? ==> FeatureCheapest(p, samples, cands[j], imps[j].value)
    {
      FeatureCutIsCheapest(p, samples, cands[j]);
    }
    var r := FirstSmallest(imps, |cands|);
    if r.Some? {
      var b := r.value;
      var c := FeatureCut(p, samples, cands[b]).value;
      assert HasCut(p, samples, cands[b], c) && CostAt(p, samples, cands[b], c) == imps[b].value;
      forall j | 0 <= j < |cands|
        ensures FeatureCheapest(p, samples, cands[j], imps[b].value)
      {
        assert !Worse(imps[b], imps[j]);
        StillCheapest(p, samples, cands[j]);
      }
    }
  }

  /** A split node: the parts partition its samples and the threshold separates left from right. */
  lemma SplitPartitions(p: Problem, samples: seq<nat>, cands: seq<nat>)
    requires p.Valid() && Below(cands, |p.orders|)
    requires Distinct(samples) && Below(samples, |p.features|)
    requires SplitNode(p, samples, cands).Some?
    ensures var s := SplitNode(p, samples, cands).value;
            s.feature in cands && s.feature < |p.orders| && IsPartition(s, samples, Column(p.features, s.feature))
  {
    var f := cands[FirstSmallest(Impurities(p, samples, cands), |cands|).value];
    var i := FeatureCut(p, samples, f).value;
    var column := Column(p.features, f);
    NodeOrderProperties(p.orders[f], column, samples);
    assert Distinct(Indices(p.Order(f, samples)));
    CutPartitions(p.Order(f, samples), column, samples, f, i);
  }
}
