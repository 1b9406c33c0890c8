/** What `min_leaf_size` promises, when the trainer keeps it, and the training set on which it does not. */
module LeafSize {
  import opened Options
  import opened Seqs
  import opened Values
  import opened Orderings
  import opened SplitSearch
  import opened TreeSpec
  import opened FittedTree

  // ---- the promise -----------------------------------------------------------------------------

  /** The samples that a branch on feature `f` at `v` passes on to the left, or to the right. */
  ghost function PassedOn(features: seq<seq<Feature>>, samples: set<nat>, f: nat, v: real, left: bool): set<nat> {
    set i | i in samples && i < |features| && f < |features[i]| && features[i][f] != UNKNOWN && (features[i][f] < v) == left
  }

  /** Every leaf of `t` is reached by at least `m` of the samples. */
  ghost predicate LeavesHold(t: DTree, features: seq<seq<Feature>>, samples: set<nat>, m: nat) {
    match t
    case Leaf(_) => |samples| >= m
    case Branch(f, v, _, _, l, r) =>
      && LeavesHold(l, features, PassedOn(features, samples, f, v, true), m)
      && LeavesHold(r, features, PassedOn(features, samples, f, v, false), m)
  }

  /** Trained on at least `minLeafSize` samples, no leaf gets fewer than that. */
  ghost predicate KeepsLeafSize(conf: TreeConfig, data: seq<Data>, rng: Shuffles, subset: seq<nat>) {
    ValidData(data, conf.featureSize) && FairShuffles(rng, conf.featureSize)
    && Distinct(subset) && Below(subset, |data|) && |subset| >= conf.minLeafSize
    ==> LeavesHold(TreeOf(data, conf, rng, subset), FeaturesOf(data), Members(subset), conf.minLeafSize)
  }

  /** How many features one split looks at. */
  function CandidateCount(conf: TreeConfig): nat {
    if conf.featureSampleRatio < 1.0 && SampledFeatureCount(conf) <= conf.featureSize then SampledFeatureCount(conf)
    else conf.featureSize
  }

  lemma {:induction false} CandidatesAreCounted(conf: TreeConfig, shuffled: seq<nat>)
    requires IsPermutation(shuffled, conf.featureSize)
    ensures |Candidates(conf, shuffled)| == CandidateCount(conf)
  {
    PermutationMembers(shuffled, conf.featureSize);
  }

  // ---- where it is kept ------------------------------------------------------------------------

  /** What a split deals to the left and to the right is what its branch passes on. */
  lemma {:induction false} DealtIsPassedOn(p: Problem, samples: seq<nat>, s: Split)
    requires p.Valid() && s.feature < |p.orders| && Distinct(samples) && Below(samples, |p.features|)
    requires IsPartition(s, samples, Column(p.features, s.feature))
    ensures Members(s.left) == PassedOn(p.features, Members(samples), s.feature, s.threshold, true)
    ensures Members(s.right) == PassedOn(p.features, Members(samples), s.feature, s.threshold, false)
  {
    var column := Column(p.features, s.feature);
    PartitionMembers(s, samples, column);
    forall i: nat | i in samples
      ensures i in s.left <==> column[i] != UNKNOWN && column[i] < s.threshold
      ensures i in s.right <==> column[i] != UNKNOWN && !(column[i] < s.threshold)
    {
      PartValue(s, samples, column, i);
    }
  }

  lemma {:induction false} PartValue(s: Split, samples: seq<nat>, column: seq<real>, i: nat)
    requires Separates(s, column) && i in s.unknown + s.left + s.right
    ensures i < |column|
    ensures i in s.left ==> column[i] != UNKNOWN && column[i] < s.threshold
    ensures i in s.right ==> column[i] != UNKNOWN && !(column[i] < s.threshold)
    ensures i in s.unknown ==> column[i] == UNKNOWN
  {
  }

  /** One sample at least reaches every leaf, because no split has an empty side. */
  lemma {:induction false} GrowFills(p: Problem, conf: TreeConfig, rng: Shuffles, samples: seq<nat>, depth: nat, path: seq<bool>, m: nat)
    requires Trainable(p, conf, rng) && IsNode(p, samples) && m <= 1 && |samples| >= m
    ensures LeavesHold(Grow(p, conf, rng, samples, depth, path), p.features, Members(samples), m)
    decreases if depth >= conf.maxDepth then 0 else conf.maxDepth - depth
  {
    hide LeafValue, SplitNode, Candidates, IsPartition, Distinct;
    MembersSize(samples);
    if !Stops(p, conf, rng, samples, depth) {
      var s := NodeSplit(p, conf, rng, samples, path);
      if s.Some? {
        PartsNotEmpty(s.value, samples, Column(p.features, s.value.feature));
        DealtIsPassedOn(p, samples, s.value);
        GrowFills(p, conf, rng, s.value.left, depth + 1, path + [false], m);
        GrowFills(p, conf, rng, s.value.right, depth + 1, path + [true], m);
      }
    }
  }

  lemma {:induction false} PartsNotEmpty(s: Split, samples: seq<nat>, column: seq<real>)
    requires IsPartition(s, samples, column)
    ensures |s.left| >= 1 && |s.right| >= 1
  {
  }

  lemma {:induction false} Keeps(conf: TreeConfig, data: seq<Data>, rng: Shuffles, subset: seq<nat>)
    requires conf.minLeafSize <= 1 || conf.maxDepth == 0 || CandidateCount(conf) == 0
    ensures KeepsLeafSize(conf, data, rng, subset)
  {
    hide LeavesHold;
    if ValidData(data, conf.featureSize) && FairShuffles(rng, conf.featureSize)
       && Distinct(subset) && Below(subset, |data|) && |subset| >= conf.minLeafSize {
      var p := ProblemOf(data, conf.featureSize, conf.sort);
      ProblemIsValid(data, conf.featureSize, conf.sort);
      if conf.minLeafSize <= 1 {
        GrowFills(p, conf, rng, subset, 0, [], conf.minLeafSize);
      } else {
        CandidatesAreCounted(conf, rng([]));
        assert TreeOf(data, conf, rng, subset).Leaf?;
        LeafHolds(TreeOf(data, conf, rng, subset), p.features, subset, conf.minLeafSize);
      }
    }
  }

  lemma {:induction false} LeafHolds(t: DTree, features: seq<seq<Feature>>, samples: seq<nat>, m: nat)
    requires t.Leaf? && Distinct(samples) && |samples| >= m
    ensures LeavesHold(t, features, Members(samples), m)
  {
    MembersSize(samples);
  }

  // ---- where it is broken ----------------------------------------------------------------------

  /** One sample more than the promised size; all features count up, and only the first target differs. */
  function Staircase(conf: TreeConfig): (data: seq<Data>)
    ensures |data| == conf.minLeafSize + 1 && ValidData(data, conf.featureSize)
    ensures forall i :: 0 <= i < |data| ==> data[i].target == (if i == 0 then 1.0 else 0.0) && data[i].weight == 2.0
    ensures forall i, f :: 0 <= i < |data| && 0 <= f < conf.featureSize ==> data[i].feature[f] == i as real
  {
    seq(conf.minLeafSize + 1, i requires i >= 0 =>
      Data(seq(conf.featureSize, _ => i as real), if i == 0 then 1.0 else 0.0, 2.0, 0.0, 0.0, 0.0))
  }

  ghost predicate CountsUp(column: seq<real>) {
    forall i :: 0 <= i < |column| ==> column[i] == i as real
  }

  /** In an ordering of a column that counts up, the first sample comes first and can be cut off. */
  lemma {:induction false} FirstComesFirst(o: seq<Entry>, column: seq<real>)
    requires Matches(o, column) && Sorted(o) && CountsUp(column) && |column| >= 2
    requires multiset(Indices(o)) == multiset(Range(|column|))
    ensures |o| == |column| && UnknownCount(o) == 0 && o[0].index == 0 && IsCut(o, 0)
  {
    RangeIsDistinct(|column|);
    assert |Indices(o)| == |multiset(Indices(o))| && |column| == |multiset(Range(|column|))|;
    assert Range(|column|)[0] == 0;
    CountZero(Range(|column|), 0);
    CountZero(Indices(o), 0);
    assert 0 in Indices(o);
    var k :| 0 <= k < |o| && Indices(o)[k] == 0;
    assert o[0].value <= o[k].value;
    assert o[0].index == 0;
    SameCounts(Range(|column|), Indices(o));
    FirstTwoDiffer(Indices(o));
  }

  lemma {:induction false} FirstTwoDiffer(s: seq<nat>)
    requires Distinct(s) && |s| >= 2
    ensures s[0] != s[1]
  {
    assert s == [s[0], s[1]] + s[2..];
    assert multiset([s[0], s[1]] + s[2..]) == multiset([s[0], s[1]]) + multiset(s[2..]);
    assert multiset(s)[s[0]] <= 1;
  }

  lemma {:induction false} SameCounts(a: seq<nat>, b: seq<nat>)
    requires multiset(a) == multiset(b) && Distinct(a)
    ensures Distinct(b)
  {
  }

  /** Values of which only the first is not zero: cutting it off costs nothing. */
  lemma {:induction false} CuttingFirstIsFree(o: seq<Entry>, values: seq<CacheValue>)
    requires IndicesBelow(o, |values|) && |o| >= 2 && UnknownCount(o) == 0 && o[0].index == 0
    requires Distinct(Indices(o))
    requires forall i :: 0 <= i < |values| ==> values[i] == ValueOf(if i == 0 then 1.0 else 0.0, 2.0)
    ensures CutCost(o, values, 0) == 0.0
  {
    var x := Indices(o);
    assert x[..1] == x[0..1] == [0];
    assert Total(x[..0], values) == CacheValue(0.0, 0.0, 0.0);
    TotalSnoc(x, 0, values);
    forall k | 0 <= k < |x[1..]|
      ensures S(values)[x[1..][k]] == 0.0 && SS(values)[x[1..][k]] == 0.0
    {
      DistinctSides(x, 1, 0);
      assert x[1..][k] != 0;
    }
    SumZero(x[1..], S(values));
    SumZero(x[1..], SS(values));
  }

  lemma {:induction false} SumZero(x: seq<nat>, v: seq<real>)
    requires Below(x, |v|) && forall k :: 0 <= k < |x| ==> v[x[k]] == 0.0
    ensures Sum(x, v) == 0.0
  {
    if x != [] {
      SumZero(x[..|x| - 1], v);
    }
  }

  /** A cut that costs nothing and comes first is the one that is made. */
  lemma {:induction false} FreeFirstCutIsBest(o: seq<Entry>, values: seq<CacheValue>)
    requires IndicesBelow(o, |values|) && IsCut(o, 0) && CutCost(o, values, 0) == 0.0
    ensures BestCut(o, values, |o|) == Some(0)
  {
    BestCutIsFirstCheapest(o, values, |o|);
  }

  /** Feature `f` cuts off sample 0, at no cost. */
  ghost predicate CutsOffFirst(p: Problem, samples: seq<nat>, f: nat)
    requires p.Valid() && f < |p.orders|
  {
    var o := p.Order(f, samples);
    FeatureCut(p, samples, f) == Some(0) && UnknownCount(o) == 0 && o[0].index == 0
  }

  /** On the staircase every feature does. */
  lemma {:induction false} StaircaseCut(conf: TreeConfig, f: nat)
    requires f < conf.featureSize && conf.minLeafSize >= 1
    ensures ValidData(Staircase(conf), conf.featureSize)
    ensures var p := ProblemOf(Staircase(conf), conf.featureSize, conf.sort);
            p.Valid() && |p.orders| == conf.featureSize && CutsOffFirst(p, Range(conf.minLeafSize + 1), f)
  {
    hide FeatureOrders, SortEntries, BestCut, CutCost, IsCut, Distinct;
    var data := Staircase(conf);
    var p, all := ProblemOf(data, conf.featureSize, conf.sort), Range(conf.minLeafSize + 1);
    ProblemIsValid(data, conf.featureSize, conf.sort);
    RangeIsDistinct(|data|);
    var column := Column(p.features, f);
    NodeOrderProperties(p.orders[f], column, all);
    var o := p.Order(f, all);
    FirstComesFirst(o, column);
    SameCounts(all, Indices(o));
    CuttingFirstIsFree(o, p.values);
    FreeFirstCutIsBest(o, p.values);
  }

  /** If every feature cuts off sample 0, the split does, whatever features it looks at. */
  lemma {:induction false} SplitsOffFirst(p: Problem, samples: seq<nat>, cands: seq<nat>)
    requires p.Valid() && Below(cands, |p.orders|) && cands != []
    requires forall f: nat :: f < |p.orders| ==> CutsOffFirst(p, samples, f)
    ensures var s := SplitNode(p, samples, cands); s.Some? && s.value.left == [0]
  {
    hide Problem.Order, FeatureCut, CutCost, UnknownCount, FirstSmallest;
    var imps := Impurities(p, samples, cands);
    FirstSmallestIsMinimum(imps, |cands|);
    assert CutsOffFirst(p, samples, cands[0]);
    assert imps[0].Some?;
    var b := FirstSmallest(imps, |cands|).value;
    assert CutsOffFirst(p, samples, cands[b]);
    assert Indices(p.Order(cands[b], samples))[0..1] == [0];
  }

  /** A node whose split deals a single sample to the left keeps a leaf of that size there. */
  lemma {:induction false} LeafOfOne(p: Problem, conf: TreeConfig, rng: Shuffles, samples: seq<nat>)
    requires Trainable(p, conf, rng) && IsNode(p, samples) && conf.minLeafSize >= 2
    requires !Stops(p, conf, rng, samples, 0) && NodeSplit(p, conf, rng, samples, []).Some?
    requires |NodeSplit(p, conf, rng, samples, []).value.left| == 1
    ensures !LeavesHold(Grow(p, conf, rng, samples, 0, []), p.features, Members(samples), conf.minLeafSize)
  {
    hide LeafValue, SplitNode, Candidates, Problem.Valid;
    var s := NodeSplit(p, conf, rng, samples, []).value;
    DealtIsPassedOn(p, samples, s);
    MembersSize(s.left);
    assert Grow(p, conf, rng, s.left, 1, [false]).Leaf?;
  }

  /** Training on the staircase makes a leaf of a single sample. */
  lemma {:induction false} StaircaseBreaks(conf: TreeConfig, rng: Shuffles)
    requires conf.minLeafSize >= 2 && conf.maxDepth > 0 && CandidateCount(conf) > 0 && FairShuffles(rng, conf.featureSize)
    ensures !KeepsLeafSize(conf, Staircase(conf), rng, Range(conf.minLeafSize + 1))
  {
    hide FeatureOrders, Distinct, LeavesHold, Grow, SplitNode, CutsOffFirst, Problem.Valid, CandidateCount, Candidates;
    var data, all := Staircase(conf), Range(conf.minLeafSize + 1);
    var p := ProblemOf(data, conf.featureSize, conf.sort);
    ProblemIsValid(data, conf.featureSize, conf.sort);
    RangeIsDistinct(|data|);
    CandidatesAreCounted(conf, rng([]));
    forall f: nat | f < conf.featureSize
      ensures CutsOffFirst(p, all, f)
    {
      StaircaseCut(conf, f);
    }
    SplitsOffFirst(p, all, Candidates(conf, rng([])));
    assert !Same(all, p.target) by {
      assert !AlmostEqual(p.target[all[0]], p.target[all[1]]);
    }
    LeafOfOne(p, conf, rng, all);
  }

  // ---- the exact condition ---------------------------------------------------------------------

  /**
   * The documented promise holds for all training sets, subsets and shuffles exactly if the promised
   * size is at most one, or the settings allow no split at all.
   */
  lemma {:induction false} LeafSizeKept(conf: TreeConfig)
    ensures (forall data, rng, subset :: KeepsLeafSize(conf, data, rng, subset)) <==>
              conf.minLeafSize <= 1 || conf.maxDepth == 0 || CandidateCount(conf) == 0
  {
    hide KeepsLeafSize, CandidateCount;
    if conf.minLeafSize <= 1 || conf.maxDepth == 0 || CandidateCount(conf) == 0 {
      forall data, rng, subset
        ensures KeepsLeafSize(conf, data, rng, subset)
      {
        Keeps(conf, data, rng, subset);
      }
    } else {
      StaircaseBreaks(conf, path => Range(conf.featureSize));
    }
  }
}
