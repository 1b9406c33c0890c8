/** Training sets on which the trainer drops a sample, and what the running predictions make of it. */
module DroppedSamples {
  import opened Options
  import opened Seqs
  import opened Values
  import opened Orderings
  import opened SplitSearch
  import opened TreeSpec
  import opened FittedTree
  import opened Descent
  import opened GradientBoost

  /** One sample without a value for the only feature, and two that the feature separates. */
  ghost predicate OneUnknown(data: seq<Data>) {
    && |data| == 3 && ValidData(data, 1)
    && data[0].feature[0] == UNKNOWN < data[1].feature[0] < data[2].feature[0]
    && !AlmostEqual(data[1].feature[0], data[2].feature[0])
    && !AlmostEqual(data[0].target, data[2].target)
  }

  /** Settings under which such samples are split. */
  ghost predicate MaySplit(conf: TreeConfig) {
    conf.featureSize == 1 && conf.maxDepth > 0 && conf.minLeafSize < 3 && conf.featureSampleRatio >= 1.0 && conf.loss.SquaredError?
  }

  function Sample(x: Feature, y: real): Data {
    Data([x], y, 1.0, y, 0.0, 0.0)
  }

  /** An example: values unknown, 0 and 1, targets 0, 0 and 1, default settings but for the depth. */
  lemma {:induction false} ThereAreSuchSamples(sort: Sorter)
    ensures OneUnknown([Sample(UNKNOWN, 0.0), Sample(0.0, 0.0), Sample(1.0, 1.0)])
    ensures MaySplit(TreeConfig(1, 1, 1, SquaredError, 1.0, sort))
  {
  }

  /** In any ordering of the column the unknown value comes first and the other two can be cut apart. */
  lemma {:induction false} CutBehindUnknown(o: seq<Entry>, column: seq<real>)
    requires Matches(o, column) && Sorted(o) && |column| == 3
    requires column[0] == UNKNOWN < column[1] < column[2] && !AlmostEqual(column[1], column[2])
    requires multiset(Indices(o)) == multiset(Range(3))
    ensures IsCut(o, 1)
  {
    var x := Indices(o);
    assert Range(3) == [0, 1, 2];
    assert |x| == |multiset(x)|;
    CountZero(x, 0);
    CountZero(x, 1);
    CountZero(x, 2);
    var a :| 0 <= a < 3 && x[a] == 0;
    var b :| 0 <= b < 3 && x[b] == 1;
    var c :| 0 <= c < 3 && x[c] == 2;
    assert a < b < c;
  }

  lemma {:induction false} OneUnknownCut(data: seq<Data>, conf: TreeConfig)
    requires OneUnknown(data)
    ensures var p := ProblemOf(data, 1, conf.sort);
            p.Valid() && |p.orders| == 1 && |p.features| == 3 && Distinct(Range(3)) && HasCut(p, Range(3), 0, 1)
  {
    hide FeatureOrders, SortEntries, IsCut, Distinct;
    var p := ProblemOf(data, 1, conf.sort);
    ProblemIsValid(data, 1, conf.sort);
    RangeIsDistinct(3);
    var column := Column(p.features, 0);
    NodeOrderProperties(p.orders[0], column, Range(3));
    CutBehindUnknown(p.Order(0, Range(3)), column);
  }

  /** A root that does not stop and whose one feature has a cut becomes a branch on that feature. */
  lemma {:induction false} RootSplits(p: Problem, conf: TreeConfig, rng: Shuffles, samples: seq<nat>, i: nat)
    requires Trainable(p, conf, rng) && IsNode(p, samples) && !Stops(p, conf, rng, samples, 0)
    requires conf.featureSize == 1 && conf.featureSampleRatio >= 1.0 && HasCut(p, samples, 0, i)
    ensures var t := Grow(p, conf, rng, samples, 0, []);
            t.Branch? && t.feature == 0 && t.missing == 0 && t.pred == LeafValue(p, conf.loss, samples)
  {
    hide HasCut, CostAt, FeatureCheapest, SplitNode, LeafValue, Distinct;
    var cands := Candidates(conf, rng([]));
    assert cands == Range(1);
    SplitIsBruteForce(p, samples, cands);
    assert HasCut(p, samples, cands[0], i);
  }

  /** The trained tree asks for the feature, so it drops the first sample; inference gives that one the mean. */
  lemma {:induction false} FirstSampleIsDropped(data: seq<Data>, conf: TreeConfig, rng: Shuffles)
    requires OneUnknown(data) && MaySplit(conf) && FairShuffles(rng, 1)
    ensures Distinct(Range(3))
    ensures var t := TreeOf(data, conf, rng, Range(3));
            && Dropped(t, data[0].feature)
            && Eval(t, data[0].feature) == Some(Ratio(Sum(Range(3), S(ValuesOf(data))), Sum(Range(3), C(ValuesOf(data)))))
  {
    hide FeatureOrders, SortEntries, Distinct, HasCut, Grow, Problem.Valid;
    var p, all := ProblemOf(data, 1, conf.sort), Range(3);
    OneUnknownCut(data, conf);
    ProblemIsValid(data, 1, conf.sort);
    assert !Same(all, p.target) by {
      assert p.target[all[0]] == data[0].target && p.target[all[2]] == data[2].target;
    }
    RootSplits(p, conf, rng, all, 1);
  }

  /**
   * The first tree of a boosting run leaves the unknown marker as that sample's cached prediction,
   * and the running prediction takes the step of the marker instead of the mean's.
   */
  lemma {:induction false} FirstTreeAddsMarker(data: seq<Data>, conf: TreeConfig, rng: Shuffles, cached: seq<real>,
                                               before: seq<real>, after: seq<real>, shrinkage: real)
    requires OneUnknown(data) && MaySplit(conf) && FairShuffles(rng, 1) && Distinct(Range(3))
    requires PredsTrained(seq(3, _ => UNKNOWN), cached, data, Range(3), TreeOf(data, conf, rng, Range(3)))
    requires StepsBy(before, after, seq(3, _ => UNKNOWN), data, Range(3), TreeOf(data, conf, rng, Range(3)), shrinkage)
    ensures cached[0] == UNKNOWN
    ensures after[0] == before[0] + shrinkage * UNKNOWN
  {
    hide TreeOf, Dropped, Eval, Distinct, MaySplit;
    FirstSampleIsDropped(data, conf, rng);
    assert Range(3)[0] == 0;
  }
}
