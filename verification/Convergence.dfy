/** What one boosting iteration is, read off its samples, and how it brings a prediction to its label. */
module Convergence {
  import opened Options
  import opened Seqs
  import opened Values
  import opened Orderings
  import opened SplitSearch
  import opened TreeSpec
  import opened FittedTree
  import opened LeafSize
  import opened TrainedTree
  import opened Descent
  import opened GradientBoost

  // ---- every tree of a run -----------------------------------------------------------------------

  /** `t` is trained on the samples that the loss makes of the predictions so far, drawn by the shuffle. */
  ghost predicate IsBoostedTree(t: DTree, now: seq<Data>, subset: seq<nat>, i: nat, before: seq<real>, conf: Config,
                                rand: Randomness, data: seq<Data>, exp: Exponential)
  {
    && |now| == |data| == |before|
    && (forall j :: 0 <= j < |now| ==> FollowsLoss(now[j], data[j], conf.loss, before[j], exp))
    && ValidData(now, conf.featureSize) && Below(subset, |now|)
    && Draws(subset, conf.dataSampleRatio, rand.perms(i), |data|)
    && IsTrained(t, now,
                 TreeConfig(featureSize := conf.featureSize, maxDepth := conf.maxDepth, minLeafSize := conf.minLeafSize,
                            loss := conf.loss, featureSampleRatio := conf.featureSampleRatio, sort := conf.sort),
                 rand.rngs(i), subset, 0, [])
  }

  /** Every tree of a run is such a tree. */
  lemma {:induction false} RunOfBoostedTrees(models: seq<DTree>, history: seq<Running>, conf: Config, bias: real, rand: Randomness,
                                            data: seq<Data>, exp: Exponential, i: nat)
    requires Fair(rand, |data|, conf.featureSize) && TrainedInTurn(models, history, conf, bias, rand, data, exp) && i < |models|
    ensures exists now, subset :: IsBoostedTree(models[i], now, subset, i, history[i].predicted, conf, rand, data, exp)
  {
    hide Tracks, Advances, FollowsLoss, Retarget, Draws, IsTrained, TreeOf, IsPermutation, FairShuffles, Subset, Distinct;
    var before := history[i].predicted;
    var now, subset := RetargetAll(data, conf.loss, before, exp), Subset(conf.dataSampleRatio, rand.perms(i), |data|);
    forall j | 0 <= j < |now|
      ensures FollowsLoss(now[j], data[j], conf.loss, before[j], exp)
    {
      RetargetFollows(data[j], conf.loss, before[j], exp);
    }
    FairAt(rand, |data|, conf.featureSize, i);
    SubsetIsDrawn(conf.dataSampleRatio, rand.perms(i), |data|);
    TreeOfIsTrained(now, TreeConfigOf(conf), rand.rngs(i), subset);
    assert IsBoostedTree(models[i], now, subset, i, before, conf, rand, data, exp);
  }

  /** Before the first tree every sample is predicted its own initial guess, or the bias. */
  lemma {:induction false} FirstPredictions(conf: Config, bias: real, data: seq<Data>, j: nat)
    requires j < |data|
    ensures BoostedAll([], conf, bias, data)[j] == if conf.initialGuessEnabled then data[j].initialGuess else bias
  {
  }

  /** The bias: the weighted mean label under squared error, its log-odds under log-likelihood, left alone with guesses. */
  lemma {:induction false} BiasIs(conf: Config, data: seq<Data>, logOdds: real -> real, before: real)
    requires forall i :: 0 <= i < |data| ==> |data[i].feature| == conf.featureSize
    ensures conf.initialGuessEnabled ==> InitialBias(conf, data, logOdds, before) == Some(before)
    ensures !conf.initialGuessEnabled && !conf.loss.LAD? ==>
              exists mean :: IsQuotient(mean, Sum(Range(|data|), WeightedLabels(data)), Sum(Range(|data|), WeightsIn(data)))
                && InitialBias(conf, data, logOdds, before) == Some(if conf.loss.LogLikelyhood? then logOdds(mean) else mean)
  {
    hide Sum, Ratio;
    assert Weights(data) == WeightsIn(data);
    RatioIsQuotient(Sum(Range(|data|), WeightedLabels(data)), Sum(Range(|data|), Weights(data)));
  }

  // ---- a sample alone in its leaf ----------------------------------------------------------------

  /** The turns of a sample, as far as its values are known (true = left). */
  function Turns(t: DTree, x: seq<Feature>): seq<bool> {
    match t
    case Leaf(_) => []
    case Branch(f, v, _, _, l, r) =>
      if |x| <= f || x[f] == UNKNOWN then []
      else if x[f] < v then [true] + Turns(l, x) else [false] + Turns(r, x)
  }

  /** No other sample ends where sample `j` does, and that is a leaf. */
  ghost predicate Alone(t: DTree, data: seq<Data>, samples: seq<nat>, j: nat)
    requires Below(samples, |data|) && j < |data|
  {
    && j in samples && !Dropped(t, data[j].feature)
    && forall k :: 0 <= k < |samples| && samples[k] != j ==> Turns(t, data[samples[k]].feature) != Turns(t, data[j].feature)
  }

  /** A sample alone in its leaf is predicted what a node of that sample alone is. */
  lemma {:induction false} AloneValue(t: DTree, data: seq<Data>, conf: TreeConfig, rng: Shuffles, samples: seq<nat>,
                                     depth: nat, path: seq<bool>, j: nat)
    requires ValidData(data, conf.featureSize) && Below(samples, |data|) && Distinct(samples) && j < |data|
    requires IsTrained(t, data, conf, rng, samples, depth, path) && Alone(t, data, samples, j)
    ensures Eval(t, data[j].feature).Some? && IsNodeValue(Eval(t, data[j].feature).value, data, conf, [j])
    decreases t
  {
    hide IsNodeValue, LooksAt, IsBestCut, HasNoCut, MustStop, PartByFeature, Distinct;
    match t
    case Leaf(_) =>
      OnlyOne(samples, j);
    case Branch(f, v, _, _, l, r) =>
      var left := data[j].feature[f] < v;
      var rest := PartByFeature(data, conf, Members(samples), f, v, if left then Lower else Upper);
      PartIsPassedOn(data, conf, Members(samples), f, v);
      StillAlone(t, data, samples, rest, j);
      AloneValue(if left then l else r, data, conf, rng, rest, depth + 1, path + [!left], j);
  }

  lemma {:induction false} OnlyOne(samples: seq<nat>, j: nat)
    requires Distinct(samples) && j in samples && forall k :: 0 <= k < |samples| ==> samples[k] == j
    ensures samples == [j]
  {
    if |samples| > 1 {
      FirstTwoDiffer(samples);
    }
  }

  lemma {:induction false} StillAlone(t: DTree, data: seq<Data>, samples: seq<nat>, rest: seq<nat>, j: nat)
    requires Below(samples, |data|) && j < |data| && Alone(t, data, samples, j)
    requires t.Branch? && t.feature < |data[j].feature| && data[j].feature[t.feature] != UNKNOWN
    requires Below(rest, |data|)
    requires Members(rest) == PassedOn(FeaturesOf(data), Members(samples), t.feature, t.threshold, data[j].feature[t.feature] < t.threshold)
    ensures Alone(if data[j].feature[t.feature] < t.threshold then t.left else t.right, data, rest, j)
  {
    var left := data[j].feature[t.feature] < t.threshold;
    var u := if left then t.left else t.right;
    assert j in Members(samples) && j in Members(rest);
    forall k | 0 <= k < |rest| && rest[k] != j
      ensures Turns(u, data[rest[k]].feature) != Turns(u, data[j].feature)
    {
      assert rest[k] in Members(rest) && rest[k] in Members(samples);
      var m :| 0 <= m < |samples| && samples[m] == rest[k];
      assert Turns(t, data[samples[m]].feature) != Turns(t, data[j].feature);
      assert Turns(t, data[rest[k]].feature) == [left] + Turns(u, data[rest[k]].feature);
      assert Turns(t, data[j].feature) == [left] + Turns(u, data[j].feature);
    }
  }

  /** Alone in its node, a sample of positive weight is predicted its residual, under LAD. */
  lemma {:induction false} LadValueAlone(pred: real, data: seq<Data>, conf: TreeConfig, j: nat)
    requires conf.loss.LAD? && j < |data| && data[j].weight > 0.0 && IsNodeValue(pred, data, conf, [j])
    ensures pred == data[j].residual
  {
    hide Sorting, Picked, IsMedian;
    PickedAlone(conf.sort, ResidualsOf(data), j);
    MedianAlone(pred, data, j);
  }

  lemma {:induction false} PickedAlone(sort: Sorter, v: seq<real>, j: nat)
    requires j < |v|
    ensures Picked(Sorting(sort, v), Members([j])) == [j]
  {
    hide Sorting, Distinct, Picked;
    var o := Sorting(sort, v);
    SortingIsAll(sort, v);
    PickedMembers(o, Members([j]));
    assert j in Members([j]);
    OnlyOne(Picked(o, Members([j])), j);
  }

  lemma {:induction false} MedianAlone(pred: real, data: seq<Data>, j: nat)
    requires j < |data| && data[j].weight > 0.0 && IsMedian(pred, data, [j])
    ensures pred == data[j].residual
  {
    SumSnoc([j], 0, WeightsIn(data));
    assert [j][..1] == [j] && [j][..0] == [];
    assert PassesHalf(data, [j], 0);
  }

  /** And its target, under squared error, if its weight counts. */
  lemma {:induction false} MeanAlone(pred: real, data: seq<Data>, conf: TreeConfig, j: nat)
    requires (conf.loss.SquaredError? || conf.loss.OtherLoss?) && j < |data| && data[j].weight >= 0.0000000001
    requires IsNodeValue(pred, data, conf, [j])
    ensures pred == data[j].target
  {
    SumSnoc([j], 0, WeightsIn(data));
    SumSnoc([j], 0, WeightedTargets(data));
    assert [j][..1] == [j] && [j][..0] == [];
    DividesOnce(pred, data[j].target, data[j].weight);
  }

  /** Alone in its leaf, a sample is predicted what is left to its label. */
  lemma {:induction false} AloneIsFitted(t: DTree, i: nat, before: seq<real>, conf: Config, rand: Randomness, data: seq<Data>,
                                        exp: Exponential, j: nat)
    requires Fair(rand, |data|, conf.featureSize) && TrainedOn(t, i, before, conf, rand, data, exp)
    requires j < |data| && !conf.loss.LogLikelyhood?
    requires if conf.loss.LAD? then data[j].weight > 0.0 else data[j].weight >= 0.0000000001
    requires Below(Subset(conf.dataSampleRatio, rand.perms(i), |data|), |data|)
    requires Alone(t, data, Subset(conf.dataSampleRatio, rand.perms(i), |data|), j)
    ensures |before| == |data| && Eval(t, data[j].feature) == Some(data[j].sampleLabel - before[j])
  {
    hide IsTrained, IsNodeValue, TreeOf, Subset, Distinct, IsPermutation, FairShuffles, Turns, Retarget;
    var now, subset := RetargetAll(data, conf.loss, before, exp), Subset(conf.dataSampleRatio, rand.perms(i), |data|);
    forall k | 0 <= k < |data|
      ensures now[k].feature == data[k].feature && FollowsLoss(now[k], data[k], conf.loss, before[k], exp)
    {
      RetargetFollows(data[k], conf.loss, before[k], exp);
    }
    TreeOfIsTrained(now, TreeConfigOf(conf), rand.rngs(i), subset);
    AloneValue(t, now, TreeConfigOf(conf), rand.rngs(i), subset, 0, [], j);
    var pred := Eval(t, now[j].feature).value;
    if conf.loss.LAD? {
      LadValueAlone(pred, now, TreeConfigOf(conf), j);
    } else {
      MeanAlone(pred, now, TreeConfigOf(conf), j);
    }
  }

  lemma {:induction false} StepShrinks(y: real, before: real, after: real, shrinkage: real)
    requires after == before + shrinkage * (y - before)
    ensures Abs(y - after) == Abs(1.0 - shrinkage) * Abs(y - before)
  {
    var a, b := 1.0 - shrinkage, y - before;
    assert y - after == a * b;
    AbsTimes(a, b);
  }

  lemma {:induction false} AbsTimes(a: real, b: real)
    ensures Abs(a * b) == Abs(a) * Abs(b)
  {
    if a < 0.0 {
      assert a * b == -((-a) * b);
    }
    assert Abs(a) * b == if b < 0.0 then -(Abs(a) * -b) else Abs(a) * b;
    assert Abs(a) * Abs(b) >= 0.0;
  }

  lemma {:induction false} StepAt(a: Running, b: Running, t: DTree, subset: seq<nat>, data: seq<Data>, shrinkage: real, j: nat, pred: real)
    requires Advances(a, b, t, subset, data, shrinkage) && j < |data|
    requires !Dropped(t, data[j].feature) && Eval(t, data[j].feature) == Some(pred)
    ensures |a.predicted| == |b.predicted| == |data|
    ensures b.predicted[j] == a.predicted[j] + shrinkage * pred
  {
  }

  /**
   * After every iteration under squared error or LAD, a trained sample that is alone in its leaf, with
   * a weight that counts, is |1 - shrinkage| times as far from its label as before, whatever earlier
   * iterations did to it.
   */
  lemma {:induction false} AloneConverges(models: seq<DTree>, history: seq<Running>, conf: Config, bias: real, rand: Randomness,
                                         data: seq<Data>, exp: Exponential, i: nat, j: nat)
    requires Fair(rand, |data|, conf.featureSize) && TrainedInTurn(models, history, conf, bias, rand, data, exp) && i < |models|
    requires j < |data| && !conf.loss.LogLikelyhood?
    requires if conf.loss.LAD? then data[j].weight > 0.0 else data[j].weight >= 0.0000000001
    requires Below(Subset(conf.dataSampleRatio, rand.perms(i), |data|), |data|)
    requires Alone(models[i], data, Subset(conf.dataSampleRatio, rand.perms(i), |data|), j)
    ensures |history[i].predicted| == |history[i + 1].predicted| == |data|
    ensures Abs(data[j].sampleLabel - history[i + 1].predicted[j])
              == Abs(1.0 - conf.shrinkage) * Abs(data[j].sampleLabel - history[i].predicted[j])
  {
    hide Advances, Tracks, TrainedOn, Subset, IsPermutation, FairShuffles, Turns, Abs;
    var subset := Subset(conf.dataSampleRatio, rand.perms(i), |data|);
    AloneIsFitted(models[i], i, history[i].predicted, conf, rand, data, exp, j);
    var rest := data[j].sampleLabel - history[i].predicted[j];
    StepAt(history[i], history[i + 1], models[i], subset, data, conf.shrinkage, j, rest);
    StepShrinks(data[j].sampleLabel, history[i].predicted[j], history[i + 1].predicted[j], conf.shrinkage);
  }
}
