/** Why boosting with squared error never raises the training error. */
module Descent {
  import opened Seqs
  import opened Values
  import opened Orderings
  import opened SplitSearch
  import opened TreeSpec
  import opened FittedTree

  function Square(x: real): real {
    x * x
  }

  /** weight * (target - step)^2 */
  function ErrorOf(y: real, w: real, step: real): real {
    w * Square(y - step)
  }

  function ErrorAfter(y: real, w: real, eta: real, pred: real): real {
    ErrorOf(y, w, eta * pred)
  }

  lemma ErrorAfterIs(y: real, w: real, eta: real, pred: real, step: real)
    requires step == eta * pred
    ensures ErrorAfter(y, w, eta, pred) == ErrorOf(y, w, step)
  {
  }

  /** The error of every sample after a step of `eta` times the tree's prediction. */
  function Errors(p: Problem, t: DTree, eta: real): (v: seq<real>)
    requires |p.values| == |p.target| == |p.features|
    ensures |v| == |p.values|
    ensures forall j :: 0 <= j < |v| ==> v[j] == ErrorAfter(p.target[j], p.values[j].c, eta, Prediction(t, p.features[j]))
  {
    seq(|p.values|, j requires 0 <= j < |p.values| => ErrorAfter(p.target[j], p.values[j].c, eta, Prediction(t, p.features[j])))
  }

  lemma ExpandSquare(y: real, w: real, a: real)
    ensures ErrorOf(y, w, a) == ValueOf(y, w).ss - 2.0 * a * ValueOf(y, w).s + a * a * ValueOf(y, w).c
  {
    assert Square(y - a) == y * y - 2.0 * a * y + a * a;
    assert w * (y * y - 2.0 * a * y + a * a) == w * (y * y) - w * (2.0 * a * y) + w * (a * a);
  }

  /** Moving every sample of a leaf by the same amount `a`. */
  lemma {:induction false} LeafErrors(x: seq<nat>, values: seq<CacheValue>, target: seq<real>, v: seq<real>, a: real)
    requires |v| == |values| == |target| && Below(x, |v|)
    requires forall i :: 0 <= i < |values| ==> values[i] == ValueOf(target[i], values[i].c)
    requires forall k :: 0 <= k < |x| ==> v[x[k]] == ErrorOf(target[x[k]], values[x[k]].c, a)
    ensures Sum(x, v) == Sum(x, SS(values)) - 2.0 * a * Sum(x, S(values)) + a * a * Sum(x, C(values))
  {
    hide ErrorOf, ValueOf;
    if x != [] {
      var k := |x| - 1;
      LeafErrors(x[..k], values, target, v, a);
      ExpandSquare(target[x[k]], values[x[k]].c, a);
      Distribute(a, Sum(x[..k], S(values)), values[x[k]].s, Sum(x[..k], C(values)), values[x[k]].c);
    }
  }

  lemma Distribute(a: real, s: real, s': real, c: real, c': real)
    ensures 2.0 * a * (s + s') == 2.0 * a * s + 2.0 * a * s'
    ensures a * a * (c + c') == a * a * c + a * a * c'
  {
  }

  /**
   * The weighted mean is the minimiser; a step of at most twice the way to it does not go up, and
   * for a leaf whose mean is not zero any other step does.
   */
  lemma MeanDescends(s: real, ss: real, c: real, eta: real)
    requires c >= 0.0
    ensures var a := eta * Ratio(s, c);
            ss - 2.0 * a * s + a * a * c <= ss <==> 0.0 <= eta <= 2.0 || Ratio(s, c) == 0.0
  {
    var m := Ratio(s, c);
    var a := eta * m;
    if m == 0.0 {
      assert a == 0.0;
    } else {
      assert m * c == s;
      var q := m * m * c;
      assert q > 0.0 by { SquareTimes(m, c); }
      assert a * s == eta * q;
      assert a * a * c == eta * eta * q;
      assert eta * eta * q - 2.0 * (eta * q) == (eta * (eta - 2.0)) * q;
      SignOfStep(eta, q);
    }
  }

  lemma SquareTimes(m: real, c: real)
    requires m != 0.0 && c > 0.0
    ensures m * m * c > 0.0
  {
    assert m * m > 0.0;
  }

  lemma SignOfStep(eta: real, q: real)
    requires q > 0.0
    ensures (eta * (eta - 2.0)) * q <= 0.0 <==> 0.0 <= eta <= 2.0
  {
    var e := eta * (eta - 2.0);
    assert e <= 0.0 <==> 0.0 <= eta <= 2.0 by {
      if eta < 0.0 {
        assert (0.0 - eta) * (2.0 - eta) > 0.0;
      } else if eta > 2.0 {
        assert eta * (eta - 2.0) > 0.0;
      } else {
        assert eta * (2.0 - eta) >= 0.0;
      }
    }
    assert e > 0.0 ==> e * q > 0.0;
    MultiplyBound(q, e, 0.0);
  }

  lemma MultiplyBound(q: real, a: real, b: real)
    requires q >= 0.0
    ensures a <= b ==> a * q <= b * q
  {
  }

  ghost predicate NonNegativeWeights(p: Problem) {
    forall i :: 0 <= i < |p.values| ==> p.values[i].c >= 0.0
  }

  lemma LeafDescends(p: Problem, samples: seq<nat>, eta: real)
    requires p.Valid() && IsNode(p, samples) && NonNegativeWeights(p) && 0.0 <= eta <= 2.0
    ensures var t := Leaf(Ratio(Sum(samples, S(p.values)), Sum(samples, C(p.values))));
            Sum(samples, Errors(p, t, eta)) <= Sum(samples, SS(p.values))
  {
    hide IsOrdering, IndicesBelow, Ratio, Sum, ErrorOf, ValueOf, Distinct;
    var pred := Ratio(Sum(samples, S(p.values)), Sum(samples, C(p.values)));
    var v := Errors(p, Leaf(pred), eta);
    var step := eta * pred;
    forall k | 0 <= k < |samples|
      ensures v[samples[k]] == ErrorOf(p.target[samples[k]], p.values[samples[k]].c, step)
    {
      var j := samples[k];
      assert v[j] == ErrorAfter(p.target[j], p.values[j].c, eta, pred);
      ErrorAfterIs(p.target[j], p.values[j].c, eta, pred, step);
    }
    LeafErrors(samples, p.values, p.target, v, step);
    CauchySchwarz(samples, p.values, p.target);
    MeanDescends(Sum(samples, S(p.values)), Sum(samples, SS(p.values)), Sum(samples, C(p.values)), eta);
  }

  lemma SameErrors(p: Problem, x: seq<nat>, t: DTree, t': DTree, eta: real)
    requires |p.values| == |p.target| == |p.features| && Below(x, |p.features|)
    requires forall k :: 0 <= k < |x| ==> Prediction(t, p.features[x[k]]) == Prediction(t', p.features[x[k]])
    ensures Sum(x, Errors(p, t, eta)) == Sum(x, Errors(p, t', eta))
  {
    hide Prediction, ErrorAfter;
    SumSame(x, Errors(p, t, eta), Errors(p, t', eta));
  }

  lemma UnknownDropped(features: seq<seq<Feature>>, s: Split, t: DTree)
    requires forall i :: 0 <= i < |features| ==> s.feature < |features[i]|
    requires Separates(s, Column(features, s.feature)) && s.unknown != []
    requires t.Branch? && t.feature == s.feature
    ensures s.unknown[0] < |features| && Dropped(t, features[s.unknown[0]])
  {
    assert Column(features, s.feature)[s.unknown[0]] == UNKNOWN;
  }

  /** The samples of a branch go where the threshold sends them; none may stay behind. */
  lemma BranchRoutes(features: seq<seq<Feature>>, samples: seq<nat>, s: Split, t: DTree)
    requires forall i :: 0 <= i < |features| ==> s.feature < |features[i]|
    requires Distinct(samples) && IsPartition(s, samples, Column(features, s.feature))
    requires t.Branch? && t.feature == s.feature && t.threshold == s.threshold
    requires Below(samples, |features|) && forall j :: j in samples ==> !Dropped(t, features[j])
    ensures Below(s.left, |features|) && Below(s.right, |features|)
    ensures multiset(samples) == multiset(s.left + s.right)
    ensures forall k :: 0 <= k < |s.left| ==> var x := features[s.left[k]];
              !Dropped(t.left, x) && Prediction(t, x) == Prediction(t.left, x)
    ensures forall k :: 0 <= k < |s.right| ==> var x := features[s.right[k]];
              !Dropped(t.right, x) && Prediction(t, x) == Prediction(t.right, x)
  {
    var column := Column(features, s.feature);
    PartitionMembers(s, samples, column);
    if s.unknown != [] {
      assert s.unknown[0] in samples;
      UnknownDropped(features, s, t);
      assert false;
    }
    assert s.unknown + s.left + s.right == s.left + s.right;
    forall k | 0 <= k < |s.left|
      ensures var x := features[s.left[k]]; !Dropped(t.left, x) && Prediction(t, x) == Prediction(t.left, x)
    {
      assert UNKNOWN < column[s.left[k]] < s.threshold && s.left[k] in samples;
    }
    forall k | 0 <= k < |s.right|
      ensures var x := features[s.right[k]]; !Dropped(t.right, x) && Prediction(t, x) == Prediction(t.right, x)
    {
      assert UNKNOWN < s.threshold < column[s.right[k]] && s.right[k] in samples;
    }
  }

  /** A branch adds up its two children, as long as no sample stays behind at the branch. */
  lemma BranchErrors(p: Problem, samples: seq<nat>, s: Split, t: DTree, eta: real)
    requires p.Valid() && IsNode(p, samples) && s.feature < |p.orders|
    requires IsPartition(s, samples, Column(p.features, s.feature))
    requires t.Branch? && t.feature == s.feature && t.threshold == s.threshold
    requires forall j :: j in samples ==> !Dropped(t, p.features[j])
    ensures Below(s.left, |p.features|) && Below(s.right, |p.features|)
    ensures Sum(samples, Errors(p, t, eta)) == Sum(s.left, Errors(p, t.left, eta)) + Sum(s.right, Errors(p, t.right, eta))
    ensures Sum(samples, SS(p.values)) == Sum(s.left, SS(p.values)) + Sum(s.right, SS(p.values))
    ensures forall j :: j in s.left ==> !Dropped(t.left, p.features[j])
    ensures forall j :: j in s.right ==> !Dropped(t.right, p.features[j])
  {
    hide IsPartition, Errors, IsOrdering, IndicesBelow, Dropped, Prediction, Sum, ValueOf;
    BranchRoutes(p.features, samples, s, t);
    SumPermuted(samples, s.left + s.right, Errors(p, t, eta));
    SumConcat(s.left, s.right, Errors(p, t, eta));
    SumPermuted(samples, s.left + s.right, SS(p.values));
    SumConcat(s.left, s.right, SS(p.values));
    SameErrors(p, s.left, t, t.left, eta);
    SameErrors(p, s.right, t, t.right, eta);
  }

  /** One tree: moving every sample by `eta` times its leaf's mean does not raise the error. */
  lemma {:induction false} GrowDescends(p: Problem, conf: TreeConfig, rng: Shuffles, samples: seq<nat>, depth: nat, path: seq<bool>, eta: real)
    requires Trainable(p, conf, rng) && IsNode(p, samples) && NonNegativeWeights(p)
    requires 0.0 <= eta <= 2.0
    requires conf.loss.SquaredError? || conf.loss.OtherLoss?
    requires forall j :: j in samples ==> !Dropped(Grow(p, conf, rng, samples, depth, path), p.features[j])
    ensures Sum(samples, Errors(p, Grow(p, conf, rng, samples, depth, path), eta)) <= Sum(samples, SS(p.values))
    decreases if depth >= conf.maxDepth then 0 else conf.maxDepth - depth
  {
    hide IsPartition, SplitNode, Candidates, Errors, Problem.Valid, Dropped, Sum, Ratio, Same, Distinct;
    var t := Grow(p, conf, rng, samples, depth, path);
    if t.Leaf? {
      LeafDescends(p, samples, eta);
    } else {
      var s := NodeSplit(p, conf, rng, samples, path).value;
      BranchErrors(p, samples, s, t, eta);
      GrowDescends(p, conf, rng, s.left, depth + 1, path + [false], eta);
      GrowDescends(p, conf, rng, s.right, depth + 1, path + [true], eta);
    }
  }

  // ---- over the whole training set -------------------------------------------------------------

  /** weight * (label - prediction)^2, sample by sample: what RMSE adds up. */
  function SquaredErrors(data: seq<Data>, pred: seq<real>): (v: seq<real>)
    requires |pred| == |data|
    ensures |v| == |data|
    ensures forall j :: 0 <= j < |v| ==> v[j] == ErrorOf(data[j].sampleLabel, data[j].weight, pred[j])
  {
    seq(|data|, j requires 0 <= j < |data| => ErrorOf(data[j].sampleLabel, data[j].weight, pred[j]))
  }

  function TrainingError(data: seq<Data>, pred: seq<real>): real
    requires |pred| == |data|
  {
    Sum(Range(|data|), SquaredErrors(data, pred))
  }

  /** One boosting iteration: fit the residuals, step by `eta`, and the error has not grown. */
  lemma BoostingDescends(data: seq<Data>, conf: TreeConfig, rng: Shuffles, before: seq<real>, after: seq<real>, eta: real)
    requires ValidData(data, conf.featureSize) && FairShuffles(rng, conf.featureSize)
    requires |before| == |after| == |data| && Distinct(Range(|data|))
    requires conf.loss.SquaredError? || conf.loss.OtherLoss?
    requires 0.0 <= eta <= 2.0
    requires forall j :: 0 <= j < |data| ==> data[j].weight >= 0.0
    requires forall j :: 0 <= j < |data| ==> data[j].target == data[j].sampleLabel - before[j]
    requires var t := TreeOf(data, conf, rng, Range(|data|));
             forall j :: 0 <= j < |data| ==>
               !Dropped(t, data[j].feature) && after[j] == Stepped(before[j], eta, Prediction(t, data[j].feature))
    ensures TrainingError(data, after) <= TrainingError(data, before)
  {
    hide Grow, Dropped, FeatureOrders, Problem.Valid, ErrorOf, ErrorAfter, Sum, Prediction, ValueOf, NonNegativeWeights;
    ProblemIsValid(data, conf.featureSize, conf.sort);
    var p, all := ProblemOf(data, conf.featureSize, conf.sort), Range(|data|);
    var t := Grow(p, conf, rng, all, 0, []);
    WeightsAre(data, conf.featureSize, conf.sort);
    GrowDescends(p, conf, rng, all, 0, [], eta);
    forall j | 0 <= j < |data|
      ensures SquaredErrors(data, after)[j] == Errors(p, t, eta)[j]
      ensures SquaredErrors(data, before)[j] == SS(p.values)[j]
    {
      ShiftedError(data[j].sampleLabel, data[j].weight, before[j], after[j], data[j].target, eta, Prediction(t, data[j].feature));
    }
    SumSame(all, SquaredErrors(data, after), Errors(p, t, eta));
    SumSame(all, SquaredErrors(data, before), SS(p.values));
  }

  /** `*e += shrinkage * v` */
  function Stepped(before: real, eta: real, pred: real): real {
    before + eta * pred
  }

  lemma ShiftedError(y: real, w: real, before: real, after: real, target: real, eta: real, pred: real)
    requires target == y - before && after == Stepped(before, eta, pred)
    ensures ErrorOf(y, w, after) == ErrorAfter(target, w, eta, pred)
    ensures ErrorOf(y, w, before) == ValueOf(target, w).ss
  {
    assert y - after == target - eta * pred;
  }

  lemma WeightsAre(data: seq<Data>, featureSize: nat, sort: Sorter)
    requires ValidData(data, featureSize) && forall j :: 0 <= j < |data| ==> data[j].weight >= 0.0
    ensures NonNegativeWeights(ProblemOf(data, featureSize, sort))
    ensures forall j :: 0 <= j < |data| ==> ProblemOf(data, featureSize, sort).values[j].c == data[j].weight
  {
  }
}
