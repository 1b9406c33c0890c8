/** gradient_boost.rs: the boosting loop, its running predictions, and inference over all trees. */
module GradientBoost {
  import opened Options
  import opened Seqs
  import opened Values
  import opened Orderings
  import opened TreeSpec
  import opened FittedTree
  import opened BinaryTrees
  import opened StoredTree
  import opened TrainingCaches
  import opened DecisionTrees
  import opened Descent

  datatype Config = Config(
    featureSize: nat,
    maxDepth: nat,
    iterations: nat,
    shrinkage: real,
    minLeafSize: nat,
    loss: Loss,
    featureSampleRatio: real,
    dataSampleRatio: real,
    initialGuessEnabled: bool,
    optimizationLevel: nat,
    sort: Sorter)

  function TreeConfigOf(c: Config): TreeConfig {
    TreeConfig(c.featureSize, c.maxDepth, c.minLeafSize, c.loss, c.featureSampleRatio, c.sort)
  }

  // ---- sampling --------------------------------------------------------------------------------

  function SampleCount(ratio: real, n: nat): nat {
    if ratio < 1.0 then
      if ratio < 0.0 then 0
      else
        assert n as real * ratio >= 0.0;
        (n as real * ratio).Floor
    else n
  }

  /** The members of `xs` below `n`, in ascending order. */
  function Ascending(xs: seq<nat>, n: nat): seq<nat> {
    if n == 0 then [] else Ascending(xs, n - 1) + if n - 1 in xs then [n - 1] else []
  }

  lemma {:induction false} AscendingContents(xs: seq<nat>, n: nat)
    ensures var r := Ascending(xs, n);
            && (forall k :: 0 <= k < |r| ==> r[k] < n && r[k] in xs)
            && forall i: nat :: i < n && i in xs ==> i in r
  {
    if n > 0 {
      AscendingContents(xs, n - 1);
      forall i: nat | i < n && i in xs
        ensures i in Ascending(xs, n)
      {
        if i == n - 1 {
          assert Ascending(xs, n)[|Ascending(xs, n - 1)|] == i;
        } else {
          assert i in Ascending(xs, n - 1);
        }
      }
    }
  }

  lemma {:induction false} AscendingDistinct(xs: seq<nat>, n: nat)
    ensures Distinct(Ascending(xs, n))
  {
    if n > 0 {
      hide Distinct;
      var m: nat := n - 1;
      AscendingDistinct(xs, m);
      AscendingContents(xs, m);
      if m in xs {
        DistinctSnoc(Ascending(xs, m), m);
      }
    }
  }

  /** The chosen samples come sorted, each once. */
  lemma {:induction false} AscendingSorted(xs: seq<nat>, n: nat)
    ensures var r := Ascending(xs, n); StrictlySorted(r) && forall k :: 0 <= k < |r| ==> r[k] < n
  {
    if n > 0 {
      var m: nat := n - 1;
      var shorter := Ascending(xs, m);
      AscendingSorted(xs, m);
      assert Ascending(xs, n) == if m in xs then shorter + [m] else shorter;
    }
  }

  ghost predicate StrictlySorted(s: seq<nat>) {
    forall a, b :: 0 <= a < b < |s| ==> s[a] < s[b]
  }

  /** `k` is the share `ratio` of `n`, rounded down. */
  ghost predicate IsShare(k: nat, ratio: real, n: nat) {
    if ratio >= 1.0 then k == n
    else if ratio < 0.0 then k == 0
    else k as real <= n as real * ratio < k as real + 1.0
  }

  /** A sample of the data: the share `ratio` of the shuffle, rounded down, or everything; in ascending order. */
  ghost predicate Draws(subset: seq<nat>, ratio: real, perm: seq<nat>, n: nat) {
    && StrictlySorted(subset)
    && if ratio >= 1.0 then forall i: nat :: i in subset <==> i < n
       else
         exists k: nat :: k <= |perm| && (forall i: nat :: i in subset <==> i in perm[..k]) && IsShare(k, ratio, n)
  }

  lemma AscendingMembers(xs: seq<nat>, n: nat)
    ensures var r := Ascending(xs, n); Below(r, n) && Distinct(r) && forall i: nat :: i in r <==> i < n && i in xs
  {
    hide Distinct, Ascending;
    AscendingContents(xs, n);
    AscendingDistinct(xs, n);
  }

  /** The samples one tree is trained on: a sorted prefix of the shuffle, or everything. */
  function Subset(ratio: real, perm: seq<nat>, n: nat): seq<nat>
    requires |perm| == n
  {
    if SampleCount(ratio, n) < n then Ascending(perm[..SampleCount(ratio, n)], n) else Range(n)
  }

  function Remaining(ratio: real, perm: seq<nat>, n: nat): seq<nat>
    requires |perm| == n
  {
    if SampleCount(ratio, n) < n then Ascending(perm[SampleCount(ratio, n)..], n) else []
  }

  /** Every sample is trained on or left for inference, never both. */
  lemma SamplesPartition(ratio: real, perm: seq<nat>, n: nat)
    requires IsPermutation(perm, n)
    ensures |perm| == n
    ensures var a, b := Subset(ratio, perm, n), Remaining(ratio, perm, n);
            && Distinct(a) && Below(a, n) && Distinct(b) && Below(b, n)
            && forall i: nat :: i < n ==> (i in a <==> i !in b)
  {
    hide Distinct, IsPermutation, Ascending, SampleCount;
    PermutationMembers(perm, n);
    var k := SampleCount(ratio, n);
    if k < n {
      AscendingMembers(perm[..k], n);
      AscendingMembers(perm[k..], n);
      forall i: nat | i < n
        ensures i in perm[..k] <==> i !in perm[k..]
      {
        DistinctSides(perm, k, i);
      }
    } else {
      RangeIsDistinct(n);
      EmptyIsDistinct();
      forall i: nat | i < n
        ensures i in Range(n)
      {
        assert Range(n)[i] == i;
      }
    }
  }

  lemma {:induction false} SubsetIsDrawn(ratio: real, perm: seq<nat>, n: nat)
    requires IsPermutation(perm, n)
    ensures |perm| == n && Draws(Subset(ratio, perm, n), ratio, perm, n)
  {
    hide IsPermutation, Ascending, Distinct, SampleCount, Draws, StrictlySorted;
    PermutationMembers(perm, n);
    CountIsShareOf(ratio, n);
    var k := SampleCount(ratio, n);
    assert perm[..n] == perm;
    DrawnPrefix(perm, k, n, Subset(ratio, perm, n));
    DrawnShare(Subset(ratio, perm, n), ratio, perm, n, k);
  }

  lemma {:induction false} DrawnShare(subset: seq<nat>, ratio: real, perm: seq<nat>, n: nat, k: nat)
    requires k <= |perm| == n && StrictlySorted(subset) && (forall i: nat :: i in subset <==> i in perm[..k])
    requires IsShare(k, ratio, n) && perm[..n] == perm && forall i: nat :: i in perm <==> i < n
    ensures Draws(subset, ratio, perm, n)
  {
    hide StrictlySorted;
  }

  lemma {:induction false} DrawnPrefix(perm: seq<nat>, k: nat, n: nat, subset: seq<nat>)
    requires |perm| == n && k <= n && forall i: nat :: i in perm <==> i < n
    requires subset == if k < n then Ascending(perm[..k], n) else Range(n)
    ensures StrictlySorted(subset) && forall i: nat :: i in subset <==> i in perm[..k]
  {
    hide Ascending, Distinct;
    if k < n {
      AscendingMembers(perm[..k], n);
      AscendingSorted(perm[..k], n);
      forall i: nat
        ensures i in perm[..k] ==> i < n
      {
        assert i in perm[..k] ==> i in perm;
      }
    } else {
      assert perm[..k] == perm;
      forall i: nat
        ensures i in Range(n) <==> i < n
      {
        assert i < n ==> Range(n)[i] == i;
      }
    }
  }

  lemma {:induction false} CountIsShareOf(ratio: real, n: nat)
    ensures SampleCount(ratio, n) <= n && IsShare(SampleCount(ratio, n), ratio, n)
  {
    if 0.0 <= ratio < 1.0 {
      hide SampleCount, IsShare;
      ShareAtMost(n as real, ratio, n as real * ratio);
      CountFrom(ratio, n, n as real * ratio);
    }
  }

  lemma {:induction false} CountFrom(ratio: real, n: nat, x: real)
    requires 0.0 <= ratio < 1.0 && x == n as real * ratio && 0.0 <= x <= n as real
    ensures SampleCount(ratio, n) <= n && IsShare(SampleCount(ratio, n), ratio, n)
  {
    FloorOf(x, n);
    assert SampleCount(ratio, n) == x.Floor;
  }

  lemma {:induction false} ShareAtMost(n: real, ratio: real, x: real)
    requires n >= 0.0 && 0.0 <= ratio <= 1.0 && x == n * ratio
    ensures 0.0 <= x <= n
  {
    var rest := n * (1.0 - ratio);
    assert rest >= 0.0 && x >= 0.0;
    assert rest == n - x;
  }

  lemma {:induction false} FloorOf(x: real, n: nat)
    requires 0.0 <= x <= n as real
    ensures 0 <= x.Floor <= n && x.Floor as real <= x < x.Floor as real + 1.0
  {
  }

  lemma EmptyIsDistinct()
    ensures Distinct([])
  {
  }

  // ---- predictions -----------------------------------------------------------------------------

  /** The prediction of the first trees, one shrunken step per tree. */
  function Boosted(models: seq<DTree>, shrinkage: real, start: real, x: seq<Feature>): real {
    if models == [] then start
    else Stepped(Boosted(models[..|models| - 1], shrinkage, start, x), shrinkage, Prediction(models[|models| - 1], x))
  }

  function Start(conf: Config, bias: real, d: Data): real {
    if conf.initialGuessEnabled then d.initialGuess else bias
  }

  function BoostedAll(models: seq<DTree>, conf: Config, bias: real, data: seq<Data>): (r: seq<real>)
    ensures |r| == |data|
    ensures forall j :: 0 <= j < |data| ==>
              r[j] == Boosted(models, conf.shrinkage, Start(conf, bias, data[j]), data[j].feature)
  {
    seq(|data|, j requires 0 <= j < |data| => Boosted(models, conf.shrinkage, Start(conf, bias, data[j]), data[j].feature))
  }

  lemma BoostedSnoc(models: seq<DTree>, t: DTree, shrinkage: real, start: real, x: seq<Feature>)
    ensures Boosted(models + [t], shrinkage, start, x) == Stepped(Boosted(models, shrinkage, start, x), shrinkage, Prediction(t, x))
  {
    assert (models + [t])[..|models|] == models;
  }

  /** Some tree was trained on sample `j` and lost sight of it at an unknown value. */
  ghost predicate Lost(models: seq<DTree>, ratio: real, perms: nat -> seq<nat>, n: nat, j: nat, x: seq<Feature>)
    requires forall i :: 0 <= i < |models| ==> |perms(i)| == n
  {
    exists i :: 0 <= i < |models| && j in Subset(ratio, perms(i), n) && Dropped(models[i], x)
  }

  // ---- targets ---------------------------------------------------------------------------------

  type Positive = r: real | r > 0.0 witness 1.0

  /** Stands for the exponential function, of which only the sign matters here. */
  type Exponential = real -> Positive

  function LogitGradient(y: real, pred: real, exp: Exponential): real {
    2.0 * y / (1.0 + exp(2.0 * y * pred))
  }

  /** The target of the next tree, from the label and the prediction so far. */
  function Retarget(d: Data, loss: Loss, pred: real, exp: Exponential): Data {
    match loss
    case LogLikelyhood => d.(target := LogitGradient(d.sampleLabel, pred, exp))
    case LAD =>
      var residual := d.sampleLabel - pred;
      d.(residual := residual, target := if residual >= 0.0 then 1.0 else -1.0)
    case _ => d.(target := d.sampleLabel - pred)
  }

  /**
   * What a sample is trained on, from its label and the prediction so far: the residual, which with
   * the prediction gives the label; under LAD its sign, and under log-likelihood the gradient
   * 2 y / (1 + exp(2 y pred)), which has the sign of the label y.
   */
  ghost predicate FollowsLoss(d: Data, original: Data, loss: Loss, pred: real, exp: Exponential) {
    && d == original.(target := d.target, residual := d.residual)
    && match loss
       case LAD =>
         && d.residual + pred == original.sampleLabel
         && d.target == (if pred <= original.sampleLabel then 1.0 else -1.0)
       case LogLikelyhood =>
         && d.residual == original.residual
         && SolvesGradient(d.target, original.sampleLabel, pred, exp)
       case _ =>
         d.residual == original.residual && d.target + pred == original.sampleLabel
  }

  ghost predicate SolvesGradient(g: real, y: real, pred: real, exp: Exponential) {
    g * (1.0 + exp(2.0 * y * pred)) == 2.0 * y && (g > 0.0 <==> y > 0.0) && (g < 0.0 <==> y < 0.0)
  }

  lemma {:induction false} RetargetFollows(d: Data, loss: Loss, pred: real, exp: Exponential)
    ensures FollowsLoss(Retarget(d, loss, pred, exp), d, loss, pred, exp)
  {
    hide LogitGradient, SolvesGradient;
    LogitSolves(d.sampleLabel, pred, exp);
  }

  lemma {:induction false} LogitSolves(y: real, pred: real, exp: Exponential)
    ensures SolvesGradient(LogitGradient(y, pred, exp), y, pred, exp)
  {
    var e: real := exp(2.0 * y * pred);
    assert e > 0.0;
    QuotientTimes(2.0 * y, 1.0 + e);
  }

  lemma {:induction false} QuotientTimes(a: real, b: real)
    requires b > 0.0
    ensures a / b * b == a && (a / b > 0.0 <==> a > 0.0) && (a / b < 0.0 <==> a < 0.0)
  {
  }

  function RetargetAll(data: seq<Data>, loss: Loss, predicted: seq<real>, exp: Exponential): (r: seq<Data>)
    requires |predicted| == |data|
    ensures |r| == |data| && forall j :: 0 <= j < |data| ==> r[j] == Retarget(data[j], loss, predicted[j], exp)
  {
    seq(|data|, j requires 0 <= j < |data| => Retarget(data[j], loss, predicted[j], exp))
  }

  /** The targets, and under LAD the residuals, are all that retargeting may have changed. */
  ghost predicate OnlyTargets(now: seq<Data>, data: seq<Data>, loss: Loss) {
    && |now| == |data|
    && forall j :: 0 <= j < |now| ==>
         now[j] == data[j].(target := now[j].target, residual := if loss.LAD? then now[j].residual else data[j].residual)
  }

  /** Retargeting forgets the earlier targets: it gives the same samples as if done on the original ones. */
  lemma RetargetAgain(data: seq<Data>, last: seq<Data>, now: seq<Data>, loss: Loss, predicted: seq<real>, exp: Exponential)
    requires OnlyTargets(last, data, loss) && |predicted| == |now| == |data|
    requires forall j :: 0 <= j < |now| ==> now[j] == Retarget(last[j], loss, predicted[j], exp)
    ensures now == RetargetAll(data, loss, predicted, exp) && OnlyTargets(now, data, loss)
  {
    forall j | 0 <= j < |now|
      ensures now[j] == RetargetAll(data, loss, predicted, exp)[j]
    {
      assert last[j].sampleLabel == data[j].sampleLabel;
    }
  }

  /** Same samples, up to target and residual. */
  ghost predicate SameSamples(a: seq<Data>, b: seq<Data>) {
    && |a| == |b|
    && forall j :: 0 <= j < |a| ==>
         && a[j].feature == b[j].feature && a[j].weight == b[j].weight
         && a[j].sampleLabel == b[j].sampleLabel && a[j].initialGuess == b[j].initialGuess
  }

  method ProcessTargets(trainData: array<Data>, predicted: seq<real>, loss: Loss, exp: Exponential)
    requires |predicted| == trainData.Length
    modifies trainData
    ensures forall j :: 0 <= j < trainData.Length ==> trainData[j] == Retarget(old(trainData[j]), loss, predicted[j], exp)
    ensures SameSamples(trainData[..], old(trainData[..]))
    ensures forall j :: 0 <= j < trainData.Length ==> FollowsLoss(trainData[j], old(trainData[j]), loss, predicted[j], exp)
  {
    hide FollowsLoss;
    for i := 0 to trainData.Length
      invariant forall j :: 0 <= j < i ==> trainData[j] == Retarget(old(trainData[j]), loss, predicted[j], exp)
      invariant forall j :: 0 <= j < i ==> FollowsLoss(trainData[j], old(trainData[j]), loss, predicted[j], exp)
      invariant forall j :: i <= j < trainData.Length ==> trainData[j] == old(trainData[j])
    {
      RetargetFollows(trainData[i], loss, predicted[i], exp);
      trainData[i] := Retarget(trainData[i], loss, predicted[i], exp);
    }
  }

  /** Takes one shrunken step at each of the listed positions. */
  method AddPreds(predicted: seq<real>, indices: seq<nat>, preds: seq<real>, shrinkage: real) returns (r: seq<real>)
    requires |preds| == |predicted| && Below(indices, |predicted|) && Distinct(indices)
    ensures |r| == |predicted|
    ensures forall j :: 0 <= j < |r| ==> r[j] == if j in indices then Stepped(predicted[j], shrinkage, preds[j]) else predicted[j]
  {
    r := predicted;
    for k := 0 to |indices|
      invariant |r| == |predicted|
      invariant forall j :: 0 <= j < |r| ==>
                  r[j] == if j in indices[..k] then Stepped(predicted[j], shrinkage, preds[j]) else predicted[j]
    {
      var i := indices[k];
      FirstTime(indices, k);
      assert indices[..k + 1] == indices[..k] + [i];
      r := r[i := Stepped(r[i], shrinkage, preds[i])];
    }
    assert indices[..|indices|] == indices;
  }

  lemma FirstTime(s: seq<nat>, k: nat)
    requires Distinct(s) && k < |s|
    ensures s[k] !in s[..k]
  {
    DistinctSides(s, k, s[k]);
    assert s[k..][0] == s[k];
  }

  lemma SameFeatures(a: seq<Data>, b: seq<Data>)
    requires SameSamples(a, b)
    ensures FeaturesOf(a) == FeaturesOf(b)
  {
  }

  /** The weighted label average: the start of squared error boosting. */
  method LabelAverage(data: seq<Data>) returns (r: real)
    ensures r == AverageOf(data)
  {
    var s, c := 0.0, 0.0;
    ghost var all := Range(|data|);
    for i := 0 to |data|
      invariant s == Sum(all[..i], WeightedLabels(data)) && c == Sum(all[..i], Weights(data))
    {
      SumSnoc(all, i, WeightedLabels(data));
      SumSnoc(all, i, Weights(data));
      s := s + data[i].sampleLabel * data[i].weight;
      c := c + data[i].weight;
    }
    assert all[..|data|] == all;
    r := if Abs(c) < 0.0000000001 then 0.0 else s / c;
  }

  function WeightedLabels(data: seq<Data>): (v: seq<real>)
    ensures |v| == |data| && forall i :: 0 <= i < |v| ==> v[i] == data[i].sampleLabel * data[i].weight
  {
    seq(|data|, i requires 0 <= i < |data| => data[i].sampleLabel * data[i].weight)
  }

  function Weights(data: seq<Data>): (v: seq<real>)
    ensures |v| == |data| && forall i :: 0 <= i < |v| ==> v[i] == data[i].weight
  {
    seq(|data|, i requires 0 <= i < |data| => data[i].weight)
  }

  function Labels(data: seq<Data>): (v: seq<real>)
    ensures |v| == |data| && forall i :: 0 <= i < |v| ==> v[i] == data[i].sampleLabel
  {
    seq(|data|, i requires 0 <= i < |data| => data[i].sampleLabel)
  }

  /** The samples by ascending label, by the stable sort. */
  function ByLabel(data: seq<Data>): (o: seq<Entry>)
    ensures IndicesBelow(o, |data|) && |o| == |data|
  {
    SortIsOrdering(Labels(data));
    SortEntries(Entries(Labels(data)))
  }

  /** The weight of the samples up to position `i` of `o`. */
  function RunningWeight(o: seq<Entry>, weights: seq<real>, i: nat): real
    requires IndicesBelow(o, |weights|) && i <= |o|
  {
    Sum(Indices(o)[..i], weights)
  }

  /**
   * The value for the first sample, from position `i` on, that passes half of the weight `all`. At
   * position 0 the original computes `0 - 1` there and panics; at position 1 it does not average.
   */
  function LabelMedianFrom(o: seq<Entry>, weights: seq<real>, all: real, i: nat): Option<real>
    requires IndicesBelow(o, |weights|) && i <= |o|
    decreases |o| - i
  {
    if i == |o| then Some(0.0)
    else if RunningWeight(o, weights, i + 1) * 2.0 > all then
      if i == 0 then None else if i == 1 then Some(o[i].value) else Some((o[i].value + o[i - 1].value) / 2.0)
    else LabelMedianFrom(o, weights, all, i + 1)
  }

  function LabelMedian(data: seq<Data>): Option<real> {
    LabelMedianFrom(ByLabel(data), Weights(data), RunningWeight(ByLabel(data), Weights(data), |data|), 0)
  }

  lemma {:induction false} LabelMedianLater(o: seq<Entry>, weights: seq<real>, all: real, i: nat)
    requires IndicesBelow(o, |weights|) && 1 <= i <= |o|
    ensures LabelMedianFrom(o, weights, all, i).Some?
    decreases |o| - i
  {
    if i < |o| {
      LabelMedianLater(o, weights, all, i + 1);
    }
  }

  /** The sample with the lowest label, the first of them on a tie. */
  ghost predicate IsLowest(data: seq<Data>, i: nat) {
    && i < |data|
    && forall j :: 0 <= j < |data| ==> data[i].sampleLabel <= data[j].sampleLabel && (j < i ==> data[i].sampleLabel < data[j].sampleLabel)
  }

  lemma {:induction false} FirstIsLowest(data: seq<Data>)
    requires data != []
    ensures IsLowest(data, ByLabel(data)[0].index)
  {
    var o, labels := ByLabel(data), Labels(data);
    SortIsOrdering(labels);
    SortIsStable(labels);
    hide SortEntries, TiesByIndex;
    var i := o[0].index;
    forall j | 0 <= j < |data|
      ensures data[i].sampleLabel <= data[j].sampleLabel && (j < i ==> data[i].sampleLabel < data[j].sampleLabel)
    {
      CountZero(Indices(o), j);
      var k :| 0 <= k < |o| && Indices(o)[k] == j;
      if k > 0 {
        assert o[0].value <= o[k].value;
        if o[0].value == o[k].value {
          TieAt(o, 0, k);
        }
      }
    }
  }

  lemma {:induction false} MedianOfFirst(data: seq<Data>)
    requires data != []
    ensures LabelMedian(data).None? <==> data[ByLabel(data)[0].index].weight * 2.0 > Sum(Range(|data|), Weights(data))
  {
    var o, w := ByLabel(data), Weights(data);
    LabelMedianLater(o, w, RunningWeight(o, w, |data|), 1);
    assert Indices(o)[..1] == [o[0].index];
    SumSnoc(Indices(o), 0, w);
    AllWeight(data);
  }

  /** The weighted label median panics exactly if the sample with the lowest label outweighs all others. */
  lemma {:induction false} LabelMedianPanics(data: seq<Data>)
    ensures LabelMedian(data).None? <==>
              exists i: nat :: IsLowest(data, i) && data[i].weight * 2.0 > Sum(Range(|data|), Weights(data))
  {
    hide ByLabel, Sum, Weights;
    if data != [] {
      hide LabelMedian;
      FirstIsLowest(data);
      MedianOfFirst(data);
      var first := ByLabel(data)[0].index;
      forall i: nat | IsLowest(data, i)
        ensures i == first
      {
        assert data[i].sampleLabel <= data[first].sampleLabel;
      }
    }
  }

  /** Otherwise it is the label at which half of the weight is passed; from the third on, averaged with the one before. */
  lemma {:induction false} LabelMedianPassesHalf(data: seq<Data>, i: nat)
    requires 1 <= i < |data|
    requires var o, w, all := ByLabel(data), Weights(data), RunningWeight(ByLabel(data), Weights(data), |data|);
             && RunningWeight(o, w, i + 1) * 2.0 > all
             && forall k :: 0 < k <= i ==> RunningWeight(o, w, k) * 2.0 <= all
    ensures var o := ByLabel(data);
            LabelMedian(data) == Some(if i == 1 then o[1].value else (o[i].value + o[i - 1].value) / 2.0)
  {
    hide RunningWeight, ByLabel;
    var o, w, all := ByLabel(data), Weights(data), RunningWeight(ByLabel(data), Weights(data), |data|);
    for k := 0 to i
      invariant LabelMedianFrom(o, w, all, 0) == LabelMedianFrom(o, w, all, k)
    {
      assert k < i ==> RunningWeight(o, w, k + 1) * 2.0 <= all;
    }
  }

  /** The weight summed in label order is the weight summed in the given order. */
  lemma {:induction false} AllWeight(data: seq<Data>)
    ensures RunningWeight(ByLabel(data), Weights(data), |data|) == Sum(Range(|data|), Weights(data))
  {
    hide IsOrdering, Distinct, SortEntries;
    var o, all := ByLabel(data), Range(|data|);
    SortIsOrdering(Labels(data));
    OrderingIsPermutation(o, Labels(data));
    assert Indices(o)[..|data|] == Indices(o);
    SumPermuted(all, Indices(o), Weights(data));
  }

  /** A single sample of positive weight is such a sample. */
  lemma {:induction false} SingleSamplePanics(d: Data)
    requires d.weight > 0.0
    ensures LabelMedian([d]).None?
  {
    MedianOfFirst([d]);
    SumSnoc(Range(1), 0, Weights([d]));
    assert Range(1)[..1] == Range(1) && Range(1)[..0] == [];
  }

  lemma {:induction false} WeightSnoc(o: seq<Entry>, weights: seq<real>, i: nat)
    requires IndicesBelow(o, |weights|) && i < |o|
    ensures RunningWeight(o, weights, i + 1) == RunningWeight(o, weights, i) + weights[o[i].index]
  {
    SumSnoc(Indices(o), i, weights);
  }

  lemma NoWeight(o: seq<Entry>, weights: seq<real>)
    requires IndicesBelow(o, |weights|)
    ensures RunningWeight(o, weights, 0) == 0.0
  {
  }

  method WeightedLabelMedian(data: seq<Data>) returns (median: Option<real>)
    ensures median == LabelMedian(data)
  {
    hide RunningWeight, SortEntries, Sum, ByLabel;
    var o, weights := ByLabel(data), Weights(data);
    NoWeight(o, weights);
    var all := 0.0;
    for i := 0 to |o|
      invariant all == RunningWeight(o, weights, i)
    {
      WeightSnoc(o, weights, i);
      all := all + weights[o[i].index];
    }
    var weight := 0.0;
    for i := 0 to |o|
      invariant weight == RunningWeight(o, weights, i)
      invariant LabelMedianFrom(o, weights, all, 0) == LabelMedianFrom(o, weights, all, i)
    {
      WeightSnoc(o, weights, i);
      weight := weight + weights[o[i].index];
      if weight * 2.0 > all {
        if i == 0 {
          return None;
        }
        return Some(if i - 1 > 0 then (o[i].value + o[i - 1].value) / 2.0 else o[i].value);
      }
    }
    median := Some(0.0);
  }

  function AverageOf(data: seq<Data>): real {
    Ratio(Sum(Range(|data|), WeightedLabels(data)), Sum(Range(|data|), Weights(data)))
  }

  /**
   * Where boosting starts; None where the original panics. `logOdds` stands for the logarithm of
   * (1 + v) / (1 - v), halved.
   */
  function InitialBias(conf: Config, data: seq<Data>, logOdds: real -> real, before: real): Option<real> {
    if !ValidData(data, conf.featureSize) then None
    else if conf.initialGuessEnabled then Some(before)
    else match conf.loss
      case LogLikelyhood => Some(logOdds(AverageOf(data)))
      case LAD => LabelMedian(data)
      case _ => Some(AverageOf(data))
  }

  // ---- what boosting keeps ---------------------------------------------------------------------

  /** The randomness of one call to `fit`: a shuffle of the samples, and of features, per iteration. */
  datatype Randomness = Randomness(perms: nat -> seq<nat>, rngs: nat -> Shuffles)

  ghost predicate Fair(rand: Randomness, n: nat, featureSize: nat) {
    && (forall i :: IsPermutation(rand.perms(i), n))
    && (forall i :: |rand.perms(i)| == n)
    && (forall i :: FairShuffles(rand.rngs(i), featureSize))
  }

  ghost predicate NoneLost(models: seq<DTree>, conf: Config, rand: Randomness, data: seq<Data>)
    requires Fair(rand, |data|, conf.featureSize)
  {
    forall j :: 0 <= j < |data| ==> !Lost(models, conf.dataSampleRatio, rand.perms, |data|, j, data[j].feature)
  }

  /** Samples without unknown values are never lost. */
  lemma KnownNeverLost(models: seq<DTree>, conf: Config, rand: Randomness, data: seq<Data>)
    requires Fair(rand, |data|, conf.featureSize)
    requires forall j, f :: 0 <= j < |data| && 0 <= f < |data[j].feature| ==> data[j].feature[f] != UNKNOWN
    ensures NoneLost(models, conf, rand, data)
  {
    forall i, j | 0 <= i < |models| && 0 <= j < |data|
      ensures !Dropped(models[i], data[j].feature)
    {
      KnownNeverDropped(models[i], data[j].feature);
    }
  }

  /** The running prediction of every sample never lost is what inference over the trees gives. */
  ghost predicate Tracks(models: seq<DTree>, conf: Config, bias: real, rand: Randomness, data: seq<Data>, predicted: seq<real>)
    requires Fair(rand, |data|, conf.featureSize)
  {
    && |predicted| == |data|
    && forall j :: 0 <= j < |data| && !Lost(models, conf.dataSampleRatio, rand.perms, |data|, j, data[j].feature) ==>
         predicted[j] == Boosted(models, conf.shrinkage, Start(conf, bias, data[j]), data[j].feature)
  }

  /** The training error of the first `k` trees. */
  function ErrorAt(models: seq<DTree>, k: nat, conf: Config, bias: real, data: seq<Data>): real
    requires k <= |models|
  {
    TrainingError(data, BoostedAll(models[..k], conf, bias, data))
  }

  /** As long as no sample is lost, no tree raises the training error. */
  ghost predicate Descends(models: seq<DTree>, conf: Config, bias: real, rand: Randomness, data: seq<Data>)
    requires Fair(rand, |data|, conf.featureSize)
  {
    forall k :: 0 <= k < |models| && NoneLost(models[..k + 1], conf, rand, data) ==>
      ErrorAt(models, k + 1, conf, bias, data) <= ErrorAt(models, k, conf, bias, data)
  }

  /** The settings under which the training error can be promised to fall. */
  predicate SquaredErrorSettings(conf: Config, data: seq<Data>) {
    && (conf.loss.SquaredError? || conf.loss.OtherLoss?)
    && conf.dataSampleRatio >= 1.0
    && 0.0 <= conf.shrinkage <= 2.0
    && forall j :: 0 <= j < |data| ==> data[j].weight >= 0.0
  }

  lemma LostGrows(models: seq<DTree>, t: DTree, ratio: real, rand: Randomness, n: nat, j: nat, x: seq<Feature>)
    requires forall i :: |rand.perms(i)| == n
    ensures Lost(models + [t], ratio, rand.perms, n, j, x) <==>
              Lost(models, ratio, rand.perms, n, j, x)
              || (j in Subset(ratio, rand.perms(|models|), n) && Dropped(t, x))
  {
    var all := models + [t];
    if Lost(models, ratio, rand.perms, n, j, x) {
      var i :| 0 <= i < |models| && j in Subset(ratio, rand.perms(i), n) && Dropped(models[i], x);
      assert all[i] == models[i];
    }
    if j in Subset(ratio, rand.perms(|models|), n) && Dropped(t, x) {
      assert all[|models|] == t;
    }
  }

  /** One more tree: the running predictions stay those of inference. */
  lemma TracksStep(models: seq<DTree>, t: DTree, conf: Config, bias: real, rand: Randomness, data: seq<Data>, now: seq<Data>,
                   predicted: seq<real>, updated: seq<real>, oldPreds: seq<real>)
    requires Fair(rand, |data|, conf.featureSize) && SameSamples(now, data)
    requires ValidData(data, conf.featureSize) && WellShaped(t, conf.featureSize)
    requires Tracks(models, conf, bias, rand, data, predicted)
    requires StepsBy(predicted, updated, oldPreds, now, Subset(conf.dataSampleRatio, rand.perms(|models|), |data|), t, conf.shrinkage)
    ensures Tracks(models + [t], conf, bias, rand, data, updated)
  {
    hide Stepped, Lost, Subset, Dropped;
    forall j | 0 <= j < |data| && !Lost(models + [t], conf.dataSampleRatio, rand.perms, |data|, j, data[j].feature)
      ensures updated[j] == Boosted(models + [t], conf.shrinkage, Start(conf, bias, data[j]), data[j].feature)
    {
      var x := data[j].feature;
      LostGrows(models, t, conf.dataSampleRatio, rand, |data|, j, x);
      EvalTotal(t, x);
      assert now[j].feature == x;
      BoostedSnoc(models, t, conf.shrinkage, Start(conf, bias, data[j]), x);
    }
  }

  lemma SameTrainingError(a: seq<Data>, b: seq<Data>, pred: seq<real>)
    requires SameSamples(a, b) && |pred| == |a|
    ensures TrainingError(a, pred) == TrainingError(b, pred)
  {
    hide ErrorOf;
    assert SquaredErrors(a, pred) == SquaredErrors(b, pred);
  }

  /** One more tree does not raise the training error, if no sample has been lost. */
  lemma DescendsStep(models: seq<DTree>, t: DTree, conf: Config, bias: real, rand: Randomness, rng: Shuffles,
                     data: seq<Data>, now: seq<Data>, predicted: seq<real>)
    requires Fair(rand, |data|, conf.featureSize) && FairShuffles(rng, conf.featureSize) && SameSamples(now, data)
    requires ValidData(now, conf.featureSize) && SquaredErrorSettings(conf, data)
    requires Tracks(models, conf, bias, rand, data, predicted)
    requires forall j :: 0 <= j < |data| ==> now[j].target == now[j].sampleLabel - predicted[j]
    requires Distinct(Range(|data|)) && t == TreeOf(now, TreeConfigOf(conf), rng, Range(|data|))
    requires NoneLost(models + [t], conf, rand, data)
    ensures TrainingError(data, BoostedAll(models + [t], conf, bias, data)) <= TrainingError(data, BoostedAll(models, conf, bias, data))
  {
    hide Lost, TreeOf, Dropped, Stepped, Boosted;
    var before, after := BoostedAll(models, conf, bias, data), BoostedAll(models + [t], conf, bias, data);
    forall j | 0 <= j < |data|
      ensures predicted[j] == before[j]
      ensures !Dropped(t, data[j].feature)
      ensures after[j] == Stepped(before[j], conf.shrinkage, Prediction(t, data[j].feature))
    {
      var x := data[j].feature;
      LostGrows(models, t, conf.dataSampleRatio, rand, |data|, j, x);
      BoostedSnoc(models, t, conf.shrinkage, Start(conf, bias, data[j]), x);
      assert Range(|data|)[j] == j;
    }
    BoostingDescends(now, TreeConfigOf(conf), rng, before, after, conf.shrinkage);
    SameTrainingError(now, data, before);
    SameTrainingError(now, data, after);
  }

  lemma DescendsSnoc(models: seq<DTree>, t: DTree, conf: Config, bias: real, rand: Randomness, data: seq<Data>)
    requires Fair(rand, |data|, conf.featureSize)
    requires Descends(models, conf, bias, rand, data)
    requires NoneLost(models + [t], conf, rand, data) ==>
               TrainingError(data, BoostedAll(models + [t], conf, bias, data)) <= TrainingError(data, BoostedAll(models, conf, bias, data))
    ensures Descends(models + [t], conf, bias, rand, data)
  {
    hide NoneLost, TrainingError;
    var all := models + [t];
    forall k | 0 <= k < |all| && NoneLost(all[..k + 1], conf, rand, data)
      ensures ErrorAt(all, k + 1, conf, bias, data) <= ErrorAt(all, k, conf, bias, data)
    {
      if k < |models| {
        assert all[..k + 1] == models[..k + 1] && all[..k] == models[..k];
        assert ErrorAt(models, k + 1, conf, bias, data) <= ErrorAt(models, k, conf, bias, data);
      } else {
        assert all[..k + 1] == all && all[..k] == models;
      }
    }
  }

  lemma FairAt(rand: Randomness, n: nat, featureSize: nat, i: nat)
    requires Fair(rand, n, featureSize)
    ensures IsPermutation(rand.perms(i), n) && |rand.perms(i)| == n && FairShuffles(rand.rngs(i), featureSize)
  {
  }

  /** Tree number `i` is the one that grows from the targets the predictions `before` leave to be fitted. */
  ghost predicate TrainedOn(t: DTree, i: nat, before: seq<real>, conf: Config, rand: Randomness, data: seq<Data>, exp: Exponential)
    requires Fair(rand, |data|, conf.featureSize)
  {
    && |before| == |data|
    && var now, subset := RetargetAll(data, conf.loss, before, exp), Subset(conf.dataSampleRatio, rand.perms(i), |data|);
    && ValidData(now, conf.featureSize) && FairShuffles(rand.rngs(i), conf.featureSize)
    && Distinct(subset) && Below(subset, |now|)
    && t == TreeOf(now, TreeConfigOf(conf), rand.rngs(i), subset)
  }

  /** What boosting carries from one iteration to the next: running predictions and cached ones. */
  datatype Running = Running(predicted: seq<real>, cached: seq<real>)

  /** One iteration: the cache takes over the tree's predictions, and the running ones take a step. */
  ghost predicate Advances(a: Running, b: Running, t: DTree, subset: seq<nat>, data: seq<Data>, shrinkage: real) {
    && StepsBy(a.predicted, b.predicted, a.cached, data, subset, t, shrinkage)
    && PredsTrained(a.cached, b.cached, data, subset, t)
  }

  lemma {:induction false} AdvancesAlike(a: Running, b: Running, t: DTree, subset: seq<nat>, now: seq<Data>, data: seq<Data>, shrinkage: real)
    requires Advances(a, b, t, subset, now, shrinkage) && SameSamples(now, data)
    ensures Advances(a, b, t, subset, data, shrinkage)
  {
    hide Trained, Stepped, Prediction;
    forall j | 0 <= j < |data|
      ensures now[j].feature == data[j].feature
    {
    }
  }

  /**
   * Every tree was trained on what inference over the trees before it leaves to be fitted, and the
   * predictions went on from there.
   */
  ghost predicate TrainedInTurn(models: seq<DTree>, history: seq<Running>, conf: Config, bias: real, rand: Randomness,
                                data: seq<Data>, exp: Exponential)
    requires Fair(rand, |data|, conf.featureSize)
  {
    && |history| == |models| + 1
    && forall i :: 0 <= i < |models| ==>
         && TrainedOn(models[i], i, history[i].predicted, conf, rand, data, exp)
         && Advances(history[i], history[i + 1], models[i], Subset(conf.dataSampleRatio, rand.perms(i), |data|), data, conf.shrinkage)
         && Tracks(models[..i], conf, bias, rand, data, history[i].predicted)
  }

  lemma TrainedSnoc(models: seq<DTree>, t: DTree, history: seq<Running>, next: Running, conf: Config, bias: real,
                    rand: Randomness, data: seq<Data>, exp: Exponential)
    requires Fair(rand, |data|, conf.featureSize)
    requires TrainedInTurn(models, history, conf, bias, rand, data, exp)
    requires TrainedOn(t, |models|, history[|models|].predicted, conf, rand, data, exp)
    requires Tracks(models, conf, bias, rand, data, history[|models|].predicted)
    requires Advances(history[|models|], next, t, Subset(conf.dataSampleRatio, rand.perms(|models|), |data|), data, conf.shrinkage)
    ensures TrainedInTurn(models + [t], history + [next], conf, bias, rand, data, exp)
  {
    hide Tracks, TrainedOn, Advances, Subset, IsPermutation, FairShuffles;
    var all, longer := models + [t], history + [next];
    forall i | 0 <= i < |all|
      ensures TrainedOn(all[i], i, longer[i].predicted, conf, rand, data, exp)
      ensures Advances(longer[i], longer[i + 1], all[i], Subset(conf.dataSampleRatio, rand.perms(i), |data|), data, conf.shrinkage)
      ensures Tracks(all[..i], conf, bias, rand, data, longer[i].predicted)
    {
      if i < |models| {
        assert all[..i] == models[..i];
      } else {
        assert all[..i] == models;
      }
    }
  }

  /** The promises of boosting after some of the iterations. */
  ghost predicate Progress(models: seq<DTree>, history: seq<Running>, conf: Config, bias: real, rand: Randomness,
                           data: seq<Data>, exp: Exponential)
    requires Fair(rand, |data|, conf.featureSize)
  {
    && TrainedInTurn(models, history, conf, bias, rand, data, exp)
    && history[0].cached == seq(|data|, _ => UNKNOWN)
    && (conf.iterations > 0 ==>
          && history[0].predicted == BoostedAll([], conf, bias, data)
          && Tracks(models, conf, bias, rand, data, history[|models|].predicted))
    && (SquaredErrorSettings(conf, data) ==> Descends(models, conf, bias, rand, data))
  }

  lemma {:induction false} ProgressStart(start: Running, conf: Config, bias: real, rand: Randomness, data: seq<Data>, exp: Exponential)
    requires Fair(rand, |data|, conf.featureSize)
    requires start.cached == seq(|data|, _ => UNKNOWN)
    requires conf.iterations > 0 ==> start.predicted == BoostedAll([], conf, bias, data)
    ensures Progress([], [start], conf, bias, rand, data, exp)
  {
    hide TrainedInTurn, Tracks, Descends, SquaredErrorSettings;
    NothingTrained(start, conf, bias, rand, data, exp);
    TracksStart(conf, bias, rand, data);
    DescendsStart(conf, bias, rand, data);
  }

  lemma {:induction false} ProgressEnd(models: seq<DTree>, history: seq<Running>, conf: Config, bias: real, rand: Randomness,
                                      data: seq<Data>, exp: Exponential)
    requires Fair(rand, |data|, conf.featureSize) && Progress(models, history, conf, bias, rand, data, exp)
    ensures |history| == |models| + 1
    ensures TrainedInTurn(models, history, conf, bias, rand, data, exp)
    ensures history[0].cached == seq(|data|, _ => UNKNOWN)
    ensures conf.iterations > 0 ==> history[0].predicted == BoostedAll([], conf, bias, data)
    ensures conf.iterations > 0 ==> |history[|models|].predicted| == |data|
    ensures conf.iterations > 0 ==> Tracks(models, conf, bias, rand, data, history[|models|].predicted)
    ensures SquaredErrorSettings(conf, data) ==> Descends(models, conf, bias, rand, data)
  {
  }

  lemma {:induction false} ProgressLengths(models: seq<DTree>, history: seq<Running>, conf: Config, bias: real, rand: Randomness,
                                          data: seq<Data>, exp: Exponential)
    requires Fair(rand, |data|, conf.featureSize) && Progress(models, history, conf, bias, rand, data, exp)
    ensures |history| == |models| + 1
    ensures conf.iterations > 0 ==> |history[|models|].predicted| == |data|
  {
  }

  /** One iteration keeps all three promises: how the trees were trained, the tracked predictions and the descent. */
  lemma IterationKeeps(models: seq<DTree>, t: DTree, conf: Config, bias: real, rand: Randomness, data: seq<Data>,
                       last: seq<Data>, now: seq<Data>, updated: seq<real>, cached: seq<real>,
                       exp: Exponential, history: seq<Running>)
    requires Fair(rand, |data|, conf.featureSize)
    requires OnlyTargets(last, data, conf.loss) && SameSamples(last, data) && SameSamples(now, last)
    requires ValidData(data, conf.featureSize) && ValidData(now, conf.featureSize) && WellShaped(t, conf.featureSize)
    requires conf.iterations > 0 && Progress(models, history, conf, bias, rand, data, exp)
    requires |history| == |models| + 1 && |history[|models|].predicted| == |now| &&
             forall j :: 0 <= j < |now| ==> now[j] == Retarget(last[j], conf.loss, history[|models|].predicted[j], exp)
    requires var subset := Subset(conf.dataSampleRatio, rand.perms(|models|), |data|);
             && FairShuffles(rand.rngs(|models|), conf.featureSize)
             && Distinct(subset) && Below(subset, |now|)
             && t == TreeOf(now, TreeConfigOf(conf), rand.rngs(|models|), subset)
             && Advances(history[|models|], Running(updated, cached), t, subset, now, conf.shrinkage)
    ensures OnlyTargets(now, data, conf.loss)
    ensures now == RetargetAll(data, conf.loss, history[|models|].predicted, exp)
    ensures Progress(models + [t], history + [Running(updated, cached)], conf, bias, rand, data, exp)
  {
    hide StepsBy, Tracks, Descends, NoneLost, TreeOf, Subset, FairShuffles, IsPermutation, OnlyTargets, PredsTrained;
    var current := history[|models|];
    ghost var subset := Subset(conf.dataSampleRatio, rand.perms(|models|), |data|);
    RetargetAgain(data, last, now, conf.loss, current.predicted, exp);
    assert TrainedOn(t, |models|, current.predicted, conf, rand, data, exp);
    AdvancesAlike(current, Running(updated, cached), t, subset, now, data, conf.shrinkage);
    TrainedSnoc(models, t, history, Running(updated, cached), conf, bias, rand, data, exp);
    TracksStep(models, t, conf, bias, rand, data, now, current.predicted, updated, current.cached);
    if SquaredErrorSettings(conf, data) {
      if NoneLost(models + [t], conf, rand, data) {
        AllSamples(conf.dataSampleRatio, rand.perms(|models|), |data|);
        DescendsStep(models, t, conf, bias, rand, rand.rngs(|models|), data, now, current.predicted);
      }
      DescendsSnoc(models, t, conf, bias, rand, data);
    }
  }

  /** A tree object in use: fitted to `model`, which predicts every sample. */
  ghost predicate InUse(tree: DecisionTree, model: DTree, featureSize: nat)
    reads tree.tree
  {
    tree.Holds(model) && WellShaped(model, featureSize)
  }

  /** What one boosting iteration does to the running predictions. */
  ghost predicate StepsBy(before: seq<real>, after: seq<real>, oldPreds: seq<real>, data: seq<Data>, subset: seq<nat>, t: DTree, shrinkage: real) {
    && |before| == |after| == |oldPreds| == |data|
    && forall j :: 0 <= j < |data| ==>
         after[j] == Stepped(before[j], shrinkage,
                             if j in subset then Trained(t, data[j].feature, oldPreds[j]) else Prediction(t, data[j].feature))
  }

  class GBDT {
    const conf: Config
    var trees: seq<DecisionTree>
    var bias: real

    constructor (conf: Config)
      ensures this.conf == conf && trees == [] && bias == 0.0
    {
      this.conf := conf;
      trees := [];
      bias := 0.0;
    }

    /** The body of the boosting loop: retarget, fit one tree, step the running predictions. */
    method BoostStep(tree: DecisionTree, trainData: array<Data>, predicted: seq<real>, cache: TrainingCache,
                     perm: seq<nat>, rng: Shuffles, exp: Exponential)
      returns (updated: seq<real>, ghost t: DTree)
      requires tree.tree.tree == [] && tree.conf == TreeConfigOf(conf) && cache.featureSize == conf.featureSize && cache.sort == conf.sort
      requires ValidData(trainData[..], conf.featureSize)
      requires cache.Prepared(FeaturesOf(trainData[..]))
      requires forall i :: 0 <= i < trainData.Length ==> cache.cacheValue[i].c == trainData[i].weight
      requires |predicted| == trainData.Length
      requires IsPermutation(perm, trainData.Length) && FairShuffles(rng, conf.featureSize)
      modifies trainData, tree.tree, cache
      ensures SameSamples(trainData[..], old(trainData[..]))
      ensures forall j :: 0 <= j < trainData.Length ==>
                trainData[j] == Retarget(old(trainData[j]), conf.loss, predicted[j], exp)
      ensures cache.Prepared(FeaturesOf(trainData[..])) && cache.cacheValue == ValuesOf(trainData[..])
      ensures |perm| == trainData.Length && ValidData(trainData[..], conf.featureSize)
      ensures Distinct(Subset(conf.dataSampleRatio, perm, trainData.Length))
              && Below(Subset(conf.dataSampleRatio, perm, trainData.Length), trainData.Length)
      ensures t == TreeOf(trainData[..], tree.conf, rng, Subset(conf.dataSampleRatio, perm, trainData.Length))
      ensures InUse(tree, t, conf.featureSize) && Depth(t) <= conf.maxDepth
      ensures |updated| == trainData.Length
      ensures forall j :: 0 <= j < trainData.Length ==>
                FollowsLoss(trainData[j], old(trainData[j]), conf.loss, predicted[j], exp)
      ensures Advances(Running(predicted, old(cache.preds)), Running(updated, cache.preds), t,
                       Subset(conf.dataSampleRatio, perm, trainData.Length), trainData[..], conf.shrinkage)
    {
      hide FollowsLoss, FeatureOrders, Stores, Size, IsPermutation, Subset, Remaining, StepsBy, PredsTrained, Distinct, Eval, WellLinked, TreeOf, Depth, Retarget;
      var n := trainData.Length;
      ghost var oldPreds := cache.preds;
      SamplesPartition(conf.dataSampleRatio, perm, n);
      var subset, remaining := Subset(conf.dataSampleRatio, perm, n), Remaining(conf.dataSampleRatio, perm, n);
      ProcessTargets(trainData, predicted, conf.loss, exp);
      SameFeatures(trainData[..], old(trainData[..]));
      tree.FitN(trainData[..], subset, cache, rng);
      t := TreeOf(trainData[..], tree.conf, rng, subset);
      TreeOfShape(trainData[..], tree.conf, rng, subset);
      updated := UpdatePredictions(tree, t, trainData[..], predicted, subset, remaining, cache.preds, oldPreds);
    }

    /** Trained samples step by their cached prediction, the others by inference. */
    method UpdatePredictions(tree: DecisionTree, ghost t: DTree, data: seq<Data>, predicted: seq<real>,
                             subset: seq<nat>, remaining: seq<nat>, preds: seq<real>, ghost oldPreds: seq<real>)
      returns (updated: seq<real>)
      requires InUse(tree, t, conf.featureSize) && ValidData(data, conf.featureSize)
      requires |predicted| == |data| && PredsTrained(oldPreds, preds, data, subset, t)
      requires Distinct(subset) && Below(subset, |data|) && Distinct(remaining) && Below(remaining, |data|)
      requires forall i: nat :: i < |data| ==> (i in subset <==> i !in remaining)
      ensures |updated| == |data| && StepsBy(predicted, updated, oldPreds, data, subset, t, conf.shrinkage)
    {
      hide Stores, Size, Distinct, Trained, WellShaped, Stepped;
      updated := AddPreds(predicted, subset, preds, conf.shrinkage);
      StoresNonEmpty(tree.tree.tree, t);
      forall i | 0 <= i < |data|
        ensures PredictOne(tree.tree.tree, tree.tree.tree[0], data[i].feature) == Eval(t, data[i].feature)
        ensures Eval(t, data[i].feature).Some?
      {
        EvalTotal(t, data[i].feature);
        PredictOneIsEval(tree.tree.tree, 0, t, data[i].feature);
      }
      var predictedTmp := tree.PredictN(data, remaining);
      updated := AddPreds(updated, remaining, predictedTmp.value, conf.shrinkage);
    }

    /**
     * Trains all trees, each on the targets that the running predictions before it, kept in `history`,
     * leave to be fitted. The running predictions stay those of inference, and under squared error
     * the training error never rises, at every iteration, for every sample that is never lost.
     */
    method Fit(trainData: array<Data>, rand: Randomness, exp: Exponential, logOdds: real -> real)
      returns (ok: bool, predicted: seq<real>, ghost models: seq<DTree>, ghost history: seq<Running>)
      requires Fair(rand, trainData.Length, conf.featureSize)
      modifies this, trainData
      ensures ok <==> InitialBias(conf, old(trainData[..]), logOdds, old(bias)).Some?
      ensures ok ==> InitialBias(conf, old(trainData[..]), logOdds, old(bias)) == Some(bias)
      ensures ok ==> |trees| == |models| == conf.iterations
      ensures ok ==> forall k :: 0 <= k < |trees| ==> InUse(trees[k], models[k], conf.featureSize) && Depth(models[k]) <= conf.maxDepth
      ensures OnlyTargets(trainData[..], old(trainData[..]), conf.loss)
      ensures ok ==> |history| == conf.iterations + 1 && predicted == history[conf.iterations].predicted
      ensures ok ==> TrainedInTurn(models, history, conf, bias, rand, old(trainData[..]), exp)
      ensures ok ==> history[0].cached == seq(trainData.Length, _ => UNKNOWN)
      ensures ok && conf.iterations > 0 ==> history[0].predicted == BoostedAll([], conf, bias, old(trainData[..]))
      ensures ok && conf.iterations > 0 ==> Tracks(models, conf, bias, rand, old(trainData[..]), predicted)
      ensures ok && SquaredErrorSettings(conf, old(trainData[..])) ==> Descends(models, conf, bias, rand, old(trainData[..]))
      ensures ok && conf.iterations > 0 ==>
                && |history[conf.iterations - 1].predicted| == trainData.Length
                && trainData[..] == RetargetAll(old(trainData[..]), conf.loss, history[conf.iterations - 1].predicted, exp)
    {
      hide FeatureOrders, Stores, Size, Tracks, Descends, Boosted, IsPermutation, Depth, BoostedAll, Fair, FairShuffles, WellShaped,
           WellLinked, SquaredErrorSettings, TrainingCache.Prepared, DecisionTree.Holds, Progress, TrainedInTurn, OnlyTargets,
           InitialBias, RetargetAll;
      ghost var data := trainData[..];
      trees := NewTrees();
      models, history := [], [];
      UntouchedSamples(data, conf.loss);
      ok := Init(trainData[..], logOdds);
      if !ok {
        predicted := [];
        return;
      }
      predicted := PredictN(trainData[..], 0, 0, trainData.Length, []);
      assert trainData[..trainData.Length] == data;
      var cache := new TrainingCache.GetCache(conf.featureSize, trainData[..], conf.optimizationLevel, conf.sort);
      predicted, models, history := Boost(trainData, predicted, cache, rand, exp);
      ProgressEnd(models, history, conf, bias, rand, data, exp);
    }

    /** The boosting loop. */
    method Boost(trainData: array<Data>, start: seq<real>, cache: TrainingCache, rand: Randomness, exp: Exponential)
      returns (predicted: seq<real>, ghost models: seq<DTree>, ghost history: seq<Running>)
      requires ValidData(trainData[..], conf.featureSize) && Fair(rand, trainData.Length, conf.featureSize)
      requires |trees| == conf.iterations && Separate(trees) && forall k :: 0 <= k < |trees| ==> IsFreshTree(trees[k], conf)
      requires cache.featureSize == conf.featureSize && cache.sort == conf.sort && cache.Prepared(FeaturesOf(trainData[..]))
      requires |cache.cacheValue| == trainData.Length
      requires forall j :: 0 <= j < trainData.Length ==> cache.cacheValue[j].c == trainData[j].weight
      requires cache.preds == seq(trainData.Length, _ => UNKNOWN)
      requires conf.iterations > 0 ==> start == BoostedAll([], conf, bias, trainData[..])
      modifies trainData, cache, set k | 0 <= k < |trees| :: trees[k].tree
      ensures |models| == conf.iterations && |history| == conf.iterations + 1
      ensures forall k :: 0 <= k < |trees| ==> InUse(trees[k], models[k], conf.featureSize) && Depth(models[k]) <= conf.maxDepth
      ensures OnlyTargets(trainData[..], old(trainData[..]), conf.loss)
      ensures predicted == history[conf.iterations].predicted
      ensures Progress(models, history, conf, bias, rand, old(trainData[..]), exp)
      ensures conf.iterations > 0 ==>
                && |history[conf.iterations - 1].predicted| == trainData.Length
                && trainData[..] == RetargetAll(old(trainData[..]), conf.loss, history[conf.iterations - 1].predicted, exp)
    {
      hide FeatureOrders, Stores, Size, Subset, TreeOf, IsPermutation, Depth, BoostedAll, Fair, FairShuffles, Retarget, WellShaped,
           WellLinked, TrainingCache.Prepared, DecisionTree.Holds, Progress, OnlyTargets, RetargetAll, Advances, FollowsLoss,
           TrainedInTurn, Tracks, Descends, SquaredErrorSettings, InitialBias, Distinct, ValuesOf;
      ghost var data := trainData[..];
      predicted, models, history := start, [], [Running(start, cache.preds)];
      UntouchedSamples(data, conf.loss);
      ProgressStart(history[0], conf, bias, rand, data, exp);
      for i := 0 to conf.iterations
        invariant |models| == i
        invariant SameSamples(trainData[..], data) && ValidData(trainData[..], conf.featureSize)
        invariant cache.Prepared(FeaturesOf(trainData[..])) && |cache.cacheValue| == trainData.Length
        invariant forall j :: 0 <= j < trainData.Length ==> cache.cacheValue[j].c == trainData[j].weight
        invariant forall k :: 0 <= k < i ==> InUse(trees[k], models[k], conf.featureSize) && Depth(models[k]) <= conf.maxDepth
        invariant forall k :: i <= k < |trees| ==> IsFreshTree(trees[k], conf)
        invariant OnlyTargets(trainData[..], data, conf.loss)
        invariant |history| == i + 1 && history[i] == Running(predicted, cache.preds)
        invariant Progress(models, history, conf, bias, rand, data, exp)
        invariant i > 0 ==>
                    && |history[i - 1].predicted| == |data|
                    && trainData[..] == RetargetAll(data, conf.loss, history[i - 1].predicted, exp)
      {
        ghost var last := trainData[..];
        ghost var t;
        FairAt(rand, trainData.Length, conf.featureSize, i);
        ProgressLengths(models, history, conf, bias, rand, data, exp);
        predicted, t := BoostStep(trees[i], trainData, predicted, cache, rand.perms(i), rand.rngs(i), exp);
        IterationKeeps(models, t, conf, bias, rand, data, last, trainData[..], predicted, cache.preds, exp, history);
        models, history := models + [t], history + [Running(predicted, cache.preds)];
      }
    }

    /** Fresh, untrained trees, one for every iteration, each with a vector of nodes of its own. */
    method NewTrees() returns (r: seq<DecisionTree>)
      ensures |r| == conf.iterations && Separate(r)
      ensures forall k :: 0 <= k < |r| ==> fresh(r[k]) && fresh(r[k].tree) && IsFreshTree(r[k], conf)
    {
      r := [];
      for i := 0 to conf.iterations
        invariant |r| == i && Separate(r)
        invariant forall k :: 0 <= k < i ==> fresh(r[k]) && fresh(r[k].tree) && IsFreshTree(r[k], conf)
      {
        var t := new DecisionTree(TreeConfigOf(conf));
        r := r + [t];
      }
    }

    /** `predict_n`: the first `n` samples with the trees `begin .. begin + iters`. */
    method PredictN(testData: seq<Data>, begin: nat, iters: nat, n: nat, ghost models: seq<DTree>) returns (predicted: seq<real>)
      requires begin + iters <= |trees| && n <= |testData|
      requires |models| == iters
      requires forall k :: 0 <= k < iters ==> InUse(trees[begin + k], models[k], conf.featureSize)
      requires ValidData(testData, conf.featureSize)
      ensures if trees == [] then predicted == seq(|testData|, _ => UNKNOWN)
              else predicted == BoostedAll(models, conf, bias, testData[..n])
    {
      if trees == [] {
        return seq(|testData|, _ => UNKNOWN);
      }
      var b := bias;
      predicted := seq(n, i requires 0 <= i < n => Start(conf, b, testData[i]));
      var subset := Range(n);
      for i := 0 to iters
        invariant |predicted| == n
        invariant forall j :: 0 <= j < n ==>
                    predicted[j] == Boosted(models[..i], conf.shrinkage, Start(conf, bias, testData[j]), testData[j].feature)
      {
        predicted := StepAll(trees[begin + i], models[i], testData, subset, predicted);
        assert models[..i + 1] == models[..i] + [models[i]];
        forall j | 0 <= j < n
          ensures predicted[j] == Boosted(models[..i + 1], conf.shrinkage, Start(conf, bias, testData[j]), testData[j].feature)
        {
          BoostedSnoc(models[..i], models[i], conf.shrinkage, Start(conf, bias, testData[j]), testData[j].feature);
        }
      }
      assert models[..iters] == models;
    }

    /** Adds one tree's predictions to the first samples. */
    method StepAll(tree: DecisionTree, ghost t: DTree, testData: seq<Data>, subset: seq<nat>, predicted: seq<real>)
      returns (r: seq<real>)
      requires InUse(tree, t, conf.featureSize) && ValidData(testData, conf.featureSize)
      requires |predicted| <= |testData| && subset == Range(|predicted|)
      ensures |r| == |predicted|
      ensures forall j :: 0 <= j < |r| ==> r[j] == Stepped(predicted[j], conf.shrinkage, Prediction(t, testData[j].feature))
    {
      hide Stores, Size, WellShaped, Stepped;
      StoresNonEmpty(tree.tree.tree, t);
      forall i | 0 <= i < |testData|
        ensures PredictOne(tree.tree.tree, tree.tree.tree[0], testData[i].feature) == Eval(t, testData[i].feature)
        ensures Eval(t, testData[i].feature).Some?
      {
        EvalTotal(t, testData[i].feature);
        PredictOneIsEval(tree.tree.tree, 0, t, testData[i].feature);
      }
      var v := tree.PredictN(testData, subset);
      r := predicted;
      for j := 0 to |predicted|
        invariant |r| == |predicted|
        invariant forall k :: 0 <= k < j ==> r[k] == Stepped(predicted[k], conf.shrinkage, Prediction(t, testData[k].feature))
        invariant forall k :: j <= k < |r| ==> r[k] == predicted[k]
      {
        assert subset[j] == j;
        r := r[j := Stepped(r[j], conf.shrinkage, v.value[j])];
      }
    }

    /** Checks the samples and computes the bias, unless every sample brings its own initial guess. */
    method Init(data: seq<Data>, logOdds: real -> real) returns (ok: bool)
      modifies this`bias
      ensures ok <==> InitialBias(conf, data, logOdds, old(bias)).Some?
      ensures ok ==> InitialBias(conf, data, logOdds, old(bias)) == Some(bias)
      ensures if ok then ValidData(data, conf.featureSize) else bias == old(bias)
    {
      if !ValidData(data, conf.featureSize) {
        return false;
      }
      if conf.initialGuessEnabled {
        return true;
      }
      match conf.loss {
        case LogLikelyhood =>
          var v := LabelAverage(data);
          bias := logOdds(v);
        case LAD =>
          var median := WeightedLabelMedian(data);
          if median.None? {
            return false;
          }
          bias := median.value;
        case _ =>
          bias := LabelAverage(data);
      }
      ok := true;
    }
  }

  /** No two trees share their vector of nodes. */
  ghost predicate Separate(trees: seq<DecisionTree>) {
    forall a, b :: 0 <= a < b < |trees| ==> trees[a].tree != trees[b].tree
  }

  ghost predicate IsFreshTree(tree: DecisionTree, conf: Config)
    reads tree.tree
  {
    tree.tree.tree == [] && tree.conf == TreeConfigOf(conf)
  }

  lemma StoresNonEmpty(nodes: Nodes, t: DTree)
    requires WellLinked(nodes) && Stores(nodes, 0, t)
    ensures nodes != [] && nodes[0].index == 0
  {
    assert NodeLinked(nodes[0], 0, |nodes|);
  }

  lemma TracksStart(conf: Config, bias: real, rand: Randomness, data: seq<Data>)
    requires Fair(rand, |data|, conf.featureSize)
    ensures Tracks([], conf, bias, rand, data, BoostedAll([], conf, bias, data))
  {
  }

  lemma NothingTrained(start: Running, conf: Config, bias: real, rand: Randomness, data: seq<Data>, exp: Exponential)
    requires Fair(rand, |data|, conf.featureSize)
    ensures TrainedInTurn([], [start], conf, bias, rand, data, exp)
  {
  }

  lemma UntouchedSamples(data: seq<Data>, loss: Loss)
    ensures OnlyTargets(data, data, loss)
  {
  }

  lemma DescendsStart(conf: Config, bias: real, rand: Randomness, data: seq<Data>)
    requires Fair(rand, |data|, conf.featureSize)
    ensures Descends([], conf, bias, rand, data)
  {
  }

  lemma AllSamples(ratio: real, perm: seq<nat>, n: nat)
    requires |perm| == n && ratio >= 1.0
    ensures Subset(ratio, perm, n) == Range(n)
  {
  }
}
