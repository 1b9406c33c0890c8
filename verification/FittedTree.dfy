/** Decision trees as values: how they predict, and the one that training grows. */
module FittedTree {
  import opened Options
  import opened Seqs
  import opened Values
  import opened Orderings
  import opened SplitSearch
  import opened TreeSpec

  /** `missing` routes an unknown value: -1 left, 0 the node's own prediction, otherwise right. */
  datatype DTree =
    | Leaf(pred: real)
    | Branch(feature: nat, threshold: real, pred: real, missing: int, left: DTree, right: DTree)

  function Depth(t: DTree): nat {
    match t
    case Leaf(_) => 0
    case Branch(_, _, _, _, l, r) => 1 + if Depth(l) > Depth(r) then Depth(l) else Depth(r)
  }

  function Size(t: DTree): nat {
    match t
    case Leaf(_) => 1
    case Branch(_, _, _, _, l, r) => 1 + Size(l) + Size(r)
  }

  /** The prediction of `t`; None where a sample lacks a feature that is asked for. */
  function Eval(t: DTree, x: seq<Feature>): Option<real> {
    match t
    case Leaf(pred) => Some(pred)
    case Branch(f, v, pred, missing, l, r) =>
      if |x| <= f then None
      else if x[f] == UNKNOWN then
        if missing == -1 then Eval(l, x) else if missing == 0 then Some(pred) else Eval(r, x)
      else if x[f] < v then Eval(l, x)
      else Eval(r, x)
  }

  function Prediction(t: DTree, x: seq<Feature>): real {
    match Eval(t, x)
    case Some(v) => v
    case None => 0.0
  }

  /** The sample meets an unknown value before it reaches a leaf: training loses sight of it there. */
  predicate Dropped(t: DTree, x: seq<Feature>) {
    match t
    case Leaf(_) => false
    case Branch(f, v, _, _, l, r) =>
      f < |x| && (x[f] == UNKNOWN || if x[f] < v then Dropped(l, x) else Dropped(r, x))
  }

  predicate Same(samples: seq<nat>, target: seq<real>)
    requires Below(samples, |target|)
  {
    samples != [] && forall k :: 1 <= k < |samples| ==> AlmostEqual(target[samples[0]], target[samples[k]])
  }

  ghost predicate Trainable(p: Problem, conf: TreeConfig, rng: Shuffles) {
    && p.Valid()
    && |p.orders| == conf.featureSize
    && FairShuffles(rng, conf.featureSize)
  }

  ghost predicate IsNode(p: Problem, samples: seq<nat>) {
    Distinct(samples) && Below(samples, |p.features|)
  }

  ghost predicate Stops(p: Problem, conf: TreeConfig, rng: Shuffles, samples: seq<nat>, depth: nat)
    requires Trainable(p, conf, rng) && IsNode(p, samples)
  {
    depth >= conf.maxDepth || Same(samples, p.target) || |samples| <= conf.minLeafSize
  }

  ghost function NodeSplit(p: Problem, conf: TreeConfig, rng: Shuffles, samples: seq<nat>, path: seq<bool>): (s: Option<Split>)
    requires Trainable(p, conf, rng) && IsNode(p, samples)
    ensures s.Some? ==>
              && s.value.feature < conf.featureSize
              && IsPartition(s.value, samples, Column(p.features, s.value.feature))
              && IsNode(p, s.value.left) && IsNode(p, s.value.right)
  {
    var cands := Candidates(conf, rng(path));
    var s := SplitNode(p, samples, cands);
    if s.Some? then SplitPartitions(p, samples, cands); s else s
  }

  /** The tree grown from `samples`, whatever cache level the trainer runs at. */
  ghost function Grow(p: Problem, conf: TreeConfig, rng: Shuffles, samples: seq<nat>, depth: nat, path: seq<bool>): DTree
    requires Trainable(p, conf, rng) && IsNode(p, samples)
    decreases if depth >= conf.maxDepth then 0 else conf.maxDepth - depth
  {
    var pred := LeafValue(p, conf.loss, samples);
    if Stops(p, conf, rng, samples, depth) then Leaf(pred)
    else
      match NodeSplit(p, conf, rng, samples, path)
      case None => Leaf(pred)
      case Some(s) =>
        Branch(s.feature, s.threshold, pred, 0,
               Grow(p, conf, rng, s.left, depth + 1, path + [false]),
               Grow(p, conf, rng, s.right, depth + 1, path + [true]))
  }

  // ---- shape -----------------------------------------------------------------------------------

  /** Every branch asks for one of the `featureSize` features and keeps unknown values itself. */
  predicate WellShaped(t: DTree, featureSize: nat) {
    match t
    case Leaf(_) => true
    case Branch(f, _, _, missing, l, r) =>
      f < featureSize && missing == 0 && WellShaped(l, featureSize) && WellShaped(r, featureSize)
  }

  /** A grown tree is well shaped and no deeper than configured. */
  lemma {:induction false} GrowShape(p: Problem, conf: TreeConfig, rng: Shuffles, samples: seq<nat>, depth: nat, path: seq<bool>)
    requires Trainable(p, conf, rng) && IsNode(p, samples)
    ensures var t := Grow(p, conf, rng, samples, depth, path);
            && WellShaped(t, conf.featureSize)
            && (depth <= conf.maxDepth ==> depth + Depth(t) <= conf.maxDepth)
    decreases if depth >= conf.maxDepth then 0 else conf.maxDepth - depth
  {
    hide IsPartition, IsNode, Trainable, LeafValue, SplitNode, Candidates;
    if !Stops(p, conf, rng, samples, depth) {
      var s := NodeSplit(p, conf, rng, samples, path);
      if s.Some? {
        GrowShape(p, conf, rng, s.value.left, depth + 1, path + [false]);
        GrowShape(p, conf, rng, s.value.right, depth + 1, path + [true]);
      }
    }
  }

  /** A well-shaped tree predicts every sample that has all the features. */
  lemma {:induction false} EvalTotal(t: DTree, x: seq<Feature>)
    requires WellShaped(t, |x|)
    ensures Eval(t, x).Some?
  {
    if t.Branch? {
      EvalTotal(t.left, x);
      EvalTotal(t.right, x);
    }
  }

  lemma {:induction false} KnownNeverDropped(t: DTree, x: seq<Feature>)
    requires forall f :: 0 <= f < |x| ==> x[f] != UNKNOWN
    ensures !Dropped(t, x)
  {
    if t.Branch? {
      KnownNeverDropped(t.left, x);
      KnownNeverDropped(t.right, x);
    }
  }

  // ---- what training leaves in the prediction cache -------------------------------------------

  /** A sample's cached prediction after training: the tree's, unless the sample was dropped. */
  function Trained(t: DTree, x: seq<Feature>, before: real): real {
    if Dropped(t, x) then before
    else match Eval(t, x)
         case Some(v) => v
         case None => before
  }

  /** Only the samples of the node changed, each to what training on `t` leaves. */
  ghost predicate PredsUpdated(before: seq<real>, after: seq<real>, p: Problem, samples: seq<nat>, t: DTree)
    requires |before| == |p.features|
  {
    && |after| == |before|
    && forall i :: 0 <= i < |before| ==>
         after[i] == if i in samples then Trained(t, p.features[i], before[i]) else before[i]
  }

  /** The updates of the two children add up to the update of their parent. */
  lemma PredsJoin(before: seq<real>, mid: seq<real>, after: seq<real>, p: Problem, samples: seq<nat>, s: Split, t: DTree)
    requires p.Valid() && s.feature < |p.orders|
    requires |before| == |p.features|
    requires IsPartition(s, samples, Column(p.features, s.feature)) && Distinct(samples)
    requires t.Branch? && t.feature == s.feature && t.threshold == s.threshold
    requires PredsUpdated(before, mid, p, s.left, t.left)
    requires PredsUpdated(mid, after, p, s.right, t.right)
    ensures PredsUpdated(before, after, p, samples, t)
  {
    var column := Column(p.features, s.feature);
    PartitionMembers(s, samples, column);
    hide IsOrdering, Matches, Sorted, Distinct;
    forall i | 0 <= i < |before|
      ensures after[i] == if i in samples then Trained(t, p.features[i], before[i]) else before[i]
    {
      var x := p.features[i];
      assert x[s.feature] == column[i];
      if i in s.left {
        var k :| 0 <= k < |s.left| && s.left[k] == i;
        assert UNKNOWN < column[s.left[k]] < s.threshold;
      } else if i in s.right {
        var k :| 0 <= k < |s.right| && s.right[k] == i;
        assert UNKNOWN < s.threshold < column[s.right[k]];
      } else if i in s.unknown {
        var k :| 0 <= k < |s.unknown| && s.unknown[k] == i;
        assert column[s.unknown[k]] == UNKNOWN;
      }
    }
  }

  lemma SplitMembers(p: Problem, conf: TreeConfig, rng: Shuffles, samples: seq<nat>, path: seq<bool>)
    requires Trainable(p, conf, rng) && IsNode(p, samples)
    requires NodeSplit(p, conf, rng, samples, path).Some?
    ensures var s := NodeSplit(p, conf, rng, samples, path).value;
            && (forall i :: i in s.left ==> i in samples && i !in s.right)
            && (forall i :: i in s.right ==> i in samples)
  {
    var s := NodeSplit(p, conf, rng, samples, path).value;
    PartitionMembers(s, samples, Column(p.features, s.feature));
  }

  lemma GrowPreds(p: Problem, conf: TreeConfig, rng: Shuffles, samples: seq<nat>, depth: nat, path: seq<bool>,
                  before: seq<real>, mid: seq<real>, after: seq<real>)
    requires Trainable(p, conf, rng) && IsNode(p, samples) && |before| == |mid| == |p.features|
    requires !Stops(p, conf, rng, samples, depth) && NodeSplit(p, conf, rng, samples, path).Some?
    requires var s := NodeSplit(p, conf, rng, samples, path).value;
             && PredsUpdated(before, mid, p, s.left, Grow(p, conf, rng, s.left, depth + 1, path + [false]))
             && PredsUpdated(mid, after, p, s.right, Grow(p, conf, rng, s.right, depth + 1, path + [true]))
    ensures PredsUpdated(before, after, p, samples, Grow(p, conf, rng, samples, depth, path))
  {
    hide PredsUpdated, IsPartition, SplitNode;
    var s := NodeSplit(p, conf, rng, samples, path).value;
    PredsJoin(before, mid, after, p, samples, s, Grow(p, conf, rng, samples, depth, path));
  }

  /** The tree trained on the samples of `data` listed in `subset`. */
  ghost function TreeOf(data: seq<Data>, conf: TreeConfig, rng: Shuffles, subset: seq<nat>): DTree
    requires ValidData(data, conf.featureSize) && FairShuffles(rng, conf.featureSize)
    requires Distinct(subset) && Below(subset, |data|)
  {
    ProblemIsValid(data, conf.featureSize, conf.sort);
    Grow(ProblemOf(data, conf.featureSize, conf.sort), conf, rng, subset, 0, [])
  }

  /** The samples in `subset` have their new predictions, the others kept theirs. */
  ghost predicate PredsTrained(before: seq<real>, after: seq<real>, data: seq<Data>, subset: seq<nat>, t: DTree) {
    && |after| == |before| == |data|
    && forall i :: 0 <= i < |data| ==> after[i] == if i in subset then Trained(t, data[i].feature, before[i]) else before[i]
  }

  /** A trained tree predicts every sample, and asks for no deeper path than configured. */
  lemma TreeOfShape(data: seq<Data>, conf: TreeConfig, rng: Shuffles, subset: seq<nat>)
    requires ValidData(data, conf.featureSize) && FairShuffles(rng, conf.featureSize)
    requires Distinct(subset) && Below(subset, |data|)
    ensures var t := TreeOf(data, conf, rng, subset);
            WellShaped(t, conf.featureSize) && Depth(t) <= conf.maxDepth
    ensures forall x: seq<Feature> :: |x| == conf.featureSize ==> Eval(TreeOf(data, conf, rng, subset), x).Some?
  {
    ProblemIsValid(data, conf.featureSize, conf.sort);
    GrowShape(ProblemOf(data, conf.featureSize, conf.sort), conf, rng, subset, 0, []);
    forall x: seq<Feature> | |x| == conf.featureSize
      ensures Eval(TreeOf(data, conf, rng, subset), x).Some?
    {
      EvalTotal(TreeOf(data, conf, rng, subset), x);
    }
  }
}
