/** decision_tree.rs: growing a tree in place, and predicting with it. */
module DecisionTrees {
  import opened Options
  import opened Seqs
  import opened Values
  import opened Orderings
  import opened SplitSearch
  import opened TreeSpec
  import opened FittedTree
  import opened BinaryTrees
  import opened StoredTree
  import opened TrainingCaches

  // ---- leaf values -----------------------------------------------------------------------------

  /** The leaf value of the squared error loss. */
  method Average(data: seq<nat>, cache: TrainingCache) returns (pred: real)
    requires Below(data, |cache.cacheValue|)
    ensures pred == Ratio(Sum(data, S(cache.cacheValue)), Sum(data, C(cache.cacheValue)))
  {
    var sum, weight := 0.0, 0.0;
    for k := 0 to |data|
      invariant sum == Sum(data[..k], S(cache.cacheValue)) && weight == Sum(data[..k], C(cache.cacheValue))
    {
      SumSnoc(data, k, S(cache.cacheValue));
      SumSnoc(data, k, C(cache.cacheValue));
      sum := sum + cache.cacheValue[data[k]].s;
      weight := weight + cache.cacheValue[data[k]].c;
    }
    assert data[..|data|] == data;
    pred := if Abs(weight) < 0.0000000001 then 0.0 else sum / weight;
  }

  /** The leaf value of the log-likelihood loss. */
  method LogitOptimalValue(data: seq<nat>, cache: TrainingCache) returns (pred: real)
    requires Below(data, |cache.cacheValue|) && |cache.logitC| == |cache.cacheValue|
    ensures pred == Ratio(Sum(data, S(cache.cacheValue)), Sum(data, cache.logitC))
  {
    var s, c := 0.0, 0.0;
    for k := 0 to |data|
      invariant s == Sum(data[..k], S(cache.cacheValue)) && c == Sum(data[..k], cache.logitC)
    {
      SumSnoc(data, k, S(cache.cacheValue));
      SumSnoc(data, k, cache.logitC);
      s := s + cache.cacheValue[data[k]].s;
      c := c + cache.logitC[data[k]];
    }
    assert data[..|data|] == data;
    pred := if Abs(c) < 0.0000000001 then 0.0 else s / c;
  }

  /** The leaf value of the LAD loss. */
  method LadOptimalValue(data: seq<nat>, cache: TrainingCache, sub: SubCache, ghost p: Problem) returns (pred: real)
    requires cache.Reflects(p, LAD) && Serves(sub, cache.cacheLevel, LAD, p, data)
    requires IsNode(p, data)
    ensures pred == LeafValue(p, LAD, data)
  {
    var mask := BoolVec(cache.sampleSize, data);
    var o := cache.SortWithBoolVec(0, true, mask, |data|, sub, LAD, p, data);
    pred := WeightedMedian(o, cache.cacheValue);
  }

  method WeightedMedian(o: seq<Entry>, values: seq<CacheValue>) returns (median: real)
    requires IndicesBelow(o, |values|)
    ensures median == MedianFrom(o, values, Sum(Indices(o), C(values)), 0)
  {
    ghost var x := Indices(o);
    var all := 0.0;
    for k := 0 to |o|
      invariant all == Sum(x[..k], C(values))
    {
      SumSnoc(x, k, C(values));
      all := all + values[o[k].index].c;
    }
    assert x[..|o|] == x;
    var weight := 0.0;
    median := 0.0;
    for i := 0 to |o|
      invariant weight == Sum(x[..i], C(values))
      invariant median == 0.0
      invariant MedianFrom(o, values, all, 0) == MedianFrom(o, values, all, i)
    {
      SumSnoc(x, i, C(values));
      weight := weight + values[o[i].index].c;
      if weight * 2.0 > all {
        median := if i >= 1 then (o[i].value + o[i - 1].value) / 2.0 else o[i].value;
        return;
      }
    }
  }

  method CalculatePred(data: seq<nat>, loss: Loss, cache: TrainingCache, sub: SubCache, ghost p: Problem) returns (pred: real)
    requires cache.Reflects(p, loss) && Serves(sub, cache.cacheLevel, loss, p, data)
    requires IsNode(p, data)
    ensures pred == LeafValue(p, loss, data)
  {
    match loss {
      case LogLikelyhood => pred := LogitOptimalValue(data, cache);
      case LAD => pred := LadOptimalValue(data, cache, sub, p);
      case _ => pred := Average(data, cache);
    }
  }

  method SameTargets(iv: seq<nat>, cache: TrainingCache) returns (same: bool)
    requires Below(iv, |cache.cacheTarget|)
    ensures same == Same(iv, cache.cacheTarget)
  {
    if iv == [] {
      return false;
    }
    var t := cache.cacheTarget[iv[0]];
    for k := 1 to |iv|
      invariant forall j :: 1 <= j < k ==> AlmostEqual(t, cache.cacheTarget[iv[j]])
    {
      if !AlmostEqual(t, cache.cacheTarget[iv[k]]) {
        return false;
      }
    }
    same := true;
  }

  // ---- the split search ------------------------------------------------------------------------

  function SweepResult(o: seq<Entry>, values: seq<CacheValue>, b: Option<nat>): (Option<real>, real)
    requires IndicesBelow(o, |values|) && (b.Some? ==> IsCut(o, b.value))
  {
    match b
    case None => (None, UNKNOWN)
    case Some(i) => (Some(CutCost(o, values, i)), Threshold(o, i))
  }

  lemma UnknownCountIs(o: seq<Entry>, u: nat)
    requires u <= |o| && forall k :: 0 <= k < u ==> o[k].value == UNKNOWN
    requires u < |o| ==> o[u].value != UNKNOWN
    ensures UnknownCount(o) == u
  {
  }

  lemma SweepStart(x: seq<nat>, u: nat, values: seq<CacheValue>)
    requires Below(x, |values|) && u <= |x|
    ensures Total(x[u..u], values) == CacheValue(0.0, 0.0, 0.0)
    ensures Total(x[u..], values) == Minus(Total(x, values), Total(x[..u], values))
  {
    assert x == x[..u] + x[u..];
    TotalConcat(x[..u], x[u..], values);
  }

  /** The leading samples whose value is unknown, and their sums. */
  method SumUnknown(o: seq<Entry>, values: seq<CacheValue>) returns (unknown: nat, t: CacheValue)
    requires IndicesBelow(o, |values|)
    ensures unknown == UnknownCount(o) && t == Total(Indices(o)[..unknown], values)
  {
    unknown, t := 0, CacheValue(0.0, 0.0, 0.0);
    while unknown < |o| && o[unknown].value == UNKNOWN
      invariant unknown <= |o|
      invariant forall k :: 0 <= k < unknown ==> o[k].value == UNKNOWN
      invariant t == Total(Indices(o)[..unknown], values)
    {
      TotalSnoc(Indices(o), unknown, values);
      t := Plus(t, values[o[unknown].index]);
      unknown := unknown + 1;
    }
    UnknownCountIs(o, unknown);
  }

  lemma NoCutNoBest(o: seq<Entry>, values: seq<CacheValue>, k: nat)
    requires IndicesBelow(o, |values|) && k <= |o| && k <= UnknownCount(o)
    ensures BestCut(o, values, k) == None
  {
  }

  lemma BestCutStep(o: seq<Entry>, values: seq<CacheValue>, i: nat)
    requires IndicesBelow(o, |values|) && i < |o|
    ensures var b := BestCut(o, values, i);
            BestCut(o, values, i + 1) ==
              if IsCut(o, i) && Worse(SweepResult(o, values, b).0, Some(CutCost(o, values, i))) then Some(i) else b
  {
  }

  /** The linear sweep with running sums over a sorted column. */
  method Sweep(o: seq<Entry>, values: seq<CacheValue>, sum: CacheValue) returns (impurity: Option<real>, value: real)
    requires IndicesBelow(o, |values|)
    requires sum == Total(Indices(o), values)
    ensures (impurity, value) == SweepResult(o, values, BestCut(o, values, |o|))
  {
    hide Total, Cost, BestCut, AlmostEqual;
    ghost var x := Indices(o);
    impurity, value := None, UNKNOWN;
    var unknown, t := SumUnknown(o, values);
    if unknown == |o| {
      NoCutNoBest(o, values, |o|);
      return;
    }
    var fitness0 := Cost(t);
    var left, right := CacheValue(0.0, 0.0, 0.0), Minus(sum, t);
    SweepStart(x, unknown, values);
    NoCutNoBest(o, values, unknown);
    for i := unknown to |o| - 1
      invariant left == Total(x[unknown..i], values) && right == Total(x[i..], values)
      invariant (impurity, value) == SweepResult(o, values, BestCut(o, values, i))
    {
      var f1, f2, cv := o[i].value, o[i + 1].value, values[o[i].index];
      left := Plus(left, cv);
      right := Minus(right, cv);
      SweepStep(x, unknown, i, values);
      BestCutStep(o, values, i);
      if AlmostEqual(f1, f2) {
        continue;
      }
      var fitness := fitness0 + Cost(left) + Cost(right);
      assert IsCut(o, i) && fitness == CutCost(o, values, i);
      if Worse(impurity, Some(fitness)) {
        impurity := Some(fitness);
        value := (f1 + f2) / 2.0;
      }
    }
    BestCutStep(o, values, |o| - 1);
  }

  method GetImpurity(trainData: seq<nat>, featureIndex: nat, cache: TrainingCache, boolVec: seq<bool>, sub: SubCache,
                     loss: Loss, ghost p: Problem)
    returns (sorted: seq<Entry>, impurity: Option<real>, value: real)
    requires cache.Reflects(p, loss) && Serves(sub, cache.cacheLevel, loss, p, trainData)
    requires IsNode(p, trainData) && featureIndex < cache.featureSize
    requires boolVec == Mask(cache.sampleSize, trainData)
    ensures sorted == p.Order(featureIndex, trainData)
    ensures (impurity, value) == SweepResult(sorted, p.values, FeatureCut(p, trainData, featureIndex))
  {
    sorted := cache.SortWithBoolVec(featureIndex, false, boolVec, |trainData|, sub, loss, p, trainData);
    var values := cache.cacheValue;
    var sum := CacheValue(0.0, 0.0, 0.0);
    for k := 0 to |trainData|
      invariant sum == Total(trainData[..k], values)
    {
      TotalSnoc(trainData, k, values);
      sum := Plus(sum, values[trainData[k]]);
    }
    assert trainData[..|trainData|] == trainData;
    NodeOrderProperties(p.orders[featureIndex], Column(p.features, featureIndex), trainData);
    TotalPermuted(trainData, Indices(sorted), values);
    impurity, value := Sweep(sorted, values, sum);
  }

  /** The parts dealt out after looking at the first `m` of the sorted samples. */
  function Dealt(x: seq<nat>, u: nat, c: nat, m: nat): (seq<nat>, seq<nat>, seq<nat>)
    requires u <= c <= |x| && m <= |x|
  {
    (x[..if m < u then m else u], x[u..if m < u then u else if m < c then m else c], x[c..if m < c then c else m])
  }

  lemma DealtStep(x: seq<nat>, u: nat, c: nat, m: nat)
    requires u <= c <= |x| && m < |x|
    ensures var d, e := Dealt(x, u, c, m), Dealt(x, u, c, m + 1);
            && e.0 == (if m < u then d.0 + [x[m]] else d.0)
            && e.1 == (if u <= m < c then d.1 + [x[m]] else d.1)
            && e.2 == (if c <= m then d.2 + [x[m]] else d.2)
  {
  }

  /** Deals the sorted samples out by comparing each value with the threshold. */
  method Partition(o: seq<Entry>, feature: nat, value: real, ghost i: nat)
    returns (left: seq<nat>, right: seq<nat>, unknown: seq<nat>)
    requires Sorted(o) && IsCut(o, i) && value == Threshold(o, i)
    requires forall k :: 0 <= k < |o| ==> UNKNOWN <= o[k].value
    ensures Split(left, right, unknown, feature, value) == CutAt(o, feature, i)
  {
    hide Sorted, Dealt;
    CutValues(o, i);
    ghost var x, u := Indices(o), UnknownCount(o);
    left, right, unknown := [], [], [];
    DealtEnds(x, u, i + 1);
    for m := 0 to |o|
      invariant var d := Dealt(x, u, i + 1, m); unknown == d.0 && left == d.1 && right == d.2
    {
      DealtStep(x, u, i + 1, m);
      if o[m].value == UNKNOWN {
        unknown := unknown + [o[m].index];
      } else if o[m].value < value {
        left := left + [o[m].index];
      } else {
        right := right + [o[m].index];
      }
    }
  }

  lemma DealtEnds(x: seq<nat>, u: nat, c: nat)
    requires u <= c <= |x|
    ensures var d := Dealt(x, u, c, 0); d.0 == [] && d.1 == [] && d.2 == []
    ensures var d := Dealt(x, u, c, |x|); d.0 == x[..u] && d.1 == x[u..c] && d.2 == x[c..]
  {
  }

  lemma NodeSplitIs(p: Problem, conf: TreeConfig, rng: Shuffles, samples: seq<nat>, path: seq<bool>)
    requires Trainable(p, conf, rng) && IsNode(p, samples)
    ensures NodeSplit(p, conf, rng, samples, path) == SplitNode(p, samples, Candidates(conf, rng(path)))
  {
  }

  lemma OrderAboveUnknown(p: Problem, f: nat, samples: seq<nat>)
    requires p.Valid() && f < |p.orders| && IsNode(p, samples)
    ensures var o := p.Order(f, samples); Sorted(o) && forall k :: 0 <= k < |o| ==> UNKNOWN <= o[k].value
  {
    NodeOrderProperties(p.orders[f], Column(p.features, f), samples);
  }

  /** A candidate feature with its best cut: cost, threshold and the sorted samples. */
  datatype Candidate = Candidate(feature: nat, sorted: seq<Entry>, impurity: real, value: real)

  ghost function CandidateAt(p: Problem, loss: Loss, samples: seq<nat>, f: nat): Candidate
    requires p.Valid() && f < |p.orders| && Impurity(p, samples, f).Some?
  {
    var o, i := p.Order(f, samples), FeatureCut(p, samples, f).value;
    Candidate(f, o, CutCost(o, p.values, i), Threshold(o, i))
  }

  ghost function BestCandidate(p: Problem, loss: Loss, samples: seq<nat>, fv: seq<nat>, b: Option<nat>): Option<Candidate>
    requires p.Valid() && Below(fv, |p.orders|)
    requires b.Some? ==> b.value < |fv| && Impurity(p, samples, fv[b.value]).Some?
  {
    if b.None? then None else Some(CandidateAt(p, loss, samples, fv[b.value]))
  }

  /** Tries the candidate features one after the other and keeps the first with the smallest impurity. */
  method ChooseFeature(trainData: seq<nat>, fv: seq<nat>, cache: TrainingCache, sub: SubCache, loss: Loss, ghost p: Problem)
    returns (best: Option<Candidate>)
    requires cache.Reflects(p, loss) && Serves(sub, cache.cacheLevel, loss, p, trainData)
    requires IsNode(p, trainData) && Below(fv, cache.featureSize)
    ensures var imps := Impurities(p, trainData, fv);
            best == BestCandidate(p, loss, trainData, fv, FirstSmallest(imps, |fv|))
  {
    hide IsOrdering, Distinct, BestCut, Serves, CutCost, NodeOrder, IsCut, FirstSmallest, Threshold;
    var boolVec := BoolVec(cache.sampleSize, trainData);
    best := None;
    ghost var imps := Impurities(p, trainData, fv);
    FirstSmallestStart(imps);
    for k := 0 to |fv|
      invariant best == BestCandidate(p, loss, trainData, fv, FirstSmallest(imps, k))
    {
      FirstSmallestStep(imps, k);
      var sorted, impurity, v := GetImpurity(trainData, fv[k], cache, boolVec, sub, loss, p);
      assert impurity == imps[k];
      if Worse(if best.None? then None else Some(best.value.impurity), impurity) {
        best := Some(Candidate(fv[k], sorted, impurity.value, v));
      }
    }
  }

  /** Splits the node at the best cut of all candidate features. */
  method SplitData(trainData: seq<nat>, conf: TreeConfig, shuffled: seq<nat>, cache: TrainingCache, sub: SubCache,
                   ghost p: Problem)
    returns (r: Option<Split>)
    requires cache.Reflects(p, conf.loss) && Serves(sub, cache.cacheLevel, conf.loss, p, trainData)
    requires IsNode(p, trainData)
    requires conf.featureSize == cache.featureSize && conf.sort == cache.sort && IsPermutation(shuffled, conf.featureSize)
    ensures r == SplitNode(p, trainData, Candidates(conf, shuffled))
  {
    hide IsOrdering, Distinct, BestCut, Serves, CutCost, NodeOrder, Sorted;
    var fv := Candidates(conf, shuffled);
    var best := ChooseFeature(trainData, fv, cache, sub, conf.loss, p);
    if best.None? {
      return None;
    }
    var c := best.value;
    OrderAboveUnknown(p, c.feature, trainData);
    var left, right, unknown := Partition(c.sorted, c.feature, c.value, FeatureCut(p, trainData, c.feature).value);
    var count := 0;
    if left == [] {
      count := count + 1;
    }
    if right == [] {
      count := count + 1;
    }
    if unknown == [] {
      count := count + 1;
    }
    if count >= 2 {
      return None;
    }
    r := Some(Split(left, right, unknown, c.feature, c.value));
  }

  // ---- growing the tree ------------------------------------------------------------------------

  /** Records a leaf's prediction for all of its samples. */
  method RecordPreds(data: seq<nat>, pred: real, cache: TrainingCache)
    requires Below(data, |cache.preds|)
    modifies cache`preds
    ensures |cache.preds| == |old(cache.preds)|
    ensures forall i :: 0 <= i < |cache.preds| ==> cache.preds[i] == if i in data then pred else old(cache.preds[i])
  {
    for k := 0 to |data|
      invariant |cache.preds| == |old(cache.preds)|
      invariant forall i :: 0 <= i < |cache.preds| ==>
                  cache.preds[i] == if i in data[..k] then pred else old(cache.preds[i])
    {
      assert data[..k + 1] == data[..k] + [data[k]];
      cache.preds := cache.preds[data[k] := pred];
    }
    assert data[..|data|] == data;
  }

  /** A node that `add_node` has just appended. */
  ghost predicate IsBlank(nodes: Nodes, i: nat) {
    i < |nodes| && nodes[i] == BinaryTreeNode(EMPTY_DT_NODE, i, 0, 0)
  }

  /** `b` grew out of `a` by work on the subtree at `node` alone. */
  ghost predicate GrewAt(a: Nodes, b: Nodes, node: nat) {
    && |a| <= |b|
    && forall k :: 0 <= k < |a| && k != node ==> b[k] == a[k]
  }

  /** The node that `fit_node` has decided to split. */
  function AsBranch(n: BinaryTreeNode<DTNode>, f: nat, v: real, pred: real): BinaryTreeNode<DTNode> {
    n.(value := n.value.(pred := pred, featureIndex := f, featureValue := v))
  }

  /** Two subtrees grown one after the other at the end of the vector make up their parent. */
  lemma ChildrenMakeBranch(a: Nodes, b: Nodes, c: Nodes, node: nat, f: nat, v: real, pred: real, l: DTree, r: DTree)
    requires IsBlank(a, node)
    requires var start := Added(a[node := AsBranch(a[node], f, v, pred)], node, true, NewNode(EMPTY_DT_NODE));
             GrewAt(start, b, |a|) && |b| == |start| + Size(l) - 1
    requires Stores(b, |a|, l)
    requires var start := Added(b, node, false, NewNode(EMPTY_DT_NODE));
             GrewAt(start, c, |b|) && |c| == |start| + Size(r) - 1
    requires Stores(c, |b|, r)
    ensures GrewAt(a, c, node)
    ensures |c| == |a| + Size(Branch(f, v, pred, 0, l, r)) - 1
    ensures Stores(c, node, Branch(f, v, pred, 0, l, r))
  {
    assert b[node].left == |a| && c[node].left == |a| && c[node].right == |b|;
    StoresFrame(b, c, |a|, l);
  }

  class DecisionTree {
    const tree: BinaryTree<DTNode>
    const conf: TreeConfig

    constructor (conf: TreeConfig)
      ensures this.conf == conf && fresh(tree) && tree.tree == []
    {
      this.conf := conf;
      this.tree := new BinaryTree<DTNode>();
    }

    /** Makes `node` a leaf that predicts `pred`. */
    method MakeLeaf(node: nat, trainData: seq<nat>, pred: real, cache: TrainingCache, ghost p: Problem)
      requires node < |tree.tree| && WellLinked(tree.tree)
      requires |cache.preds| == |p.features| && Below(trainData, |cache.preds|)
      modifies tree, cache`preds
      ensures |tree.tree| == |old(tree.tree)| && GrewAt(old(tree.tree), tree.tree, node) && WellLinked(tree.tree)
      ensures Stores(tree.tree, node, Leaf(pred))
      ensures PredsUpdated(old(cache.preds), cache.preds, p, trainData, Leaf(pred))
    {
      var n := tree.tree[node];
      tree.tree := tree.tree[node := n.(value := n.value.(pred := pred, isLeaf := true))];
      ValueKeepsLinks(old(tree.tree), node, tree.tree[node].value);
      RecordPreds(trainData, pred, cache);
    }

    /**
     * Grows the subtree at `node` inside the shared vector of nodes. Whatever the cache level, the
     * subtree stored there is `Grow`, and the cached predictions are those of that subtree.
     */
    method FitNode(node: nat, depth: nat, trainData: seq<nat>, cache: TrainingCache, sub: SubCache,
                   rng: Shuffles, path: seq<bool>, ghost p: Problem)
      requires IsBlank(tree.tree, node) && WellLinked(tree.tree)
      requires conf.featureSize == cache.featureSize && conf.sort == cache.sort
      requires Trainable(p, conf, rng) && IsNode(p, trainData)
      requires cache.Reflects(p, conf.loss) && Serves(sub, cache.cacheLevel, conf.loss, p, trainData)
      modifies tree, cache`preds
      ensures WellLinked(tree.tree) && GrewAt(old(tree.tree), tree.tree, node)
      ensures |cache.preds| == |old(cache.preds)|
      ensures Stores(tree.tree, node, Grow(p, conf, rng, trainData, depth, path))
      ensures |tree.tree| == |old(tree.tree)| + Size(Grow(p, conf, rng, trainData, depth, path)) - 1
      ensures PredsUpdated(old(cache.preds), cache.preds, p, trainData, Grow(p, conf, rng, trainData, depth, path))
      decreases if depth >= conf.maxDepth then 0 else conf.maxDepth - depth
    {
      hide Serves, LeafValue, SplitNode, IsPartition, Candidates, IsOrdering, Distinct;
      var pred := CalculatePred(trainData, conf.loss, cache, sub, p);
      var same := SameTargets(trainData, cache);
      if depth >= conf.maxDepth || same || |trainData| <= conf.minLeafSize {
        MakeLeaf(node, trainData, pred, cache, p);
        return;
      }
      var r := SplitData(trainData, conf, rng(path), cache, sub, p);
      NodeSplitIs(p, conf, rng, trainData, path);
      if r.None? {
        MakeLeaf(node, trainData, pred, cache, p);
        return;
      }
      var s := r.value;
      GrowBranch(node, depth, trainData, pred, s, cache, sub, rng, path, p);
    }

    /** The second half of `fit_node`: the node becomes a branch and its children are grown. */
    method GrowBranch(node: nat, depth: nat, trainData: seq<nat>, pred: real, s: Split, cache: TrainingCache, sub: SubCache,
                      rng: Shuffles, path: seq<bool>, ghost p: Problem)
      requires IsBlank(tree.tree, node) && WellLinked(tree.tree)
      requires conf.featureSize == cache.featureSize && conf.sort == cache.sort
      requires Trainable(p, conf, rng) && IsNode(p, trainData) && depth < conf.maxDepth
      requires cache.Reflects(p, conf.loss) && Serves(sub, cache.cacheLevel, conf.loss, p, trainData)
      requires NodeSplit(p, conf, rng, trainData, path) == Some(s)
      requires !Stops(p, conf, rng, trainData, depth) && pred == LeafValue(p, conf.loss, trainData)
      modifies tree, cache`preds
      ensures WellLinked(tree.tree) && GrewAt(old(tree.tree), tree.tree, node)
      ensures |cache.preds| == |old(cache.preds)|
      ensures Stores(tree.tree, node, Grow(p, conf, rng, trainData, depth, path))
      ensures |tree.tree| == |old(tree.tree)| + Size(Grow(p, conf, rng, trainData, depth, path)) - 1
      ensures PredsUpdated(old(cache.preds), cache.preds, p, trainData, Grow(p, conf, rng, trainData, depth, path))
      decreases conf.maxDepth - depth, 0
    {
      hide Serves, LeafValue, SplitNode, IsPartition, Candidates, PredsUpdated, Problem.Valid, IsOrdering, Distinct;
      hide Stores, Size, WellLinked;
      ghost var before, nodes0 := cache.preds, tree.tree;
      SplitMembers(p, conf, rng, trainData, path);
      tree.tree := tree.tree[node := AsBranch(tree.tree[node], s.feature, s.threshold, pred)];
      ValueKeepsLinks(nodes0, node, tree.tree[node].value);
      var l, r := cache.SplitCache(sub, s.left, s.right, conf.loss, p, trainData);
      AddedIsWellLinked(tree.tree, node, true, NewNode(EMPTY_DT_NODE));
      var leftIndex := tree.AddLeftNode(node, NewNode(EMPTY_DT_NODE));
      FitNode(leftIndex, depth + 1, s.left, cache, l, rng, path + [false], p);
      ghost var nodes1, mid := tree.tree, cache.preds;
      AddedIsWellLinked(tree.tree, node, false, NewNode(EMPTY_DT_NODE));
      var rightIndex := tree.AddRightNode(node, NewNode(EMPTY_DT_NODE));
      FitNode(rightIndex, depth + 1, s.right, cache, r, rng, path + [true], p);
      ChildrenMakeBranch(nodes0, nodes1, tree.tree, node, s.feature, s.threshold, pred,
                         Grow(p, conf, rng, s.left, depth + 1, path + [false]), Grow(p, conf, rng, s.right, depth + 1, path + [true]));
      GrowPreds(p, conf, rng, trainData, depth, path, before, mid, cache.preds);
    }

    /** The vector of nodes holds `t` at the root, and nothing else. */
    ghost predicate Holds(t: DTree)
      reads tree
    {
      WellLinked(tree.tree) && Stores(tree.tree, 0, t) && |tree.tree| == Size(t)
    }

    /** Trains a fresh tree on the samples in `subset`. */
    method FitN(trainData: seq<Data>, subset: seq<nat>, cache: TrainingCache, rng: Shuffles)
      requires tree.tree == []
      requires conf.featureSize == cache.featureSize && conf.sort == cache.sort && FairShuffles(rng, conf.featureSize)
      requires ValidData(trainData, conf.featureSize)
      requires cache.Prepared(FeaturesOf(trainData))
      requires forall i :: 0 <= i < |trainData| ==> cache.cacheValue[i].c == trainData[i].weight
      requires Distinct(subset) && Below(subset, |trainData|)
      modifies tree, cache
      ensures cache.Prepared(FeaturesOf(trainData)) && cache.cacheValue == ValuesOf(trainData)
      ensures Holds(TreeOf(trainData, conf, rng, subset))
      ensures PredsTrained(old(cache.preds), cache.preds, trainData, subset, TreeOf(trainData, conf, rng, subset))
    {
      hide FeatureOrders, IsOrdering, Serves, Stores, Size, Grow, Trained;
      cache.InitOneIteration(trainData, conf.loss);
      ghost var p := ProblemOf(trainData, cache.featureSize, cache.sort);
      ProblemIsValid(trainData, cache.featureSize, cache.sort);
      AddedIsWellLinked(tree.tree, 0, false, NewNode(EMPTY_DT_NODE));
      var rootIndex := tree.AddRoot(NewNode(EMPTY_DT_NODE));
      var sub := cache.GetSubCache(trainData, conf.loss, subset);
      FitNode(rootIndex, 0, subset, cache, sub, rng, [], p);
    }

    /** Trains a fresh tree on all samples. */
    method Fit(trainData: seq<Data>, cache: TrainingCache, rng: Shuffles)
      requires tree.tree == []
      requires conf.featureSize == cache.featureSize && conf.sort == cache.sort && FairShuffles(rng, conf.featureSize)
      requires ValidData(trainData, conf.featureSize)
      requires cache.Prepared(FeaturesOf(trainData))
      requires forall i :: 0 <= i < |trainData| ==> cache.cacheValue[i].c == trainData[i].weight
      modifies tree, cache
      ensures var all := Range(|trainData|);
              && Distinct(all)
              && Holds(TreeOf(trainData, conf, rng, all))
              && PredsTrained(old(cache.preds), cache.preds, trainData, all, TreeOf(trainData, conf, rng, all))
    {
      RangeIsDistinct(|trainData|);
      FitN(trainData, Range(|trainData|), cache, rng);
    }

    /** Predicts the samples in `subset`; None where the original panics. */
    method PredictN(testData: seq<Data>, subset: seq<nat>) returns (ret: Option<seq<real>>)
      requires WellLinked(tree.tree) && Below(subset, |testData|)
      ensures ret.Some? <==>
                tree.tree != [] && forall k :: 0 <= k < |subset| ==> PredictOne(tree.tree, tree.tree[0], testData[subset[k]].feature).Some?
      ensures ret.Some? ==> |ret.value| == |testData| && forall i :: 0 <= i < |testData| ==>
                if i in subset then Some(ret.value[i]) == PredictOne(tree.tree, tree.tree[0], testData[i].feature) else ret.value[i] == 0.0
    {
      if tree.tree == [] {
        return None;
      }
      var root := tree.tree[0];
      assert NodeLinked(root, 0, |tree.tree|);
      var r := seq(|testData|, _ => 0.0);
      for k := 0 to |subset|
        invariant |r| == |testData|
        invariant forall j :: 0 <= j < k ==> PredictOne(tree.tree, root, testData[subset[j]].feature).Some?
        invariant forall i :: 0 <= i < |testData| ==>
                    if i in subset[..k] then Some(r[i]) == PredictOne(tree.tree, root, testData[i].feature) else r[i] == 0.0
      {
        var v := PredictOne(tree.tree, root, testData[subset[k]].feature);
        if v.None? {
          return None;
        }
        assert subset[..k + 1] == subset[..k] + [subset[k]];
        r := r[subset[k] := v.value];
      }
      assert subset[..|subset|] == subset;
      ret := Some(r);
    }
  }

  /**
   * Two trees fitted on the same data with the same shuffles, at whatever cache levels, predict
   * alike; and they predict every sample that has all the features.
   */
  lemma LevelsAgree(a: DecisionTree, b: DecisionTree, data: seq<Data>, rng: Shuffles, subset: seq<nat>, x: seq<Feature>)
    requires a.conf == b.conf
    requires FairShuffles(rng, a.conf.featureSize) && ValidData(data, a.conf.featureSize)
    requires Distinct(subset) && Below(subset, |data|) && |x| == a.conf.featureSize
    requires a.Holds(TreeOf(data, a.conf, rng, subset)) && b.Holds(TreeOf(data, b.conf, rng, subset))
    ensures |a.tree.tree| == |b.tree.tree| > 0
    ensures a.tree.tree[0].index == b.tree.tree[0].index == 0
    ensures PredictOne(a.tree.tree, a.tree.tree[0], x) == PredictOne(b.tree.tree, b.tree.tree[0], x)
    ensures PredictOne(a.tree.tree, a.tree.tree[0], x).Some?
  {
    var t := TreeOf(data, a.conf, rng, subset);
    TreeOfShape(data, a.conf, rng, subset);
    PredictOneIsEval(a.tree.tree, 0, t, x);
    PredictOneIsEval(b.tree.tree, 0, t, x);
  }

  /**
   * The cached training prediction of a trained sample is what inference gives, exactly when the
   * sample was not dropped at an unknown value (or the stale value it kept happens to agree); a
   * sample without unknown values is never dropped.
   */
  lemma CachedPredictionIsInference(tree: DecisionTree, data: seq<Data>, rng: Shuffles, subset: seq<nat>,
                                    before: seq<real>, after: seq<real>, i: nat)
    requires ValidData(data, tree.conf.featureSize) && FairShuffles(rng, tree.conf.featureSize)
    requires Distinct(subset) && Below(subset, |data|) && i in subset
    requires tree.Holds(TreeOf(data, tree.conf, rng, subset))
    requires PredsTrained(before, after, data, subset, TreeOf(data, tree.conf, rng, subset))
    ensures i < |data| && tree.tree.tree != [] && tree.tree.tree[0].index == 0
    ensures var inferred := PredictOne(tree.tree.tree, tree.tree.tree[0], data[i].feature);
            && inferred.Some?
            && (after[i] == inferred.value <==>
                  !Dropped(TreeOf(data, tree.conf, rng, subset), data[i].feature) || before[i] == inferred.value)
            && ((forall f :: 0 <= f < |data[i].feature| ==> data[i].feature[f] != UNKNOWN) ==> after[i] == inferred.value)
  {
    var t, x := TreeOf(data, tree.conf, rng, subset), data[i].feature;
    TreeOfShape(data, tree.conf, rng, subset);
    PredictOneIsEval(tree.tree.tree, 0, t, x);
    if forall f :: 0 <= f < |x| ==> x[f] != UNKNOWN {
      KnownNeverDropped(t, x);
    }
  }
}
