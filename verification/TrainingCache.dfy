/** decision_tree.rs: `TrainingCache` and `SubCache`, the three ways of keeping sorted columns. */
module TrainingCaches {
  import opened Seqs
  import opened Values
  import opened Orderings
  import opened SplitSearch
  import opened TreeSpec

  /** The columns handed down to one node. `lazy`: not computed yet, read the root's columns. */
  datatype SubCache = SubCache(
    orderedFeatures: seq<seq<Entry>>,
    orderedResidual: seq<Entry>,
    lazy: bool)

  const EMPTY_SUB_CACHE: SubCache := SubCache([], [], false)

  /** `w` is the root ordering, or already the part of it that belongs to `samples`. */
  ghost predicate Restricts(w: seq<Entry>, ord: seq<Entry>, n: nat, samples: seq<nat>)
    requires IndicesBelow(ord, n)
  {
    w == ord || w == NodeOrder(ord, n, samples)
  }

  /** What a column looks like after `sort_with_bool_vec`, with its equal-length shortcut. */
  function Shortcut(w: seq<Entry>, toSort: seq<bool>, toSortSize: nat): seq<Entry>
    requires IndicesBelow(w, |toSort|)
  {
    if |w| == toSortSize then w else Filter(w, toSort)
  }

  /** Whatever the cache level kept, sorting a node's samples filters the root ordering. */
  lemma SortAgrees(w: seq<Entry>, ord: seq<Entry>, column: seq<real>, samples: seq<nat>)
    requires IsOrdering(ord, column) && IndicesBelow(ord, |column|)
    requires Distinct(samples) && Below(samples, |column|)
    requires Restricts(w, ord, |column|, samples)
    ensures IndicesBelow(w, |column|)
    ensures Shortcut(w, Mask(|column|, samples), |samples|) == NodeOrder(ord, |column|, samples)
  {
    hide IsOrdering;
    var mask := Mask(|column|, samples);
    NodeOrderProperties(ord, column, samples);
    FilterTwice(ord, mask, mask);
  }

  /**
   * Without the demand that the samples are distinct, sorting the root's samples filters the root
   * ordering exactly if the shortcut is not taken or every sample is listed.
   */
  lemma {:induction false} ShortcutNeedsAll(ord: seq<Entry>, column: seq<real>, samples: seq<nat>)
    requires IsOrdering(ord, column) && IndicesBelow(ord, |column|) && Below(samples, |column|)
    ensures Shortcut(ord, Mask(|column|, samples), |samples|) == NodeOrder(ord, |column|, samples) <==>
              |samples| != |column| || forall i: nat :: i < |column| ==> i in samples
  {
    hide IsOrdering, Filter, Distinct;
    OrderingIsPermutation(ord, column);
    var mask := Mask(|column|, samples);
    if |samples| == |column| {
      if forall i: nat :: i < |column| ==> i in samples {
        FilterAll(ord, mask);
      } else {
        var i: nat :| i < |column| && i !in samples;
        CountOfOrdering(ord, column, i);
        FilterCount(ord, mask, i);
      }
    }
  }

  lemma CountOfOrdering(ord: seq<Entry>, column: seq<real>, i: nat)
    requires IsOrdering(ord, column) && i < |column|
    ensures multiset(Indices(ord))[i] == 1
  {
  }

  lemma {:induction false} FilterAll(o: seq<Entry>, mask: seq<bool>)
    requires IndicesBelow(o, |mask|) && forall i :: 0 <= i < |mask| ==> mask[i]
    ensures Filter(o, mask) == o
  {
    if o != [] {
      FilterAll(o[..|o| - 1], mask);
    }
  }

  /** Restricting a node's columns to a child gives the child's part of the root ordering. */
  lemma ChildOrder(w: seq<Entry>, ord: seq<Entry>, n: nat, samples: seq<nat>, child: seq<nat>)
    requires IndicesBelow(ord, n) && Restricts(w, ord, n, samples)
    requires forall x :: x in child ==> x in samples
    ensures IndicesBelow(w, n)
    ensures Filter(w, Mask(n, child)) == NodeOrder(ord, n, child)
  {
    FilterTwice(ord, Mask(n, samples), Mask(n, child));
  }

  /** The columns in `sub` are good for the node holding `samples`. */
  ghost predicate Serves(sub: SubCache, level: nat, loss: Loss, p: Problem, samples: seq<nat>)
    requires p.Valid()
  {
    var n := |p.features|;
    && IndicesBelow(sub.orderedResidual, n)
    && (sub.lazy ==> level == 2)
    && (level != 0 && !sub.lazy ==>
          && |sub.orderedFeatures| == |p.orders|
          && (forall f :: 0 <= f < |p.orders| ==> Restricts(sub.orderedFeatures[f], p.orders[f], n, samples))
          && (loss.LAD? ==> Restricts(sub.orderedResidual, p.residualOrder, n, samples)))
  }

  /** `vec![false; n]` with the listed positions set. */
  method BoolVec(n: nat, samples: seq<nat>) returns (m: seq<bool>)
    requires Below(samples, n)
    ensures m == Mask(n, samples)
  {
    m := seq(n, _ => false);
    for k := 0 to |samples|
      invariant |m| == n
      invariant forall i :: 0 <= i < n ==> m[i] == (i in samples[..k])
    {
      assert samples[..k + 1] == samples[..k] + [samples[k]];
      m := m[samples[k] := true];
    }
    assert samples[..|samples|] == samples;
  }

  /** One column dealt out to two children; a sample claimed by both goes left. */
  method SplitOrder(o: seq<Entry>, leftBool: seq<bool>, rightBool: seq<bool>) returns (l: seq<Entry>, r: seq<Entry>)
    requires |leftBool| == |rightBool| && IndicesBelow(o, |leftBool|)
    ensures l == Filter(o, leftBool)
    ensures (forall i :: 0 <= i < |leftBool| ==> !(leftBool[i] && rightBool[i])) ==> r == Filter(o, rightBool)
  {
    l, r := [], [];
    for k := 0 to |o|
      invariant l == Filter(o[..k], leftBool)
      invariant (forall i :: 0 <= i < |leftBool| ==> !(leftBool[i] && rightBool[i])) ==> r == Filter(o[..k], rightBool)
    {
      FilterSnoc(o, k, leftBool);
      FilterSnoc(o, k, rightBool);
      if leftBool[o[k].index] {
        l := l + [o[k]];
        continue;
      }
      if rightBool[o[k].index] {
        r := r + [o[k]];
      }
    }
    assert o[..|o|] == o;
  }

  class TrainingCache {
    var orderedFeatures: seq<seq<Entry>>
    var orderedResidual: seq<Entry>
    var cacheValue: seq<CacheValue>
    var cacheTarget: seq<real>
    var logitC: seq<real>
    const sampleSize: nat
    const featureSize: nat
    var preds: seq<real>
    const cacheLevel: nat
    const sort: Sorter

    /** What `get_cache` computed once and every iteration relies on. */
    ghost predicate Prepared(features: seq<seq<Feature>>)
      reads this
    {
      && cacheLevel <= 2
      && |features| == sampleSize
      && (forall i :: 0 <= i < |features| ==> |features[i]| == featureSize)
      && |cacheValue| == |cacheTarget| == |logitC| == |preds| == sampleSize
      && (cacheLevel != 1 ==> orderedFeatures == FeatureOrders(features, featureSize, sort))
      && IndicesBelow(orderedResidual, sampleSize)
    }

    /** The cache holds exactly what one iteration on problem `p` needs. */
    ghost predicate Reflects(p: Problem, loss: Loss)
      reads this
    {
      && p.Valid()
      && |p.features| == sampleSize == |preds| && |p.orders| == featureSize
      && cacheLevel <= 2
      && (cacheLevel != 1 ==> orderedFeatures == p.orders)
      && IndicesBelow(orderedResidual, sampleSize)
      && (loss.LAD? ==> orderedResidual == p.residualOrder)
      && cacheValue == p.values && cacheTarget == p.target
      && (loss.LogLikelyhood? ==> logitC == p.logitC)
    }

    constructor GetCache(featureSize: nat, data: seq<Data>, cacheLevel: nat, sort: Sorter)
      requires ValidData(data, featureSize)
      ensures this.featureSize == featureSize && this.sort == sort && sampleSize == |data|
      ensures this.cacheLevel == if cacheLevel >= 3 then 2 else cacheLevel
      ensures Prepared(FeaturesOf(data))
      ensures preds == seq(|data|, _ => UNKNOWN)
      ensures |cacheValue| == |data| && forall i :: 0 <= i < |data| ==> cacheValue[i].c == data[i].weight
    {
      var level := if cacheLevel >= 3 then 2 else cacheLevel;
      var values := [];
      for i := 0 to |data|
        invariant |values| == i && forall k :: 0 <= k < i ==> values[k] == CacheValue(0.0, 0.0, data[k].weight)
      {
        values := values + [CacheValue(0.0, 0.0, data[i].weight)];
      }
      var ordered := [];
      if level == 0 || level == 2 {
        ordered := CacheFeatures(data, featureSize, sort);
      }
      this.cacheLevel := level;
      this.featureSize := featureSize;
      this.sort := sort;
      this.sampleSize := |data|;
      this.orderedFeatures := ordered;
      this.orderedResidual := [];
      this.cacheValue := values;
      this.cacheTarget := seq(|data|, _ => 0.0);
      this.logitC := seq(|data|, _ => 0.0);
      this.preds := seq(|data|, _ => UNKNOWN);
    }

    /** Collects the columns sample by sample, then sorts each of them. */
    static method CacheFeatures(wholeData: seq<Data>, featureSize: nat, sort: Sorter) returns (ordered: seq<seq<Entry>>)
      requires ValidData(wholeData, featureSize)
      ensures ordered == FeatureOrders(FeaturesOf(wholeData), featureSize, sort)
    {
      ghost var features := FeaturesOf(wholeData);
      ordered := seq(featureSize, _ => []);
      for i := 0 to |wholeData|
        invariant |ordered| == featureSize
        invariant forall f :: 0 <= f < featureSize ==> ordered[f] == Entries(Column(features, f))[..i]
      {
        ghost var before := ordered;
        for f := 0 to featureSize
          invariant |ordered| == featureSize
          invariant forall g :: 0 <= g < f ==> ordered[g] == Entries(Column(features, g))[..i + 1]
          invariant forall g :: f <= g < featureSize ==> ordered[g] == before[g]
        {
          ordered := ordered[f := ordered[f] + [Entry(i, wholeData[i].feature[f])]];
          ghost var all := Entries(Column(features, f));
          assert all[..i + 1] == all[..i] + [all[i]];
        }
      }
      assert forall f :: 0 <= f < featureSize ==> ordered[f] == Entries(Column(features, f));
      ordered := SortColumns(ordered, sort);
    }

    static method SortColumns(columns: seq<seq<Entry>>, sort: Sorter) returns (ordered: seq<seq<Entry>>)
      ensures |ordered| == |columns| && forall f :: 0 <= f < |columns| ==> ordered[f] == sort(columns[f])
    {
      ordered := columns;
      for f := 0 to |columns|
        invariant |ordered| == |columns|
        invariant forall g :: 0 <= g < f ==> ordered[g] == sort(columns[g])
        invariant forall g :: f <= g < |columns| ==> ordered[g] == columns[g]
      {
        ordered := ordered[f := sort(ordered[f])];
      }
    }

    static method CacheResidual(wholeData: seq<Data>, sort: Sorter) returns (ordered: seq<Entry>)
      ensures ordered == sort(Entries(ResidualsOf(wholeData)))
    {
      ordered := [];
      for i := 0 to |wholeData|
        invariant ordered == Entries(ResidualsOf(wholeData))[..i]
      {
        ordered := ordered + [Entry(i, wholeData[i].residual)];
      }
      assert ordered == Entries(ResidualsOf(wholeData));
      ordered := sort(ordered);
    }

    method CacheTargets(wholeData: seq<Data>, loss: Loss)
      requires |cacheValue| == |cacheTarget| == |logitC| == |wholeData|
      requires forall i :: 0 <= i < |wholeData| ==> cacheValue[i].c == wholeData[i].weight
      modifies this`cacheValue, this`cacheTarget, this`logitC
      ensures cacheTarget == TargetsOf(wholeData) && cacheValue == ValuesOf(wholeData)
      ensures if loss.LogLikelyhood? then logitC == LogitsOf(wholeData) else logitC == old(logitC)
    {
      hide LogitWeight;
      for i := 0 to |wholeData|
        invariant |cacheValue| == |cacheTarget| == |logitC| == |wholeData|
        invariant forall k :: i <= k < |wholeData| ==> cacheValue[k].c == wholeData[k].weight
        invariant forall k :: 0 <= k < i ==> cacheTarget[k] == wholeData[k].target
        invariant forall k :: 0 <= k < i ==> cacheValue[k] == ValueOf(wholeData[k].target, wholeData[k].weight)
        invariant loss.LogLikelyhood? ==>
                    forall k :: 0 <= k < i ==> logitC[k] == LogitWeight(wholeData[k].target, wholeData[k].weight)
        invariant !loss.LogLikelyhood? ==> logitC == old(logitC)
      {
        var target, weight := wholeData[i].target, wholeData[i].weight;
        cacheTarget := cacheTarget[i := target];
        var sums := ValueOf(target, weight);
        cacheValue := cacheValue[i := cacheValue[i].(s := sums.s, ss := sums.ss)];
        if loss.LogLikelyhood? {
          logitC := logitC[i := LogitWeight(target, weight)];
        }
      }
    }

    /** Brings the cache up to date with the targets and residuals of this iteration. */
    method InitOneIteration(wholeData: seq<Data>, loss: Loss)
      requires Prepared(FeaturesOf(wholeData)) && ValidData(wholeData, featureSize)
      requires forall i :: 0 <= i < sampleSize ==> cacheValue[i].c == wholeData[i].weight
      modifies this
      ensures Reflects(ProblemOf(wholeData, featureSize, sort), loss)
      ensures Prepared(FeaturesOf(wholeData))
      ensures cacheValue == ValuesOf(wholeData)
      ensures preds == old(preds)
    {
      hide IsOrdering, FeatureOrders;
      CacheTargets(wholeData, loss);
      ProblemIsValid(wholeData, featureSize, sort);
      if loss.LAD? {
        orderedResidual := CacheResidual(wholeData, sort);
      }
    }

    /** The samples selected by `toSort`, sorted by a feature or by residual. */
    method SortWithBoolVec(featureIndex: nat, isResidual: bool, toSort: seq<bool>, toSortSize: nat, sub: SubCache,
                           loss: Loss, ghost p: Problem, ghost samples: seq<nat>)
      returns (sorted: seq<Entry>)
      requires Reflects(p, loss) && Serves(sub, cacheLevel, loss, p, samples)
      requires Distinct(samples) && Below(samples, sampleSize)
      requires toSort == Mask(sampleSize, samples) && toSortSize == |samples|
      requires if isResidual then loss.LAD? else featureIndex < featureSize
      ensures isResidual ==> sorted == NodeOrder(p.residualOrder, sampleSize, samples)
      ensures !isResidual ==> sorted == p.Order(featureIndex, samples)
    {
      hide IsOrdering, Shortcut, Mask;
      var whole := if isResidual then
        if cacheLevel == 0 || sub.lazy then orderedResidual else sub.orderedResidual
      else if cacheLevel == 0 || sub.lazy then orderedFeatures[featureIndex]
      else sub.orderedFeatures[featureIndex];
      if isResidual {
        SortAgrees(whole, p.residualOrder, p.residual, samples);
      } else {
        SortAgrees(whole, p.orders[featureIndex], Column(p.features, featureIndex), samples);
      }
      sorted := FilterSorted(whole, toSort, toSortSize);
    }

    static method FilterSorted(whole: seq<Entry>, toSort: seq<bool>, toSortSize: nat) returns (sorted: seq<Entry>)
      requires IndicesBelow(whole, |toSort|)
      ensures sorted == Shortcut(whole, toSort, toSortSize)
    {
      if |whole| == toSortSize {
        return whole;
      }
      sorted := [];
      for k := 0 to |whole|
        invariant sorted == Filter(whole[..k], toSort)
      {
        FilterSnoc(whole, k, toSort);
        if toSort[whole[k].index] {
          sorted := sorted + [whole[k]];
        }
      }
      assert whole[..|whole|] == whole;
    }

    /** The columns for the root: nothing for level 0, freshly sorted for level 1, put off for level 2. */
    method GetSubCache(data: seq<Data>, loss: Loss, ghost samples: seq<nat>) returns (sub: SubCache)
      requires ValidData(data, featureSize) && Reflects(ProblemOf(data, featureSize, sort), loss)
      ensures Serves(sub, cacheLevel, loss, ProblemOf(data, featureSize, sort), samples)
    {
      if cacheLevel == 2 {
        return SubCache([], [], true);
      }
      if cacheLevel == 0 {
        return EMPTY_SUB_CACHE;
      }
      var features := CacheFeatures(data, featureSize, sort);
      var residual := [];
      if loss.LAD? {
        residual := CacheResidual(data, sort);
      }
      sub := SubCache(features, residual, false);
    }

    static method SplitColumns(whole: seq<seq<Entry>>, leftBool: seq<bool>, rightBool: seq<bool>,
                               ghost p: Problem, ghost samples: seq<nat>, ghost left: seq<nat>, ghost right: seq<nat>)
      returns (lf: seq<seq<Entry>>, rf: seq<seq<Entry>>)
      requires |whole| == |p.orders|
      requires var n := |p.features|; leftBool == Mask(n, left) && rightBool == Mask(n, right)
      requires forall f :: 0 <= f < |p.orders| ==>
                 IndicesBelow(p.orders[f], |p.features|) && Restricts(whole[f], p.orders[f], |p.features|, samples)
      requires forall x :: x in left ==> x in samples && x !in right
      requires forall x :: x in right ==> x in samples
      ensures |lf| == |rf| == |p.orders|
      ensures forall f :: 0 <= f < |lf| ==> lf[f] == p.Order(f, left) && rf[f] == p.Order(f, right)
    {
      hide Restricts;
      lf, rf := [], [];
      for f := 0 to |whole|
        invariant |lf| == |rf| == f
        invariant forall g :: 0 <= g < f ==> lf[g] == p.Order(g, left) && rf[g] == p.Order(g, right)
      {
        ChildOrder(whole[f], p.orders[f], |p.features|, samples, left);
        ChildOrder(whole[f], p.orders[f], |p.features|, samples, right);
        var a, b := SplitOrder(whole[f], leftBool, rightBool);
        lf, rf := lf + [a], rf + [b];
      }
    }

    /** Deals the node's columns out to its two children. */
    method SplitCache(sub: SubCache, left: seq<nat>, right: seq<nat>,
                      loss: Loss, ghost p: Problem, ghost samples: seq<nat>)
      returns (l: SubCache, r: SubCache)
      requires Reflects(p, loss) && Serves(sub, cacheLevel, loss, p, samples)
      requires Below(left, sampleSize) && Below(right, sampleSize)
      requires forall x :: x in left ==> x in samples && x !in right
      requires forall x :: x in right ==> x in samples
      ensures Serves(l, cacheLevel, loss, p, left)
      ensures Serves(r, cacheLevel, loss, p, right)
    {
      hide IsOrdering;
      if cacheLevel == 0 {
        return EMPTY_SUB_CACHE, EMPTY_SUB_CACHE;
      }
      var leftBool := BoolVec(sampleSize, left);
      var rightBool := BoolVec(sampleSize, right);
      var lf, rf := SplitColumns(if sub.lazy then orderedFeatures else sub.orderedFeatures, leftBool, rightBool,
                                 p, samples, left, right);
      var wholeResidual := if sub.lazy then orderedResidual else sub.orderedResidual;
      if loss.LAD? {
        ChildOrder(wholeResidual, p.residualOrder, sampleSize, samples, left);
        ChildOrder(wholeResidual, p.residualOrder, sampleSize, samples, right);
      }
      var lr, rr := SplitOrder(wholeResidual, leftBool, rightBool);
      l, r := SubCache(lf, lr, false), SubCache(rf, rr, false);
    }
  }
}
