# Verified models of gbdt-rs, image, getrandom and casbin-rs

This project models four parts of the vendored crates in Dafny and proves what they are for.

* **gbdt-rs, training and inference.** Regression trees grown in place inside a vector of linked
  nodes, from presorted columns kept at one of three cache levels; the one-pass split search; the
  boosting loop with its running predictions; import of xgboost dumps; AUC and RMSE.
* **image.** The Farey search for the closest fraction with a bounded denominator and the animation
  delays built on it; copying a rectangle within an image.
* **getrandom.** Double-checked locking around the random device and the lock-free lazy cell, as
  atomic steps of any number of threads.
* **casbin-rs.** The worklist that collects implicit roles, and the loop that drives the effect
  stream with its early exit.

How the files fit together: `Seqs`, `Orderings`, `SplitSearch`, `TreeSpec` and `FittedTree` say what
the trained tree is, as a function of the samples, the shuffles and the sort alone (`FittedTree.Grow`).
`TrainingCache` and `DecisionTree` are the imperative trainer and are proved to build exactly that tree.
`TrainedTree` says once more what the trained tree is, from features, targets and weights alone and
sharing nothing with the trainer, and proves that `Grow` is that tree and that there is no other.
`Descent` proves what the tree does to the error, `GradientBoost` puts both together over the whole
boosting run, and `Convergence` reads a run off its samples. `LeafSize` and `DroppedSamples` settle two
promises of the trainer that do not always hold.
`BestFraction` holds the theory behind `Animation`; the other files stand alone.

Modelling conventions:

* gbdt-rs numbers are exact reals. The value that marks a missing feature is the least finite f32, so
  no feature lies below it. `f64::MAX` as "no impurity yet" is `None`.
* Shuffles are arbitrary permutations handed in from outside: one of the samples per iteration, and
  one of the features per node, indexed by the path of the node.
* Rust's unstable column sort is a parameter: any deterministic sort by value, in whatever way it orders
  equal values. The stable sorts of AUC and of the label median are a stable insertion sort.
* exp, and the log-odds of the label average, are parameters: any positive function and any function.
* u32 and u64 in the Farey search are newtypes, so every product, sum and difference there is proved
  to fit, in any build. The three places where the original can overflow are modelled as follows.
  `nom * 2` wraps, as in a build without overflow checks (with them it panics). `a + b * millis` gives
  `None` and `sx + width - 1` gives `Underflow` in either build: with overflow checks the original panics
  there, without them it goes on with the wrapped number, which the model does not follow.
* Panics of the original are results (`None`, `Panics`, `Underflow`, `ok == false`), except for what a
  function demands of its arguments before it does anything: those assertions are preconditions. The
  check of the feature counts at the start of boosting panics too; there it is part of the result.
* Thread models use sequentially consistent atomic steps and a correct mutex.

## Where the code and its documentation differ

* A delay made from a duration of 4294967295 ms or more is documented to be clamped. If the part beyond
  the last whole millisecond is above half a millisecond, `a + b * millis` does not fit into a u32
  (`Animation.FromSaturatingDuration` says exactly when).
* `nom * 2` in the Farey search is computed in u32. For large `nom` it wraps and the search never
  reconsiders 1/1. `Animation.ClosestBoundedFraction` gives the exact condition under which the result
  is still best; `Animation.WrapMissesOne` is the failing family for bound 1. The one caller passes
  values far below that.
* A lazy cell is documented to return the cached value after `init` has succeeded. That holds in all
  executions exactly if there is at most one caller or `init` has at most one possible outcome
  (`LazyInit.CachedValueLasts`): otherwise a second run that started before the first one finished
  overwrites its value, or empties the cell (`LazyInit.Overwrites`, `LazyInit.EmptiedByFailure`).
* A sample that meets an unknown value while a tree is trained keeps the cached prediction it had before,
  on the first tree the unknown marker itself (`DroppedSamples.FirstTreeAddsMarker`);
  `DecisionTrees.CachedPredictionIsInference` is the exact condition.
* `min_leaf_size` is documented as the least number of samples at a leaf. The code only refuses to split
  nodes that are already that small. The promise holds for all training sets exactly if the size is at
  most 1 or the settings allow no split (`LeafSize.LeafSizeKept`; `LeafSize.StaircaseBreaks` is a
  training set with a leaf of one sample for every other setting).
* The weighted label median, where boosting with the LAD loss starts, is documented to panic only on a
  length beyond the data. It also panics if the sample with the lowest label outweighs all others
  (`GradientBoost.LabelMedianPanics`), so on every single sample of positive weight
  (`GradientBoost.SingleSamplePanics`), and it does not average at the second position.
* Copying a rectangle of width 0 at column 0 with a positive height computes `0 - 1` in u32
  (`ImageBuffers.ImageBuffer.CopyWithin`).
* AUC with equal scores counts a pair by the input order of the two samples: it counts the ties listed
  positive first (`Fitness.DistinctScores`, `Fitness.TiesFollowTheInput`).
* AUC takes a label within 0.00001 of 1.0 for positive but counts classes exactly, so two classes can
  still leave one side empty and give not-a-number (`Fitness.Auc`).

## Model

| member | source | states |
|---|---|---|
| `Values.UnknownIsLeastFinite` | gbdt-rs/src/decision_tree.rs:113-121 | the unknown marker is the least finite f32, written out |
| `Seqs.SumPermuted` | gbdt-rs/src/decision_tree.rs:1614-1627 | sums taken over the node's own sample order and over its sorted order are equal |
| `Orderings.SortIsOrdering` | gbdt-rs/src/fitness.rs:370-370 | the stable sort lists every sample once, ascending by value |
| `Orderings.NodeOrderProperties` | gbdt-rs/src/decision_tree.rs:548-556 | filtering a column by a node's boolean vector lists exactly the node's samples, each once, still sorted |
| `Orderings.FilterTwice` | gbdt-rs/src/decision_tree.rs:738-757 | splitting an already split column for a child equals filtering the root column for that child |
| `SplitSearch.SweepStep` | gbdt-rs/src/decision_tree.rs:1631-1652 | moving one sample from the right sums to the left keeps both equal to sums taken from scratch |
| `SplitSearch.BestCutIsFirstCheapest` | gbdt-rs/src/decision_tree.rs:1654-1676 | the running minimum finds a cut iff one exists, and then the first of the cheapest |
| `SplitSearch.FirstSmallestIsMinimum` | gbdt-rs/src/decision_tree.rs:1500-1519 | the loop over features keeps the first with the smallest impurity; a feature without a cut never wins |
| `SplitSearch.CutPartitions` | gbdt-rs/src/decision_tree.rs:1521-1535 | left, right and unknown partition the samples, left and right are non-empty, the threshold lies strictly between them |
| `SplitSearch.PartitionMembers` | gbdt-rs/src/decision_tree.rs:1523-1535 | every sample goes to exactly one of left, right and unknown |
| `SplitSearch.CauchySchwarz` | gbdt-rs/src/decision_tree.rs:1661-1669 | with non-negative weights the squared weighted sum is at most the weight sum times the weighted square sum |
| `SplitSearch.ClampNeverFires` | gbdt-rs/src/decision_tree.rs:1608-1612 | with non-negative weights no cost is below zero, so the clamps change nothing |
| `TreeSpec.ProblemIsValid` | gbdt-rs/src/decision_tree.rs:434-454 | the values, columns and residual order prepared for an iteration are those of its data |
| `TrainedTree.CostIsDeviation` | gbdt-rs/src/decision_tree.rs:1608-1669 | the cost from running sums is the weighted squared deviation of the targets from their weighted mean where the weights exceed 1, and 0 elsewhere |
| `TrainedTree.SplitIsBestCut` | gbdt-rs/src/decision_tree.rs:1469-1554 | a node is not split iff no candidate feature has a cut; otherwise at the cut whose unknown, lower and upper parts deviate least from their own weighted means, the first of them by candidate and value, half way between its two neighbours |
| `TreeSpec.SplitPartitions` | gbdt-rs/src/decision_tree.rs:1521-1554 | a split that was found really splits: two non-empty known parts separated by the threshold |
| `FittedTree.GrowShape` | gbdt-rs/src/decision_tree.rs:1170-1239 | a grown tree asks only for existing features and never exceeds max_depth |
| `FittedTree.EvalTotal` | gbdt-rs/src/decision_tree.rs:1412-1455 | inference reaches a value for every sample with enough features, so no expect fires |
| `FittedTree.TreeOfShape` | gbdt-rs/src/decision_tree.rs:1084-1099 | a trained tree predicts every sample of the right size and respects max_depth |
| `FittedTree.KnownNeverDropped` | gbdt-rs/src/decision_tree.rs:1227-1238 | training never loses sight of a sample without unknown values |
| `FittedTree.PredsJoin` | gbdt-rs/src/decision_tree.rs:1227-1238 | the cache updates of the two children together are the update of their parent, and unknown samples keep what they had |
| `BinaryTrees.AddedIsWellLinked` | gbdt-rs/src/binary_tree.rs:232-253 | adding a node keeps all links pointing forward iff its parent is not the position it takes itself |
| `BinaryTrees.BinaryTree.AddNode` | gbdt-rs/src/binary_tree.rs:232-253 | pushes the node with its position and links it from its parent, unless the tree was empty |
| `StoredTree.StoresFrame` | gbdt-rs/src/decision_tree.rs:1229-1237 | growing later subtrees of the same vector leaves an earlier subtree as it was |
| `StoredTree.PredictOneIsEval` | gbdt-rs/src/decision_tree.rs:1412-1455 | following links through the vector predicts what the tree stored there predicts, panics included |
| `TrainingCaches.SortAgrees` | gbdt-rs/src/decision_tree.rs:522-557 | whichever column a cache level kept, sorting gives the root ordering filtered to the node, equal-length shortcut included |
| `TrainingCaches.ShortcutNeedsAll` | gbdt-rs/src/decision_tree.rs:522-557 | with repeated samples at the root the equal-length shortcut still filters exactly if it is not taken or every sample is listed |
| `TrainingCaches.ChildOrder` | gbdt-rs/src/decision_tree.rs:691-797 | dealing out a kept column gives the root ordering filtered to the child |
| `TrainingCaches.SplitOrder` | gbdt-rs/src/decision_tree.rs:742-751 | one pass deals a column to left and right; a sample claimed by both goes left |
| `TrainingCaches.BoolVec` | gbdt-rs/src/decision_tree.rs:241-246 | the boolean vector is true exactly at the listed samples |
| `TrainingCaches.TrainingCache.GetCache` | gbdt-rs/src/decision_tree.rs:330-370 | columns are computed at levels 0 and 2 only; levels from 3 on are level 2 |
| `TrainingCaches.TrainingCache.CacheFeatures` | gbdt-rs/src/decision_tree.rs:461-487 | collects all columns and sorts each, with any sort that lists a column once by ascending value |
| `TrainingCaches.TrainingCache.InitOneIteration` | gbdt-rs/src/decision_tree.rs:434-454 | afterwards the cache holds what this iteration's targets and residuals require, at any level |
| `TrainingCaches.TrainingCache.SortWithBoolVec` | gbdt-rs/src/decision_tree.rs:522-557 | at every level returns the root ordering filtered to the node's samples |
| `TrainingCaches.TrainingCache.GetSubCache` | gbdt-rs/src/decision_tree.rs:618-671 | the root's columns serve the root, at every level |
| `TrainingCaches.TrainingCache.SplitCache` | gbdt-rs/src/decision_tree.rs:691-797 | columns that serve a node are turned into columns that serve its two children |
| `DecisionTrees.Average` | gbdt-rs/src/decision_tree.rs:822-836 | the weighted mean of the targets, 0 when the weights vanish |
| `DecisionTrees.WeightedMedian` | gbdt-rs/src/decision_tree.rs:858-882 | the loop with its break computes the weighted median of the specification, 0 when the running weight never passes half |
| `TreeSpec.MedianPassesHalf` | gbdt-rs/src/decision_tree.rs:867-881 | the median is the value at the first sample whose running weight passes half of all, averaged with its predecessor when there is one |
| `DecisionTrees.CalculatePred` | gbdt-rs/src/decision_tree.rs:806-818 | the leaf value of the loss, independent of the cache level |
| `DecisionTrees.Sweep` | gbdt-rs/src/decision_tree.rs:1586-1679 | the linear sweep returns cost and midpoint of the first cheapest cut; `TrainedTree.CutCostIsDeviation` says what that cost is |
| `TrainedTree.CutCostIsDeviation` | gbdt-rs/src/decision_tree.rs:1638-1677 | the cost of a cut is the deviation of its three parts, each from its own mean |
| `DecisionTrees.GetImpurity` | gbdt-rs/src/decision_tree.rs:1566-1680 | the same for one feature of a node, whichever cache level supplied the order |
| `DecisionTrees.Partition` | gbdt-rs/src/decision_tree.rs:1523-1535 | comparing with the threshold reproduces the prefix and suffix that the sweep scored |
| `DecisionTrees.SplitData` | gbdt-rs/src/decision_tree.rs:1469-1554 | performs the split that `TrainedTree.SplitIsBestCut` describes; the emptiness count never rejects a split that was found |
| `DecisionTrees.DecisionTree.FitNode` | gbdt-rs/src/decision_tree.rs:1170-1239 | the subtree at the node is the level-independent tree `Grow`, every other earlier node is untouched, and the cached predictions are that subtree's |
| `TrainedTree.GrowIsTrained` | gbdt-rs/src/decision_tree.rs:1170-1239 | that tree, from the samples alone: a leaf exactly at max_depth, at min_leaf_size, where all targets are like the first, or where no candidate has a cut; else a branch at the best cut; node values by loss; the same again for both sides |
| `TrainedTree.TrainedIsUnique` | gbdt-rs/src/decision_tree.rs:1170-1239 | no other tree is described by that |
| `TrainedTree.SizesAreObeyed` | gbdt-rs/src/decision_tree.rs:1186-1188 | every branch gets more than min_leaf_size samples with differing targets, and a leaf above max_depth that gets such samples has no cut in any candidate |
| `DecisionTrees.DecisionTree.FitN` | gbdt-rs/src/decision_tree.rs:1084-1099 | a fresh tree holds exactly the tree of the subset, with as many nodes |
| `DecisionTrees.DecisionTree.Fit` | gbdt-rs/src/decision_tree.rs:1144-1160 | the same for all samples |
| `DecisionTrees.DecisionTree.PredictN` | gbdt-rs/src/decision_tree.rs:1313-1325 | predicts the listed samples, 0 elsewhere; panics iff there is no root or some listed sample cannot be predicted |
| `DecisionTrees.LevelsAgree` | gbdt-rs/src/decision_tree.rs:290-294 | trees fitted at any two cache levels with the same sort have the same size and predict every sample alike, however that sort orders ties |
| `DecisionTrees.CachedPredictionIsInference` | gbdt-rs/src/decision_tree.rs:372-427 | a cached training prediction is the inferred one iff the sample was not dropped (or its stale value agrees), hence always without unknown values |
| `DroppedSamples.FirstSampleIsDropped` | gbdt-rs/src/decision_tree.rs:1227-1238 | a tree trained on one sample with an unknown value and two that the feature separates drops the first, whose inferred value is the mean |
| `DroppedSamples.FirstTreeAddsMarker` | gbdt-rs/src/gradient_boost.rs:325-329 | its cached prediction stays the unknown marker, and the running prediction steps by it |
| `LeafSize.GrowFills` | gbdt-rs/src/decision_tree.rs:1178-1239 | every leaf is reached by at least one of its samples |
| `LeafSize.StaircaseBreaks` | gbdt-rs/src/decision_tree.rs:1178-1239 | whenever a size above 1 is promised and a split is possible, a training set makes a leaf of a single sample |
| `LeafSize.LeafSizeKept` | gbdt-rs/src/decision_tree.rs:14-15 | every leaf of every tree trained on enough samples gets `min_leaf_size` of them iff that size is at most 1 or the settings allow no split |
| `Descent.MeanDescends` | gbdt-rs/src/decision_tree.rs:831-835 | stepping a leaf by shrinkage times its mean does not raise its error iff the shrinkage is in [0, 2] or the mean is 0 |
| `Descent.GrowDescends` | gbdt-rs/src/decision_tree.rs:1170-1239 | one whole tree does not raise the weighted squared error of its samples |
| `Descent.BoostingDescends` | gbdt-rs/src/gradient_boost.rs:310-334 | one boosting iteration on residuals does not raise the training error |
| `GradientBoost.SamplesPartition` | gbdt-rs/src/gradient_boost.rs:296-308 | every sample is in the subset or in the remainder, never in both |
| `GradientBoost.SubsetIsDrawn` | gbdt-rs/src/gradient_boost.rs:263-304 | the subset is the first share `data_sample_ratio` of the shuffle, rounded down, or everything |
| `GradientBoost.AscendingSorted` | gbdt-rs/src/gradient_boost.rs:301-304 | the drawn samples are handed on in strictly ascending order |
| `GradientBoost.ProcessTargets` | gbdt-rs/src/gradient_boost.rs:615-651 | touches target and residual only; residual plus prediction is the label, the LAD target is the sign of the residual, and the log-likelihood target times 1 + exp(2 y pred) is 2 y |
| `GradientBoost.RetargetAgain` | gbdt-rs/src/gradient_boost.rs:310-321 | overwriting the targets iteration after iteration gives the same training samples as one retargeting of the original ones |
| `GradientBoost.TracksStep` | gbdt-rs/src/gradient_boost.rs:322-334 | one more tree keeps the running predictions equal to inference, for every sample not lost |
| `GradientBoost.KnownNeverLost` | gbdt-rs/src/gradient_boost.rs:322-334 | without unknown features no sample is ever lost |
| `GradientBoost.DescendsStep` | gbdt-rs/src/gradient_boost.rs:310-334 | one more tree does not raise the training error of the ensemble |
| `GradientBoost.GBDT.BoostStep` | gbdt-rs/src/gradient_boost.rs:296-334 | trains the tree of the sampled subset on such targets and steps trained samples by cache, the others by inference |
| `GradientBoost.LabelMedianPanics` | gbdt-rs/src/fitness.rs:367-391 | the weighted label median panics iff the sample with the lowest label, the first of them on a tie, weighs more than all others together |
| `GradientBoost.SingleSamplePanics` | gbdt-rs/src/fitness.rs:382-382 | it panics on any single sample of positive weight |
| `GradientBoost.LabelMedianPassesHalf` | gbdt-rs/src/fitness.rs:379-389 | otherwise it is the label at which half of the weight is passed, averaged with the one before from the third position on |
| `GradientBoost.WeightedLabelMedian` | gbdt-rs/src/fitness.rs:367-391 | the loop with its break computes that median, panic included |
| `GradientBoost.GBDT.Init` | gbdt-rs/src/gradient_boost.rs:171-191 | the bias of each loss, left alone when samples bring initial guesses; panics iff a sample has the wrong number of features or the label median panics |
| `GradientBoost.GBDT.Fit` | gbdt-rs/src/gradient_boost.rs:251-347 | panics iff the initialisation does; otherwise the history of running and cached predictions starts from guesses or bias and advances tree by tree, each tree trained on what inference over the earlier ones leaves to be fitted; the samples end up with the last targets; running predictions stay those of inference, and under squared error the training error never rises |
| `Convergence.RunOfBoostedTrees` | gbdt-rs/src/gradient_boost.rs:292-334 | every tree of a run is the trained tree of `TrainedTree`, with the configured settings, on samples whose targets follow the loss and a subset drawn by the shuffle |
| `Convergence.AloneConverges` | gbdt-rs/src/gradient_boost.rs:310-334 | after every iteration under squared error or LAD, a trained sample alone in its leaf is abs(1 - shrinkage) times as far from its label as before |
| `Convergence.FirstPredictions` | gbdt-rs/src/gradient_boost.rs:367-372 | the run starts from the initial guess or the bias, by the setting |
| `Convergence.BiasIs` | gbdt-rs/src/gradient_boost.rs:171-191 | the bias is the weighted mean label, or its log-odds under log-likelihood |
| `GradientBoost.GBDT.PredictN` | gbdt-rs/src/gradient_boost.rs:359-383 | start value plus one shrunken step per tree for the first n samples; the unknown marker when there are no trees |
| `Fitness.RankingIs` | gbdt-rs/src/fitness.rs:164 | the stable descending sort lists each sample once, and i before j exactly if i scores higher or ties and comes first |
| `Fitness.PositivesAreOnes` | gbdt-rs/src/fitness.rs:172-176 | where every label is 1 or one clearly different value, the positives are the samples labelled 1 |
| `Fitness.PairsBeforeSize` | gbdt-rs/src/fitness.rs:166-177 | adding up, over the negatives, the positives ranked before them counts pairs |
| `Fitness.TrapezoidStep` | gbdt-rs/src/fitness.rs:191-199 | one trapezoid adds nothing for a positive and the positives so far for a negative |
| `Fitness.Auc` | gbdt-rs/src/fitness.rs:145-202 | area times P times N is the number of (positive, negative) pairs ranked in that order; when it panics and when it is not a number |
| `Fitness.DistinctScores` | gbdt-rs/src/fitness.rs:164-177 | the pairs counted are those whose positive scores strictly higher plus the ties listed positive first; without such a tie, and only then, they are the former |
| `Fitness.TiesFollowTheInput` | gbdt-rs/src/fitness.rs:164-164 | two samples with one score count as a pair in one input order and not in the other |
| `Fitness.Rmse` | gbdt-rs/src/fitness.rs:89-107 | the weighted mean of the squared errors, 0 when the weights vanish |
| `Fitness.RmseFollows` | gbdt-rs/src/fitness.rs:89-107 | a training error that does not rise means an RMSE that does not rise |
| `Xgboost.InnerNodeMeans` | gbdt-rs/src/decision_tree.rs:1770-1802 | an inner node means what the child means whose id is `missing` for an unknown feature, `yes` for one below the condition and `no` otherwise, read from the fields |
| `Xgboost.SplitIsWritten` | gbdt-rs/src/decision_tree.rs:1778-1788 | a split given as a number, or as three characters and decimal digits, names that feature |
| `Xgboost.ErrorsOfNode` | gbdt-rs/src/decision_tree.rs:1772-1811 | which error an inner node raises for which fields |
| `Xgboost.BuildMeansEval` | gbdt-rs/src/decision_tree.rs:1758-1842 | the imported tree predicts what direct evaluation of the JSON gives, for every sample, unknown values included |
| `Xgboost.BuildsIffWellFormed` | gbdt-rs/src/decision_tree.rs:1758-1842 | the import succeeds exactly on well-formed dumps |
| `Xgboost.AddNodeFromJson` | gbdt-rs/src/decision_tree.rs:1758-1842 | in place, the imported tree or the first error the builder meets |
| `Xgboost.GetFromXgboost` | gbdt-rs/src/decision_tree.rs:1749-1755 | succeeds iff the dump is well formed, else with the first error; then predicts over the vector what the fields of the dump say |
| `BestFraction.BestIsUnique` | image/src/animation.rs:175-179 | there is one best fraction: closest, then smallest denominator, then smallest numerator |
| `BestFraction.BestIsReduced` | image/src/animation.rs:175-179 | it is in lowest terms |
| `BestFraction.NothingBetween` | image/src/animation.rs:212-232 | a fraction strictly between two Farey neighbours has a denominator of at least their sum |
| `BestFraction.InvStep` | image/src/animation.rs:212-257 | every iteration keeps the neighbours adjacent around the target and the guess ahead of both |
| `BestFraction.ErrorBound` | image/src/animation.rs:220-223 | when the denominators are exhausted the guess is off by at most 1 / (2 * bound) |
| `BestFraction.InvDone` | image/src/animation.rs:214-223 | on exit the guess is best, iff the doubling did not wrap or 1/1 is not ahead of it |
| `Animation.IsCloser` | image/src/animation.rs:243-253 | comparing quotients and then remainders decides which fraction is closer, within u64 |
| `Animation.CompareFraction` | image/src/animation.rs:190-192 | orders two fractions by cross products that fit into u64 |
| `Animation.AbsDiffNom` | image/src/animation.rs:195-202 | the numerator of the distance, without overflow |
| `Animation.ClosestBoundedFraction` | image/src/animation.rs:179-260 | terminates without overflow; the result is the best bounded fraction and within 1 / (2 * bound), iff the doubling did not lose 1/1 |
| `Animation.WrapMissesOne` | image/src/animation.rs:210-210 | with bound 1 every wrapped doubling returns 0/1 although 1/1 is best |
| `Animation.NumeratorFits` | image/src/animation.rs:134-157 | a + b * millis fits into a u32 iff the milliseconds are not saturated or the rest is at most 500000 ns |
| `Animation.MaxDenomIsLargest` | image/src/animation.rs:138-152 | the denominator bound is the largest for which every fraction below 1 fits behind the milliseconds |
| `Animation.FromSaturatingDuration` | image/src/animation.rs:134-157 | gives whole milliseconds plus the best fraction, 4294967295/1 when saturated, and overflows on exactly the named durations |
| `Animation.BackIs` | image/src/animation.rs:263-271 | converting back is exact iff the fraction gives the nanoseconds exactly |
| `Animation.RoundTripOfFraction` | image/src/animation.rs:134-157 | nothing is lost if the nanoseconds are a fraction of a millisecond with a fitting denominator |
| `Animation.RoundTrip` | image/src/animation.rs:263-271 | exact up to 4293 ms with any nanoseconds and for all whole milliseconds; beyond 4293 ms the last nanosecond before the next millisecond is lost |
| `ImageBuffers.PixelsInBounds` | image/src/buffer.rs:729-760 | in a buffer that fits its image no pixel index overflows and every pixel lies inside |
| `ImageBuffers.FromRaw` | image/src/buffer.rs:631-642 | an image is made iff channels times width times height is representable and within the buffer |
| `ImageBuffers.SliceCopyWithin` | image/src/buffer.rs:1125-1137 | copies a range as if through a temporary |
| `ImageBuffers.RowStep` | image/src/buffer.rs:1094-1112 | copying one more row in the chosen order reads only unmodified source samples and disturbs no finished row |
| `ImageBuffers.RowsMakeRect` | image/src/buffer.rs:1094-1112 | moving all rows is moving all pixels and nothing else |
| `ImageBuffers.ImageBuffer.CopyWithin` | image/src/buffer.rs:1084-1114 | refuses iff the rectangle does not fit at both places; otherwise every destination pixel gets the old source pixel and the rest is unchanged, for any overlap and channel count |
| `UseFile.StepInv` | getrandom/src/use_file.rs:49-83 | every step of every thread keeps lock, descriptor and open files consistent |
| `UseFile.OpenedOnce` | getrandom/src/use_file.rs:46-83 | in every execution the file is opened successfully at most once and all successful calls return the same descriptor, which is still open |
| `UseFile.FdStays` | getrandom/src/use_file.rs:77-80 | once published the descriptor never changes |
| `UseFile.FdStep` | getrandom/src/use_file.rs:77-80 | only the store after a successful open publishes a descriptor, and a published one stays |
| `UseFile.OpenAfterWait` | getrandom/src/use_file.rs:73-77 | in every execution an open of the file follows, in the same call, an open of /dev/random and a poll that found it ready |
| `UseFile.PublishedAfterWait` | getrandom/src/use_file.rs:73-80 | a published descriptor means that some thread saw /dev/random ready |
| `UseFile.FailureEndsCall` | getrandom/src/use_file.rs:75-77 | after a failed open or poll the call only closes and unlocks, never opens the file, and ends with that error |
| `UseFile.AnswersAccepted` | getrandom/src/use_file.rs:53-111 | every answer of the system is provided for, and a published descriptor is returned without the lock |
| `UseFile.MutualExclusion` | getrandom/src/use_file.rs:63-67 | at most one thread is between lock and unlock, and a finished call holds nothing |
| `UseFile.NothingLeaks` | getrandom/src/use_file.rs:63-112 | with no call under way the mutex is free and only the published descriptor is open, whatever failed before |
| `UseFile.NoDeadlock` | getrandom/src/use_file.rs:64-83 | while a call is under way some thread can move on |
| `UseFile.StepsRunOut` | getrandom/src/use_file.rs:49-112 | apart from poll retries every call has a bounded number of steps |
| `LazyInit.CallersGetResults` | getrandom/src/util.rs:43-54 | every returned value comes from a completed run; if successful runs agree, callers get that value or their own failure |
| `LazyInit.CachedValueLasts` | getrandom/src/util.rs:15-18 | in all executions a cached value lasts iff there is at most one caller or `init` has at most one possible outcome |
| `LazyInit.Overwrites` | getrandom/src/util.rs:46-54 | for any two or more callers and any two outcomes, an execution in which the second outcome replaces the first |
| `LazyInit.EmptiedByFailure` | getrandom/src/util.rs:18-21 | in all executions a filled cell stays filled iff there is at most one caller, or `init` never fails, or it always fails |
| `LazyInit.NeverEmptied` | getrandom/src/util.rs:46-54 | if init never fails a filled cell stays filled |
| `LazyInit.LazyBoolCallers` | getrandom/src/util.rs:57-68 | a lazy bool returns the result of some run and is never emptied |
| `RoleClosure.ClosedContains` | casbin-rs/src/rbac_api.rs:323-332 | a set closed under the role relation contains everything reachable |
| `RoleClosure.SwapRemoveFirst` | casbin-rs/src/rbac_api.rs:324 | taking the front by swapping in the last element loses no other element |
| `RoleClosure.GetImplicitRolesForUser` | casbin-rs/src/rbac_api.rs:316-334 | terminates with exactly the roles reachable over one or more edges, each once, each queued at most once |
| `Effector.FoldIs` | casbin-rs/src/effector.rs:77-125 | while nothing decided before the last effect, the stream holds the meaning of what it saw and is done iff the last effect decides or was the last expected |
| `Effector.ExplainedAre` | casbin-rs/src/effector.rs:77-115 | the explanation lists exactly the policies whose effect moved the result, in order |
| `Effector.DecidedEarly` | casbin-rs/src/effector.rs:77-125 | effects behind a deciding one do not change the meaning of the expression |
| `Effector.DefaultEffectStream.PushEffect` | casbin-rs/src/effector.rs:77-125 | takes one effect into done, result, index and explanation |
| `Effector.NewStream` | casbin-rs/src/effector.rs:36-57 | panics iff the expression is not one of the four supported ones |
| `Enforcer.StepOfPolicy` | casbin-rs/src/enforcer.rs:155-182 | the effect of a policy from its fields: its first `p_eft` value if it matches, allow without such a field, nothing if it does not match; and both errors |
| `Enforcer.OneDenyRefuses` | casbin-rs/src/enforcer.rs:169-186 | one matching policy that denies refuses the request wherever a deny counts |
| `Enforcer.Settled` | casbin-rs/src/enforcer.rs:152-187 | where the loop stops no error lies before, and the result holds for every completion of the policies behind |
| `Enforcer.EnforceLoop` | casbin-rs/src/enforcer.rs:152-199 | the stream is always done after the loop; decision, errors and explanation of a non-empty policy list |
| `Enforcer.PrivateEnforce` | casbin-rs/src/enforcer.rs:96-199 | fails with exactly the first error before a deciding policy; a decision is the meaning of the effect expression over all policies, early exit included |

## Left out

- f32 and f64 rounding, infinities and not-a-number inputs in gbdt-rs: exact reals stand in for them.
- `DecisionTrees.DecisionTree.FitN`: requires an empty tree, because `add_root` would hang a new root below the old one, and distinct samples, as `DecisionTrees.DecisionTree.FitNode` does.
- `DecisionTrees.DecisionTree.Fit`: requires an empty tree, for the same reason.
- `DecisionTrees.DecisionTree.FitNode`: requires the samples of a node to be distinct, as the boosting loop provides. With repeated samples the node sums count a sample twice that its sorted column lists once, and the equal-length shortcut can fail (`TrainingCaches.ShortcutNeedsAll`).
- `GradientBoost.GBDT.Fit`: exp and the log-odds of the label average come in as parameters, because no property proved here depends on more of them than a sign.
- `Descent.GrowDescends`: says nothing about samples that a tree drops at an unknown value; their running predictions step by the value the cache held before.
- Setters of `DecisionTree` and `Config`: the settings are given when the object is made.
- Optimality of the LAD leaf and of the weighted label median: the code averages the crossing sample with its predecessor, which is not a minimiser in general. The weighted residual median of fitness.rs.
- The unused `len` argument of AUC and RMSE, MAE, logistic and softmax outputs, multi-class prediction, saving, loading, printing, profiling.
- Parsing JSON text: dumps are values of a JSON datatype.
- `Animation.ClosestBoundedFraction`: follows a build in which `nom * 2` wraps; with overflow checks the original panics on exactly those inputs (`Wraps`).
- `Animation.FromSaturatingDuration`: an overflowing numerator is `None`; the delay that a build without overflow checks makes of the wrapped number is not modelled.
- `ImageBuffers.ImageBuffer.CopyWithin`: `sx + width - 1` below zero is `Underflow`; what a build without overflow checks copies then is not modelled.
- Index widths in image: pixel indices are unbounded integers, shown to fit into 64 bits by `ImageBuffers.PixelsInBounds`.
- Frames, colour conversion, blending, codecs and the generic, pixel by pixel `copy_within` of other image types.
- Weak memory orders and failing mutex calls in getrandom; targets that do not wait for /dev/random; reading the device.
- rhai evaluation, adapters, models, role manager internals and caching in casbin-rs: the matcher is a function of the policy values and the role manager a fixed map.
- Effect expressions are the four supported forms rather than strings; the explain feature is on.
