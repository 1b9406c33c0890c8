/** fitness.rs: AUC as a count of ranked pairs, and RMSE, the quantity that boosting brings down. */
module Fitness {
  import opened Seqs
  import opened Values
  import opened Orderings
  import opened SplitSearch
  import opened TreeSpec
  import opened Descent
  import opened GradientBoost

  predicate Positive(l: real) {
    AlmostEqual(l, 1.0)
  }

  /** Where every label is 1 or one clearly different value, the positives are the samples labelled 1. */
  lemma {:induction false} PositivesAreOnes(labels: seq<real>, other: real)
    requires other <= 0.99999 || other >= 1.00001
    requires forall i :: 0 <= i < |labels| ==> labels[i] == 1.0 || labels[i] == other
    ensures forall i: nat :: i in PositiveSet(labels) <==> i < |labels| && labels[i] == 1.0
    ensures forall i: nat :: i in NegativeSet(labels) <==> i < |labels| && labels[i] == other
  {
  }

  /** Sample `i` comes before sample `j` in the descending, stable sort by score. */
  predicate Precedes(scores: seq<real>, i: nat, j: nat)
    requires i < |scores| && j < |scores|
  {
    scores[i] > scores[j] || (scores[i] == scores[j] && i < j)
  }

  /** The (positive, negative) pairs that the ranking gets right. */
  ghost function RankedPairs(labels: seq<real>, scores: seq<real>): set<(nat, nat)>
    requires |labels| == |scores|
  {
    set i: nat, j: nat | i < |labels| && j < |labels| && Positive(labels[i]) && !Positive(labels[j]) && Precedes(scores, i, j) :: (i, j)
  }

  ghost function PositiveSet(labels: seq<real>): set<nat> {
    set i: nat | i < |labels| && Positive(labels[i])
  }

  ghost function NegativeSet(labels: seq<real>): set<nat> {
    set i: nat | i < |labels| && !Positive(labels[i])
  }

  ghost function Classes(labels: seq<real>): set<real> {
    set l | l in labels
  }

  // ---- ranks -----------------------------------------------------------------------------------

  /** How many of the first `k` ranked samples are positive. */
  function Positives(labels: seq<real>, o: seq<nat>, k: nat): nat
    requires k <= |o| && Below(o, |labels|)
  {
    if k == 0 then 0 else Positives(labels, o, k - 1) + if Positive(labels[o[k - 1]]) then 1 else 0
  }

  /** For every negative among the first `k`, the positives ranked before it. */
  function RankSum(labels: seq<real>, o: seq<nat>, k: nat): nat
    requires k <= |o| && Below(o, |labels|)
  {
    if k == 0 then 0
    else RankSum(labels, o, k - 1) + if Positive(labels[o[k - 1]]) then 0 else Positives(labels, o, k - 1)
  }

  ghost predicate NoRepeats(o: seq<nat>) {
    forall p, q :: 0 <= p < q < |o| ==> o[p] != o[q]
  }

  ghost function PosBefore(labels: seq<real>, o: seq<nat>, k: nat): set<nat>
    requires k <= |o| && Below(o, |labels|)
  {
    set p | 0 <= p < k && Positive(labels[o[p]]) :: o[p]
  }

  lemma {:induction false} PosBeforeSize(labels: seq<real>, o: seq<nat>, k: nat)
    requires k <= |o| && Below(o, |labels|) && NoRepeats(o)
    ensures |PosBefore(labels, o, k)| == Positives(labels, o, k)
  {
    if k > 0 {
      PosBeforeSize(labels, o, k - 1);
      var e := o[k - 1];
      assert PosBefore(labels, o, k) == PosBefore(labels, o, k - 1) + if Positive(labels[e]) then {e} else {};
      assert e !in PosBefore(labels, o, k - 1);
    } else {
      assert PosBefore(labels, o, k) == {};
    }
  }

  ghost function PairsBefore(labels: seq<real>, o: seq<nat>, k: nat): set<(nat, nat)>
    requires k <= |o| && Below(o, |labels|)
  {
    set p, q | 0 <= p < q < k && Positive(labels[o[p]]) && !Positive(labels[o[q]]) :: (o[p], o[q])
  }

  ghost function With(s: set<nat>, j: nat): set<(nat, nat)> {
    set i | i in s :: (i, j)
  }

  lemma {:induction false} WithSize(s: set<nat>, j: nat)
    ensures |With(s, j)| == |s|
    decreases s
  {
    if s == {} {
      assert With(s, j) == {};
    } else {
      var i :| i in s;
      WithSize(s - {i}, j);
      assert With(s, j) == With(s - {i}, j) + {(i, j)};
    }
  }

  lemma NoPairs(labels: seq<real>, o: seq<nat>)
    requires Below(o, |labels|)
    ensures PairsBefore(labels, o, 0) == {}
  {
  }

  lemma {:induction false} PairsBeforeSize(labels: seq<real>, o: seq<nat>, k: nat)
    requires k <= |o| && Below(o, |labels|) && NoRepeats(o)
    ensures |PairsBefore(labels, o, k)| == RankSum(labels, o, k)
  {
    hide PairsBefore, PosBefore, NoRepeats, With, Positives;
    if k == 0 {
      NoPairs(labels, o);
    } else {
      var e := o[k - 1];
      PairsBeforeSize(labels, o, k - 1);
      PairsBeforeStep(labels, o, k - 1);
      PosBeforeSize(labels, o, k - 1);
      WithSize(PosBefore(labels, o, k - 1), e);
      if !Positive(labels[e]) {
        var a, w := PairsBefore(labels, o, k - 1), With(PosBefore(labels, o, k - 1), e);
        assert |a + w| == |a| + |w|;
      }
    }
  }

  lemma PairsBeforeStep(labels: seq<real>, o: seq<nat>, k: nat)
    requires k < |o| && Below(o, |labels|) && NoRepeats(o)
    ensures PairsBefore(labels, o, k + 1) ==
              PairsBefore(labels, o, k) + if Positive(labels[o[k]]) then {} else With(PosBefore(labels, o, k), o[k])
    ensures PairsBefore(labels, o, k) !! With(PosBefore(labels, o, k), o[k])
  {
  }

  // ---- the sort --------------------------------------------------------------------------------

  function Negated(scores: seq<real>): (r: seq<real>)
    ensures |r| == |scores| && forall i :: 0 <= i < |r| ==> r[i] == -scores[i]
  {
    seq(|scores|, i requires 0 <= i < |scores| => -scores[i])
  }

  /** The samples by descending score, equal scores in their original order. */
  function Ranking(scores: seq<real>): (o: seq<nat>)
    ensures |o| == |scores|
  {
    Indices(SortEntries(Entries(Negated(scores))))
  }

  /** The ranking lists every sample once, and lists `i` before `j` exactly if `i` precedes `j`. */
  lemma RankingIs(scores: seq<real>)
    ensures var o := Ranking(scores);
            && Below(o, |scores|) && NoRepeats(o)
            && (forall i: nat :: i < |scores| ==> i in o)
            && (forall p, q :: 0 <= p < q < |o| ==> Precedes(scores, o[p], o[q]))
  {
    var column := Negated(scores);
    var e := SortEntries(Entries(column));
    SortIsOrdering(column);
    SortIsStable(column);
    var o := Indices(e);
    assert forall k :: 0 <= k < |e| ==> o[k] < |scores| && scores[o[k]] == -e[k].value;
    forall i: nat | i < |scores|
      ensures i in o
    {
      CountZero(o, i);
    }
    forall p, q | 0 <= p < q < |o|
      ensures Precedes(scores, o[p], o[q])
    {
      assert e[p].value <= e[q].value;
    }
  }

  lemma RankOrder(scores: seq<real>, o: seq<nat>, p: nat, q: nat)
    requires Below(o, |scores|) && forall p, q :: 0 <= p < q < |o| ==> Precedes(scores, o[p], o[q])
    requires p < |o| && q < |o| && p != q && Precedes(scores, o[p], o[q])
    ensures p < q
  {
  }

  lemma PairsAreRanked(labels: seq<real>, scores: seq<real>)
    requires |labels| == |scores|
    ensures Below(Ranking(scores), |labels|)
    ensures PairsBefore(labels, Ranking(scores), |scores|) == RankedPairs(labels, scores)
    ensures PosBefore(labels, Ranking(scores), |scores|) == PositiveSet(labels)
  {
    hide Ranking;
    RankingIs(scores);
    var o := Ranking(scores);
    forall i: nat, j: nat | (i, j) in RankedPairs(labels, scores)
      ensures (i, j) in PairsBefore(labels, o, |scores|)
    {
      assert i in o && j in o;
      var p :| 0 <= p < |o| && o[p] == i;
      var q :| 0 <= q < |o| && o[q] == j;
      RankOrder(scores, o, p, q);
    }
    forall i: nat | i in PositiveSet(labels)
      ensures i in PosBefore(labels, o, |scores|)
    {
      assert i in o;
    }
  }

  // ---- ties ------------------------------------------------------------------------------------

  /** The (positive, negative) pairs in which the positive scores strictly higher. */
  ghost function HigherPairs(labels: seq<real>, scores: seq<real>): set<(nat, nat)>
    requires |labels| == |scores|
  {
    set i: nat, j: nat | i < |labels| && j < |labels| && Positive(labels[i]) && !Positive(labels[j]) && scores[i] > scores[j] :: (i, j)
  }

  /** The pairs of a positive sample listed before a negative one with the same score. */
  ghost function TiedPairs(labels: seq<real>, scores: seq<real>): set<(nat, nat)>
    requires |labels| == |scores|
  {
    set i: nat, j: nat | i < |labels| && j < |labels| && i < j && Positive(labels[i]) && !Positive(labels[j]) && scores[i] == scores[j] :: (i, j)
  }

  lemma RankedAreHigherOrTied(labels: seq<real>, scores: seq<real>)
    requires |labels| == |scores|
    ensures RankedPairs(labels, scores) == HigherPairs(labels, scores) + TiedPairs(labels, scores)
    ensures HigherPairs(labels, scores) !! TiedPairs(labels, scores)
  {
  }

  /**
   * AUC counts the pairs whose positive scores strictly higher and the ties listed positive first: it
   * is the documented count exactly if no positive sample is listed before a negative with its score.
   */
  lemma DistinctScores(labels: seq<real>, scores: seq<real>)
    requires |labels| == |scores|
    ensures |RankedPairs(labels, scores)| == |HigherPairs(labels, scores)| + |TiedPairs(labels, scores)|
    ensures RankedPairs(labels, scores) == HigherPairs(labels, scores) <==>
              forall i, j :: 0 <= i < j < |labels| && Positive(labels[i]) && !Positive(labels[j]) ==> scores[i] != scores[j]
  {
    RankedAreHigherOrTied(labels, scores);
    if i, j :| 0 <= i < j < |labels| && Positive(labels[i]) && !Positive(labels[j]) && scores[i] == scores[j] {
      assert (i, j) in TiedPairs(labels, scores);
    } else {
      assert TiedPairs(labels, scores) == {};
    }
  }

  /** Two samples with one score: the pair counts if the positive one is listed first, and only then. */
  lemma TiesFollowTheInput(pos: real, neg: real, score: real)
    requires Positive(pos) && !Positive(neg)
    ensures |RankedPairs([pos, neg], [score, score])| == 1
    ensures |RankedPairs([neg, pos], [score, score])| == 0
  {
    assert RankedPairs([pos, neg], [score, score]) == {(0, 1)};
    assert RankedPairs([neg, pos], [score, score]) == {};
  }

  // ---- the computation -------------------------------------------------------------------------

  /** Panics: not exactly two classes. NotANumber: no positive or no negative sample. */
  datatype AucResult = Panics | NotANumber | Area(value: real)

  method DistinctLabels(labels: seq<real>) returns (classes: seq<real>)
    ensures |classes| == |Classes(labels)|
  {
    classes := [];
    for i := 0 to |labels|
      invariant Classes(classes) == Classes(labels[..i])
      invariant |classes| == |Classes(classes)|
    {
      assert labels[..i + 1] == labels[..i] + [labels[i]];
      assert Classes(labels[..i + 1]) == Classes(labels[..i]) + {labels[i]};
      if labels[i] !in classes {
        assert Classes(classes + [labels[i]]) == Classes(classes) + {labels[i]};
        classes := classes + [labels[i]];
      }
    }
    assert labels[..|labels|] == labels;
  }

  lemma NoPositives(labels: seq<real>, o: seq<nat>)
    requires Below(o, |labels|)
    ensures Positives(labels, o, 0) == 0
  {
  }

  lemma CountStep(labels: seq<real>, o: seq<nat>, k: nat)
    requires k < |o| && Below(o, |labels|)
    ensures Positives(labels, o, k + 1) == Positives(labels, o, k) + if Positive(labels[o[k]]) then 1 else 0
  {
  }

  /** The running counts of positives and negatives along the ranking, one more than samples. */
  method CountAlong(labels: seq<real>, o: seq<nat>) returns (tps: seq<real>, fps: seq<real>)
    requires Below(o, |labels|)
    ensures |tps| == |fps| == |o| + 1
    ensures forall k :: 0 <= k <= |o| ==> tps[k] == Positives(labels, o, k) as real && fps[k] == k as real - tps[k]
  {
    hide Positive, Positives;
    var tp, fp := 0.0, 0.0;
    tps, fps := [], [];
    NoPositives(labels, o);
    for k := 0 to |o|
      invariant |tps| == |fps| == k
      invariant forall j :: 0 <= j < k ==> tps[j] == Positives(labels, o, j) as real && fps[j] == j as real - tps[j]
      invariant tp == Positives(labels, o, k) as real && fp == k as real - tp
    {
      CountStep(labels, o, k);
      tps, fps := tps + [tp], fps + [fp];
      if Positive(labels[o[k]]) {
        tp := tp + 1.0;
      } else {
        fp := fp + 1.0;
      }
    }
    tps, fps := tps + [tp], fps + [fp];
  }

  function AddTrapezoid(auc: real, prevX: real, x: real, prevY: real, y: real): real {
    auc + (x - prevX) * (prevY + y) / 2.0
  }

  function Rate(count: real, all: real): real
    requires all > 0.0
  {
    count / all
  }

  /** The area scaled up to a count: auc * P * N. */
  ghost function Scaled(auc: real, pos: real, neg: real): real {
    auc * (pos * neg)
  }

  /** What one trapezoid adds: nothing for a positive, the positives so far for a negative. */
  lemma TrapezoidStep(auc: real, f: real, f': real, t: real, t': real, pos: real, neg: real)
    requires pos > 0.0 && neg > 0.0
    requires (f' == f && t' == t + 1.0) || (f' == f + 1.0 && t' == t)
    ensures Scaled(AddTrapezoid(auc, Rate(f, neg), Rate(f', neg), Rate(t, pos), Rate(t', pos)), pos, neg)
              == Scaled(auc, pos, neg) + if f' == f then 0.0 else t
  {
    if f' == f {
      assert Rate(f', neg) - Rate(f, neg) == 0.0;
    } else {
      NegativeStep(auc, f, t, pos, neg, Scaled(auc, pos, neg));
    }
  }

  lemma NegativeStep(auc: real, f: real, t: real, pos: real, neg: real, sum: real)
    requires pos > 0.0 && neg > 0.0 && auc * (pos * neg) == sum
    ensures (auc + ((f + 1.0) / neg - f / neg) * (t / pos + t / pos) / 2.0) * (pos * neg) == sum + t
  {
    var a, b := 1.0 / neg, t / pos;
    assert (f + 1.0) / neg - f / neg == a;
    assert a * neg == 1.0 && b * pos == t;
    assert a * (b + b) / 2.0 == a * b;
    assert (a * b) * (pos * neg) == (a * neg) * (b * pos);
    assert (auc + a * b) * (pos * neg) == auc * (pos * neg) + (a * b) * (pos * neg);
  }

  /** The area under the curve by the trapezoid rule, from the running counts. */
  method Trapezoids(labels: seq<real>, o: seq<nat>, tps: seq<real>, fps: seq<real>, pos: real, neg: real) returns (auc: real)
    requires Below(o, |labels|) && |tps| == |fps| == |o| + 1 && pos > 0.0 && neg > 0.0
    requires forall k :: 0 <= k <= |o| ==> tps[k] == Positives(labels, o, k) as real && fps[k] == k as real - tps[k]
    ensures Scaled(auc, pos, neg) == RankSum(labels, o, |o|) as real
  {
    hide AddTrapezoid, Positive, Rate, Scaled;
    auc := 0.0;
    assert Scaled(auc, pos, neg) == 0.0 by { ScaledZero(pos, neg); }
    var prevX, prevY := Rate(fps[0], neg), Rate(tps[0], pos);
    for k := 0 to |o|
      invariant prevX == Rate(fps[k], neg) && prevY == Rate(tps[k], pos)
      invariant Scaled(auc, pos, neg) == RankSum(labels, o, k) as real
    {
      var x, y := Rate(fps[k + 1], neg), Rate(tps[k + 1], pos);
      TrapezoidStep(auc, fps[k], fps[k + 1], tps[k], tps[k + 1], pos, neg);
      auc := AddTrapezoid(auc, prevX, x, prevY, y);
      prevX, prevY := x, y;
    }
  }

  lemma ScaledZero(pos: real, neg: real)
    ensures Scaled(0.0, pos, neg) == 0.0
  {
  }

  /** The area times P * N is the number of (positive, negative) pairs ranked in that order. */
  method Auc(labels: seq<real>, predict: seq<real>) returns (r: AucResult)
    requires |labels| == |predict|
    ensures r.Panics? <==> |Classes(labels)| != 2
    ensures r.NotANumber? <==> |Classes(labels)| == 2 && (PositiveSet(labels) == {} || NegativeSet(labels) == {})
    ensures r.Area? ==>
              Scaled(r.value, |PositiveSet(labels)| as real, |NegativeSet(labels)| as real) == |RankedPairs(labels, predict)| as real
  {
    hide Classes, Ranking, RankedPairs, PositiveSet, NegativeSet, PosBefore, PairsBefore, NoRepeats, Positives, RankSum, Precedes;
    var classes := DistinctLabels(labels);
    if |classes| != 2 {
      return Panics;
    }
    var o := Ranking(predict);
    RankingIs(predict);
    PairsAreRanked(labels, predict);
    PosBeforeSize(labels, o, |o|);
    PairsBeforeSize(labels, o, |o|);
    SplitsInTwo(labels);
    var tps, fps := CountAlong(labels, o);
    var pos, neg := tps[|o|], fps[|o|];
    if pos == 0.0 || neg == 0.0 {
      return NotANumber;
    }
    var auc := Trapezoids(labels, o, tps, fps, pos, neg);
    r := Area(auc);
  }

  lemma SplitsInTwo(labels: seq<real>)
    ensures |PositiveSet(labels)| + |NegativeSet(labels)| == |labels|
  {
    RangeSize(|labels|);
    forall i: nat | i < |labels|
      ensures i in Range(|labels|)
    {
      assert Range(|labels|)[i] == i;
    }
    assert PositiveSet(labels) + NegativeSet(labels) == Members(Range(|labels|));
  }

  lemma {:induction false} RangeSize(n: nat)
    ensures |Members(Range(n))| == n
  {
    if n > 0 {
      var m: nat := n - 1;
      RangeSize(m);
      assert Range(n) == Range(m) + [m];
      assert m !in Range(m);
      assert Members(Range(n)) == Members(Range(m)) + {m};
    } else {
      assert Members(Range(n)) == {};
    }
  }

  // ---- RMSE ------------------------------------------------------------------------------------

  /** The weighted mean squared error, which the original calls RMSE. */
  method Rmse(data: seq<Data>, predict: seq<real>) returns (r: real)
    requires |data| == |predict|
    ensures r == Ratio(TrainingError(data, predict), Sum(Range(|data|), Weights(data)))
  {
    var s, c := 0.0, 0.0;
    ghost var all := Range(|data|);
    for i := 0 to |data|
      invariant s == Sum(all[..i], SquaredErrors(data, predict)) && c == Sum(all[..i], Weights(data))
    {
      SumSnoc(all, i, SquaredErrors(data, predict));
      SumSnoc(all, i, Weights(data));
      s := s + ErrorOf(data[i].sampleLabel, data[i].weight, predict[i]);
      c := c + data[i].weight;
    }
    assert all[..|data|] == all;
    r := if Abs(c) < 0.0000000001 then 0.0 else s / c;
  }

  /** With non-negative weights a lower training error is a lower RMSE. */
  lemma RmseFollows(data: seq<Data>, a: seq<real>, b: seq<real>)
    requires |a| == |b| == |data| && forall j :: 0 <= j < |data| ==> data[j].weight >= 0.0
    requires TrainingError(data, a) <= TrainingError(data, b)
    ensures var c := Sum(Range(|data|), Weights(data));
            Ratio(TrainingError(data, a), c) <= Ratio(TrainingError(data, b), c)
  {
    SumNonNegative(Range(|data|), Weights(data));
    DivideMono(TrainingError(data, a), TrainingError(data, b), Sum(Range(|data|), Weights(data)));
  }

  lemma DivideMono(a: real, b: real, c: real)
    requires a <= b && c >= 0.0
    ensures c > 0.0 ==> a / c <= b / c
  {
  }

  lemma {:induction false} SumNonNegative(x: seq<nat>, v: seq<real>)
    requires Below(x, |v|) && forall i :: 0 <= i < |v| ==> v[i] >= 0.0
    ensures Sum(x, v) >= 0.0
  {
    if x != [] {
      SumNonNegative(x[..|x| - 1], v);
    }
  }
}
