/**
  `match_boxes` of the greedy evaluation: ground truths are visited in order,
  each takes the first not-yet-consumed prediction with the strictly highest
  guarded IoU, and the pair is recorded only when that IoU reaches the
  threshold. Category ids play no part.
 */
module Matching {
  import opened Geometry
  import opened Dataset

  /** The two index sets `match_boxes` returns. */
  datatype Match = Match(gt: set<int>, pred: set<int>)

  /** Prediction k is still available, has positive IoU with g, and nothing available in preds[..n] beats it. */
  predicate IsBestAmong(g: Box, preds: seq<Box>, used: set<int>, n: nat, k: int)
    requires n <= |preds|
  {
    && 0 <= k < n
    && k !in used
    && GuardedIou(g, preds[k]) > 0.0
    && (forall j :: 0 <= j < n && j !in used ==> GuardedIou(g, preds[j]) <= GuardedIou(g, preds[k]))
    && (forall j :: 0 <= j < k && j !in used ==> GuardedIou(g, preds[j]) < GuardedIou(g, preds[k]))
  }

  /** No available prediction in preds[..n] overlaps g at all. */
  predicate NoCandidate(g: Box, preds: seq<Box>, used: set<int>, n: nat)
    requires n <= |preds|
  {
    forall j :: 0 <= j < n && j !in used ==> GuardedIou(g, preds[j]) == 0.0
  }

  /**
    The prediction the inner loop of `match_boxes` holds after scanning
    preds[..n]: the lowest-indexed available one of highest positive IoU,
    or -1 when every available one scores 0.
   */
  function BestAmong(g: Box, preds: seq<Box>, used: set<int>, n: nat): (k: int)
    requires n <= |preds|
    ensures k == -1 <==> NoCandidate(g, preds, used, n)
    ensures k != -1 ==> IsBestAmong(g, preds, used, n, k)
  {
    if n == 0 then -1
    else
      var k := BestAmong(g, preds, used, n - 1);
      var best := if k == -1 then 0.0 else GuardedIou(g, preds[k]);
      if n - 1 !in used && GuardedIou(g, preds[n - 1]) > best then n - 1 else k
  }

  /** One ground truth's turn: it consumes its best prediction if that one reaches the threshold. */
  function Step(m: Match, i: int, g: Box, preds: seq<Box>, threshold: real): Match {
    var k := BestAmong(g, preds, m.pred, |preds|);
    var best := if k == -1 then 0.0 else GuardedIou(g, preds[k]);
    if best >= threshold && k != -1 then Match(m.gt + {i}, m.pred + {k}) else m
  }

  /**
    The result of `match_boxes` on the ground truths gts, in order: one-to-one,
    with every index inside its list.
   */
  function GreedyMatch(gts: seq<Box>, preds: seq<Box>, threshold: real): (m: Match)
    ensures forall i :: i in m.gt ==> 0 <= i < |gts|
    ensures forall k :: k in m.pred ==> 0 <= k < |preds|
    ensures |m.gt| == |m.pred|
  {
    if gts == [] then Match({}, {})
    else
      var n := |gts| - 1;
      Step(GreedyMatch(gts[..n], preds, threshold), n, gts[n], preds, threshold)
  }

  /** The characterisation of the best prediction pins it down: ties go to the lowest index. */
  lemma BestIsUnique(g: Box, preds: seq<Box>, used: set<int>, k1: int, k2: int)
    requires IsBestAmong(g, preds, used, |preds|, k1)
    requires IsBestAmong(g, preds, used, |preds|, k2)
    ensures k1 == k2
  {
  }

  /**
    A matched ground truth has a matched partner whose IoU with it reaches the
    threshold and is positive: a prediction of IoU 0 is never consumed.
   */
  lemma {:induction false} MatchedHasPartner(gts: seq<Box>, preds: seq<Box>, threshold: real, i: int)
    returns (k: int)
    requires i in GreedyMatch(gts, preds, threshold).gt
    ensures 0 <= i < |gts| && 0 <= k < |preds|
    ensures k in GreedyMatch(gts, preds, threshold).pred
    ensures GuardedIou(gts[i], preds[k]) >= threshold && GuardedIou(gts[i], preds[k]) > 0.0
  {
    var n := |gts| - 1;
    var prev := GreedyMatch(gts[..n], preds, threshold);
    if i in prev.gt {
      k := MatchedHasPartner(gts[..n], preds, threshold, i);
      assert gts[..n][i] == gts[i];
    } else {
      k := BestAmong(gts[n], preds, prev.pred, |preds|);
    }
  }

  /** Later ground truths never change whether an earlier one was matched. */
  lemma {:induction false} MatchedIsSettledAtTurn(gts: seq<Box>, preds: seq<Box>, threshold: real, i: int)
    requires 0 <= i < |gts|
    ensures i in GreedyMatch(gts, preds, threshold).gt <==> i in GreedyMatch(gts[..i + 1], preds, threshold).gt
  {
    var n := |gts| - 1;
    if n == i {
      assert gts[..i + 1] == gts;
    } else {
      assert gts[..n][..i + 1] == gts[..i + 1];
      MatchedIsSettledAtTurn(gts[..n], preds, threshold, i);
    }
  }

  /** Predictions, once consumed, stay consumed. */
  lemma {:induction false} ConsumedStays(gts: seq<Box>, preds: seq<Box>, threshold: real, j: nat)
    requires j <= |gts|
    ensures GreedyMatch(gts[..j], preds, threshold).pred <= GreedyMatch(gts, preds, threshold).pred
  {
    if j < |gts| {
      var n := |gts| - 1;
      assert gts[..n][..j] == gts[..j];
      ConsumedStays(gts[..n], preds, threshold, j);
    } else {
      assert gts[..j] == gts;
    }
  }

  /**
    The turn of ground truth i: with the predictions consumed by the earlier
    ground truths, it is matched exactly when its best free prediction exists
    and reaches the threshold, and then it consumes exactly that prediction.
   */
  lemma TurnOf(gts: seq<Box>, preds: seq<Box>, threshold: real, i: int)
    requires 0 <= i < |gts|
    ensures var used := GreedyMatch(gts[..i], preds, threshold).pred;
      var k := BestAmong(gts[i], preds, used, |preds|);
      && (i in GreedyMatch(gts, preds, threshold).gt <==> k != -1 && GuardedIou(gts[i], preds[k]) >= threshold)
      && (i in GreedyMatch(gts, preds, threshold).gt ==>
            GreedyMatch(gts[..i + 1], preds, threshold).pred == used + {k}
            && k in GreedyMatch(gts, preds, threshold).pred)
  {
    var prev := GreedyMatch(gts[..i], preds, threshold);
    assert gts[..i + 1][..i] == gts[..i];
    assert gts[..i + 1][i] == gts[i];
    assert GreedyMatch(gts[..i + 1], preds, threshold) == Step(prev, i, gts[i], preds, threshold);
    assert i !in prev.gt;
    MatchedIsSettledAtTurn(gts, preds, threshold, i);
    ConsumedStays(gts, preds, threshold, i + 1);
  }

  /**
    The other half of the matching rule: a ground truth left unmatched had,
    at its turn, no free prediction with a positive IoU that reached the
    threshold.
   */
  lemma UnmatchedHadNoCandidate(gts: seq<Box>, preds: seq<Box>, threshold: real, i: int)
    requires 0 <= i < |gts| && i !in GreedyMatch(gts, preds, threshold).gt
    ensures forall k :: 0 <= k < |preds| && k !in GreedyMatch(gts[..i], preds, threshold).pred ==>
      GuardedIou(gts[i], preds[k]) < threshold || GuardedIou(gts[i], preds[k]) == 0.0
  {
    TurnOf(gts, preds, threshold, i);
  }

  /** Without ground truths, or without predictions, nothing is matched. */
  lemma {:induction false} EmptyMatchesNothing(gts: seq<Box>, preds: seq<Box>, threshold: real)
    requires gts == [] || preds == []
    ensures GreedyMatch(gts, preds, threshold) == Match({}, {})
  {
    if gts != [] {
      EmptyMatchesNothing(gts[..|gts| - 1], preds, threshold);
    }
  }

  /**
    Two identical predictions tie at IoU 0.9 with a ground truth: the first is
    taken, and the second stays available for a later, identical ground truth.
   */
  lemma TieGoesToFirst()
    ensures var g, p := Box(0.0, 0.0, 10.0, 10.0), Box(0.0, 0.0, 10.0, 9.0);
      && GuardedIou(g, p) == 0.9
      && GreedyMatch([g], [p, p], 0.75) == Match({0}, {0})
      && GreedyMatch([g, g], [p, p], 0.75) == Match({0, 1}, {0, 1})
  {
    var g, p := Box(0.0, 0.0, 10.0, 10.0), Box(0.0, 0.0, 10.0, 9.0);
    assert OverlapArea(g, p) == 90.0 && OverlapUnion(g, p) == 100.0;
    assert GuardedIou(g, p) == 0.9;
    assert BestAmong(g, [p, p], {}, 2) == 0;
    assert [g, g][..1] == [g];
    assert BestAmong(g, [p, p], {0}, 2) == 1;
  }

  /**
    The inner loop of `match_boxes` for one ground truth: the best available
    prediction so far and its IoU.
   */
  method BestPrediction(gt: Box, predList: seq<Annotation>, matchedPred: set<int>)
    returns (bestIou: real, bestPredIdx: int)
    ensures bestPredIdx == BestAmong(gt, BoxesOf(predList), matchedPred, |predList|)
    ensures bestIou == if bestPredIdx == -1 then 0.0 else GuardedIou(gt, BoxesOf(predList)[bestPredIdx])
  {
    ghost var preds := BoxesOf(predList);
    bestIou := 0.0;
    bestPredIdx := -1;
    for predIdx := 0 to |predList|
      invariant bestPredIdx == BestAmong(gt, preds, matchedPred, predIdx)
      invariant bestIou == if bestPredIdx == -1 then 0.0 else GuardedIou(gt, preds[bestPredIdx])
    {
      if predIdx in matchedPred {
        continue;
      }
      var iouVal := GuardedIou(gt, predList[predIdx].bbox);
      if iouVal > bestIou {
        bestIou := iouVal;
        bestPredIdx := predIdx;
      }
    }
  }

  /**
    `match_boxes` itself: nested loops that keep the best IoU seen so far and
    add to the two sets. It reads only the boxes of its arguments, never their
    category ids.
   */
  method MatchBoxes(gtList: seq<Annotation>, predList: seq<Annotation>, threshold: real)
    returns (matchedGt: set<int>, matchedPred: set<int>)
    ensures Match(matchedGt, matchedPred) == GreedyMatch(BoxesOf(gtList), BoxesOf(predList), threshold)
    ensures |matchedGt| == |matchedPred|
  {
    ghost var gts, preds := BoxesOf(gtList), BoxesOf(predList);
    matchedGt, matchedPred := {}, {};
    for gtIdx := 0 to |gtList|
      invariant Match(matchedGt, matchedPred) == GreedyMatch(gts[..gtIdx], preds, threshold)
    {
      var gt := gtList[gtIdx].bbox;
      var bestIou, bestPredIdx := BestPrediction(gt, predList, matchedPred);
      assert GreedyMatch(gts[..gtIdx + 1], preds, threshold)
          == Step(Match(matchedGt, matchedPred), gtIdx, gt, preds, threshold) by {
        assert gts[..gtIdx + 1][..gtIdx] == gts[..gtIdx];
        assert gts[..gtIdx + 1][gtIdx] == gt;
      }
      if bestIou >= threshold && bestPredIdx != -1 {
        matchedGt := matchedGt + {gtIdx};
        matchedPred := matchedPred + {bestPredIdx};
      }
    }
    assert gts[..|gtList|] == gts;
  }
}
