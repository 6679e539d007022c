/** compare_precition_and_ground_truth: the confidence filter, the greedy
    matcher and the summary of areas and counts. */
module Evaluation {
  import opened Results
  import opened Seqs
  import opened Geometry
  import opened Matcher

  datatype Summary = Summary(iou: real, totalPredArea: nat, totalGtArea: nat,
                             numMatches: nat, numPreds: nat, numGts: nat)

  /** The pair (matches, summary) the source returns. */
  datatype Outcome = Outcome(matches: seq<Match>, summary: Summary)

  /** The predictions kept by the confidence filter, in input order. */
  function Filtered(preds: seq<Prediction>, confThreshold: real): seq<Prediction> {
    if preds == [] then []
    else
      Filtered(preds[..|preds| - 1], confThreshold) +
      (if preds[|preds| - 1].conf >= confThreshold then [preds[|preds| - 1]] else [])
  }

  function PredBoxes(preds: seq<Prediction>): seq<Box> {
    seq(|preds|, i requires 0 <= i < |preds| => preds[i].box)
  }

  function GtBoxes(gts: seq<GroundTruth>): seq<Box> {
    seq(|gts|, i requires 0 <= i < |gts| => gts[i].box)
  }

  function Inters(ms: seq<Match>): seq<int> {
    seq(|ms|, k requires 0 <= k < |ms| => ms[k].inter)
  }

  /** Sum of compute_box_area over a list of boxes. */
  function AreaTotal(bs: seq<Box>): nat {
    if bs == [] then 0 else AreaTotal(bs[..|bs| - 1]) + Area(bs[|bs| - 1])
  }

  /** The filter loop at the top of the function. */
  method FilterPredictions(preds: seq<Prediction>, confThreshold: real) returns (filtered: seq<Prediction>)
    ensures filtered == Filtered(preds, confThreshold)
  {
    filtered := [];
    for i := 0 to |preds|
      invariant filtered == Filtered(preds[..i], confThreshold)
    {
      assert preds[..i + 1][..i] == preds[..i];
      if preds[i].conf >= confThreshold {
        filtered := filtered + [preds[i]];
      }
    }
    assert preds[..|preds|] == preds;
  }

  /** The whole evaluation. The source raises ZeroDivisionError when some
      prediction and some ground truth are both empty boxes (inside
      compute_iou) and when every box is empty (the final division). */
  method Compare(preds: seq<Prediction>, gts: seq<GroundTruth>, iouThreshold: real := 0.5, confThreshold: real := 0.3)
    returns (r: Result<Outcome>)
    ensures r.Err? ==> r.error == ZeroDivisionError
    ensures r.Err? <==>
              HasDegeneratePair(Filtered(preds, confThreshold), gts) ||
              (AreaTotal(PredBoxes(Filtered(preds, confThreshold))) == 0 && AreaTotal(GtBoxes(gts)) == 0)
    ensures r.Ok? ==>
              var fs := Filtered(preds, confThreshold);
              var s := r.value.summary;
              var inter := Sum(Inters(r.value.matches));
              var union := s.totalPredArea + s.totalGtArea - inter;
              && IsGreedyMatching(fs, gts, iouThreshold, r.value.matches)
              && s.totalPredArea == AreaTotal(PredBoxes(fs))
              && s.totalGtArea == AreaTotal(GtBoxes(gts))
              && s.numMatches == |r.value.matches| && s.numPreds == |fs| && s.numGts == |gts|
              && 0 <= inter && union >= s.totalPredArea && union >= s.totalGtArea && union > 0
              && s.iou == inter as real / union as real
              && 0.0 <= s.iou <= 1.0
  {
    var fs := FilterPredictions(preds, confThreshold);
    var found := GreedyMatch(fs, gts, iouThreshold);
    if found.Err? {
      return Err(ZeroDivisionError);
    }
    var matches := found.value;
    SummaryBounds(fs, gts, iouThreshold, matches);

    var totalInter := SumInters(matches);
    var totalPred := TotalArea(PredBoxes(fs));
    var totalGt := TotalArea(GtBoxes(gts));
    var totalUnion := totalPred + totalGt - totalInter;
    if totalUnion == 0 {
      return Err(ZeroDivisionError);
    }
    RatioBounds(totalInter, totalUnion);
    var summary := Summary(totalInter as real / totalUnion as real, totalPred, totalGt,
                           |matches|, |fs|, |gts|);
    r := Ok(Outcome(matches, summary));
  }

  /** The accumulator over the matches: total_inter_area. */
  method SumInters(matches: seq<Match>) returns (total: int)
    ensures total == Sum(Inters(matches))
  {
    total := 0;
    for k := 0 to |matches|
      invariant total == Sum(Inters(matches)[..k])
    {
      assert Inters(matches)[..k + 1][..k] == Inters(matches)[..k];
      total := total + matches[k].inter;
    }
    assert Inters(matches)[..|matches|] == Inters(matches);
  }

  /** The accumulator over a list of boxes: total_pred_area or total_gt_area. */
  method TotalArea(boxes: seq<Box>) returns (total: nat)
    ensures total == AreaTotal(boxes)
  {
    total := 0;
    for i := 0 to |boxes|
      invariant total == AreaTotal(boxes[..i])
    {
      assert boxes[..i + 1][..i] == boxes[..i];
      total := total + Area(boxes[i]);
    }
    assert boxes[..|boxes|] == boxes;
  }

  // ---------------------------------------------------------------------
  // Properties of the filter

  /** The filter keeps exactly the predictions whose confidence reaches
      the threshold, and never lengthens the list. */
  lemma {:induction false} FilteredMembers(preds: seq<Prediction>, confThreshold: real)
    ensures forall p :: p in Filtered(preds, confThreshold) <==> p in preds && p.conf >= confThreshold
    ensures |Filtered(preds, confThreshold)| <= |preds|
  {
    if preds != [] {
      var init := preds[..|preds| - 1];
      FilteredMembers(init, confThreshold);
      assert preds == init + [preds[|preds| - 1]];
    }
  }

  /** The filter keeps relative order: it distributes over concatenation. */
  lemma {:induction false} FilteredAppend(a: seq<Prediction>, b: seq<Prediction>, confThreshold: real)
    ensures Filtered(a + b, confThreshold) == Filtered(a, confThreshold) + Filtered(b, confThreshold)
    decreases |b|
  {
    if b == [] {
      assert a + b == a;
    } else {
      var init := b[..|b| - 1];
      FilteredAppend(a, init, confThreshold);
      assert (a + b)[..|a + b| - 1] == a + init;
    }
  }

  /** Nothing survives the filter exactly when every confidence is below
      the threshold. */
  lemma FilteredEmpty(preds: seq<Prediction>, confThreshold: real)
    ensures Filtered(preds, confThreshold) == [] <==>
              forall i :: 0 <= i < |preds| ==> preds[i].conf < confThreshold
  {
    FilteredMembers(preds, confThreshold);
    if Filtered(preds, confThreshold) != [] {
      var p := Filtered(preds, confThreshold)[0];
      assert p in Filtered(preds, confThreshold);
    }
  }

  // ---------------------------------------------------------------------
  // Properties of the summary

  /** Sum of the areas of the boxes whose positions are in S. */
  function SelectedTotal(bs: seq<Box>, S: set<nat>): nat {
    if bs == [] then 0
    else SelectedTotal(bs[..|bs| - 1], S) + (if |bs| - 1 in S then Area(bs[|bs| - 1]) else 0)
  }

  lemma {:induction false} SelectedWithin(bs: seq<Box>, S: set<nat>)
    ensures SelectedTotal(bs, S) <= AreaTotal(bs)
  {
    if bs != [] {
      SelectedWithin(bs[..|bs| - 1], S);
    }
  }

  lemma {:induction false} SelectedIgnoresBeyond(bs: seq<Box>, S: set<nat>, i: nat)
    requires i >= |bs|
    ensures SelectedTotal(bs, S + {i}) == SelectedTotal(bs, S)
  {
    if bs != [] {
      SelectedIgnoresBeyond(bs[..|bs| - 1], S, i);
    }
  }

  lemma {:induction false} SelectedAdd(bs: seq<Box>, S: set<nat>, i: nat)
    requires i < |bs| && i !in S
    ensures SelectedTotal(bs, S + {i}) == SelectedTotal(bs, S) + Area(bs[i])
  {
    var init := bs[..|bs| - 1];
    if i == |bs| - 1 {
      SelectedIgnoresBeyond(init, S, i);
    } else {
      SelectedAdd(init, S, i);
    }
  }

  /** Values each bounded by the area of a distinct box sum to at most the
      total area. */
  lemma {:induction false} DistinctSelectionBound(bs: seq<Box>, idx: seq<nat>, vals: seq<int>)
    requires |idx| == |vals| && Distinct(idx)
    requires forall k :: 0 <= k < |idx| ==> idx[k] < |bs| && vals[k] <= Area(bs[idx[k]])
    ensures Sum(vals) <= SelectedTotal(bs, Elems(idx))
  {
    if idx != [] {
      var n := |idx| - 1;
      assert Distinct(idx[..n]);
      DistinctSelectionBound(bs, idx[..n], vals[..n]);
      assert idx[n] !in Elems(idx[..n]);
      SelectedAdd(bs, Elems(idx[..n]), idx[n]);
      assert idx == idx[..n] + [idx[n]];
      ElemsAppend(idx[..n], idx[n]);
    }
  }

  lemma {:induction false} SumNonNegative(xs: seq<int>)
    requires forall k :: 0 <= k < |xs| ==> xs[k] >= 0
    ensures Sum(xs) >= 0
  {
    if xs != [] {
      SumNonNegative(xs[..|xs| - 1]);
    }
  }

  /** The summed intersection of the matches is bounded by both the summed
      prediction area and the summed ground-truth area, so the union of
      the summary is at least each of them. */
  lemma SummaryBounds(preds: seq<Prediction>, gts: seq<GroundTruth>, iouThreshold: real, ms: seq<Match>)
    requires IsGreedyMatching(preds, gts, iouThreshold, ms)
    ensures 0 <= Sum(Inters(ms))
    ensures Sum(Inters(ms)) <= AreaTotal(PredBoxes(preds))
    ensures Sum(Inters(ms)) <= AreaTotal(GtBoxes(gts))
  {
    MatchingIsOneToOne(preds, gts, iouThreshold, ms);
    SumNonNegative(Inters(ms));
    forall k | 0 <= k < |ms|
      ensures ms[k].inter <= Area(preds[ms[k].prIdx].box) && ms[k].inter <= Area(gts[ms[k].gtIdx].box)
    {
      assert StepOk(preds, gts, iouThreshold, ms, k);
    }
    DistinctSelectionBound(PredBoxes(preds), PrIdxs(ms), Inters(ms));
    SelectedWithin(PredBoxes(preds), Elems(PrIdxs(ms)));
    DistinctSelectionBound(GtBoxes(gts), GtIdxs(ms), Inters(ms));
    SelectedWithin(GtBoxes(gts), Elems(GtIdxs(ms)));
  }

  /** When every prediction is below the confidence threshold nothing is
      matched and the predicted area is zero. */
  lemma AllBelowConfidence(preds: seq<Prediction>, gts: seq<GroundTruth>, iouThreshold: real,
                           confThreshold: real, ms: seq<Match>)
    requires forall i :: 0 <= i < |preds| ==> preds[i].conf < confThreshold
    requires IsGreedyMatching(Filtered(preds, confThreshold), gts, iouThreshold, ms)
    ensures ms == []
    ensures AreaTotal(PredBoxes(Filtered(preds, confThreshold))) == 0
  {
    FilteredEmpty(preds, confThreshold);
    MatchingIsOneToOne(Filtered(preds, confThreshold), gts, iouThreshold, ms);
    assert PredBoxes([]) == [];
  }

  // ---------------------------------------------------------------------
  // Scenarios

  /** A prediction that covers exactly the 10 x 10 ground truth is matched
      with IoU 1.0 and intersection = union = 100 pixels. */
  lemma IdenticalBoxScenario(ms: seq<Match>)
    requires IsGreedyMatching([Prediction("car", 0.9, Box(0, 0, 9, 9))], [GroundTruth("car", Box(0, 0, 9, 9))], 0.5, ms)
    ensures ms == [Match(0, 0, 0.9, 1.0, 100, 100)]
  {
    var preds := [Prediction("car", 0.9, Box(0, 0, 9, 9))];
    var gts := [GroundTruth("car", Box(0, 0, 9, 9))];
    var m := Match(0, 0, 0.9, 1.0, 100, 100);
    IouSelf(Box(0, 0, 9, 9));
    assert Records(preds, gts, m);
    assert PrPool(1, []) == {0} && GtPool(1, []) == {0} by {
      assert PrIdxs([]) == [] && GtIdxs([]) == [];
    }
    assert [m][..0] == [];
    assert IsFirstMax(preds, gts, {0}, {0}, 0, 0);
    assert StepOk(preds, gts, 0.5, [m], 0);
    assert PrPool(1, [m]) == {} by {
      assert PrIdxs([m]) == [0];
    }
    assert Exhausted(preds, gts, 0.5, PrPool(1, [m]), GtPool(1, [m]));
    assert !HasDegeneratePair(preds, gts);
    assert IsGreedyMatching(preds, gts, 0.5, [m]);
    GreedyMatchingIsUnique(preds, gts, 0.5, ms, [m]);
  }

  /** A prediction that does not overlap the only ground truth is not
      matched at the default threshold. */
  lemma DisjointBoxScenario(ms: seq<Match>)
    requires IsGreedyMatching([Prediction("car", 0.9, Box(20, 20, 29, 29))], [GroundTruth("car", Box(0, 0, 9, 9))], 0.5, ms)
    ensures ms == []
  {
    var preds := [Prediction("car", 0.9, Box(20, 20, 29, 29))];
    var gts := [GroundTruth("car", Box(0, 0, 9, 9))];
    IouDisjoint(Box(20, 20, 29, 29), Box(0, 0, 9, 9));
    if ms != [] {
      assert StepOk(preds, gts, 0.5, ms, 0);
      RecordedIou(preds, gts, ms[0]);
      assert false;
    }
  }

  /** Two predictions and two ground truths on one pixel row. In scan
      order the pair (0, 1) with IoU 0.6 comes before the pair (1, 0) with
      IoU 0.9; the greedy loop takes the 0.9 pair first and the 0.6 pair
      second. */
  const CrossedPreds := [Prediction("plate", 0.7, Box(9, 0, 14, 0)), Prediction("plate", 0.8, Box(0, 0, 8, 0))]
  const CrossedGts := [GroundTruth("plate", Box(0, 0, 9, 0)), GroundTruth("plate", Box(8, 0, 17, 0))]

  lemma CrossedIous()
    ensures ComputeIou(CrossedPreds[0].box, CrossedGts[0].box) == Ok(IouTriple(1.0 / 15.0, 1, 15))
    ensures ComputeIou(CrossedPreds[0].box, CrossedGts[1].box) == Ok(IouTriple(0.6, 6, 10))
    ensures ComputeIou(CrossedPreds[1].box, CrossedGts[0].box) == Ok(IouTriple(0.9, 9, 10))
    ensures ComputeIou(CrossedPreds[1].box, CrossedGts[1].box) == Ok(IouTriple(1.0 / 18.0, 1, 18))
  {
    assert Area(Box(9, 0, 14, 0)) == 6 && Area(Box(0, 0, 8, 0)) == 9;
    assert Area(Box(0, 0, 9, 0)) == 10 && Area(Box(8, 0, 17, 0)) == 10;
    assert Area(Box(9, 0, 9, 0)) == 1 && Area(Box(8, 0, 8, 0)) == 1;
  }

  lemma AreaTotalOfTwo(a: Box, b: Box)
    ensures AreaTotal([a, b]) == Area(a) + Area(b)
  {
    var two := [a, b];
    assert two[..1] == [a] && [a][..0] == [];
    assert AreaTotal([a]) == Area(a);
    assert AreaTotal(two) == AreaTotal(two[..1]) + Area(b);
  }

  lemma CrossedNonDegenerate()
    ensures !HasDegeneratePair(CrossedPreds, CrossedGts)
    ensures AreaTotal(PredBoxes(CrossedPreds)) == 15 && AreaTotal(GtBoxes(CrossedGts)) == 20
  {
    assert Area(Box(9, 0, 14, 0)) == 6 && Area(Box(0, 0, 8, 0)) == 9;
    assert Area(Box(0, 0, 9, 0)) == 10 && Area(Box(8, 0, 17, 0)) == 10;
    assert forall p :: 0 <= p < 2 ==> Area(CrossedPreds[p].box) > 0;
    assert PredBoxes(CrossedPreds) == [Box(9, 0, 14, 0), Box(0, 0, 8, 0)];
    assert GtBoxes(CrossedGts) == [Box(0, 0, 9, 0), Box(8, 0, 17, 0)];
    AreaTotalOfTwo(Box(9, 0, 14, 0), Box(0, 0, 8, 0));
    AreaTotalOfTwo(Box(0, 0, 9, 0), Box(8, 0, 17, 0));
  }

  lemma CrossedPairIous()
    ensures PairIou(CrossedPreds, CrossedGts, 0, 0) == 1.0 / 15.0
    ensures PairIou(CrossedPreds, CrossedGts, 0, 1) == 0.6
    ensures PairIou(CrossedPreds, CrossedGts, 1, 0) == 0.9
    ensures PairIou(CrossedPreds, CrossedGts, 1, 1) == 1.0 / 18.0
  {
    CrossedIous();
  }

  /** Round 0 takes (1, 0): it beats the two earlier pairs strictly. */
  lemma CrossedFirstStep(greedy: seq<Match>)
    requires greedy == [Match(1, 0, 0.8, 0.9, 9, 10), Match(0, 1, 0.7, 0.6, 6, 10)]
    ensures StepOk(CrossedPreds, CrossedGts, 0.5, greedy, 0)
  {
    CrossedIous();
    CrossedPairIous();
    assert Indices(2) == {0, 1};
    assert greedy[..0] == [];
    assert PrPool(2, []) == {0, 1} && GtPool(2, []) == {0, 1} by {
      assert PrIdxs([]) == [] && GtIdxs([]) == [];
    }
    assert IsFirstMax(CrossedPreds, CrossedGts, {0, 1}, {0, 1}, 1, 0);
  }

  /** Round 1 takes (0, 1), the only pair left. */
  lemma CrossedSecondStep(greedy: seq<Match>)
    requires greedy == [Match(1, 0, 0.8, 0.9, 9, 10), Match(0, 1, 0.7, 0.6, 6, 10)]
    ensures StepOk(CrossedPreds, CrossedGts, 0.5, greedy, 1)
  {
    CrossedIous();
    var m1 := greedy[0];
    assert Indices(2) == {0, 1};
    assert greedy[..1] == [m1];
    assert PrPool(2, [m1]) == {0} && GtPool(2, [m1]) == {1} by {
      assert PrIdxs([m1]) == [1] && GtIdxs([m1]) == [0];
    }
    assert IsFirstMax(CrossedPreds, CrossedGts, {0}, {1}, 0, 1);
  }

  /** The greedy loop on the crossed boxes pins both matches: first (1, 0)
      with IoU 0.9, then (0, 1) with IoU 0.6. */
  lemma GreedyOrderScenario(ms: seq<Match>)
    requires IsGreedyMatching(CrossedPreds, CrossedGts, 0.5, ms)
    ensures ms == [Match(1, 0, 0.8, 0.9, 9, 10), Match(0, 1, 0.7, 0.6, 6, 10)]
  {
    var greedy := [Match(1, 0, 0.8, 0.9, 9, 10), Match(0, 1, 0.7, 0.6, 6, 10)];
    CrossedNonDegenerate();
    CrossedFirstStep(greedy);
    CrossedSecondStep(greedy);
    assert PrPool(2, greedy) == {} by {
      assert PrIdxs(greedy) == [1, 0];
    }
    assert IsGreedyMatching(CrossedPreds, CrossedGts, 0.5, greedy);
    GreedyMatchingIsUnique(CrossedPreds, CrossedGts, 0.5, ms, greedy);
  }

  // ---------------------------------------------------------------------
  // The scenarios on the whole function, at the default thresholds

  /** One prediction exactly on the ground truth: one match and a summary
      IoU of 1.0. */
  method IdenticalBoxEvaluation() returns (r: Result<Outcome>)
    ensures r == Ok(Outcome([Match(0, 0, 0.9, 1.0, 100, 100)], Summary(1.0, 100, 100, 1, 1, 1)))
  {
    var preds := [Prediction("car", 0.9, Box(0, 0, 9, 9))];
    var gts := [GroundTruth("car", Box(0, 0, 9, 9))];
    assert preds[..0] == [];
    assert Filtered(preds, 0.3) == preds;
    assert Area(Box(0, 0, 9, 9)) == 100;
    assert PredBoxes(preds) == [Box(0, 0, 9, 9)] && GtBoxes(gts) == [Box(0, 0, 9, 9)];
    assert [Box(0, 0, 9, 9)][..0] == [];
    assert !HasDegeneratePair(preds, gts);
    r := Compare(preds, gts);
    IdenticalBoxScenario(r.value.matches);
    var inters := Inters(r.value.matches);
    assert inters == [100] && inters[..0] == [];
  }

  /** One prediction beside the ground truth: no match and a summary IoU
      of 0.0 over a union of 200 pixels. */
  method DisjointBoxEvaluation() returns (r: Result<Outcome>)
    ensures r == Ok(Outcome([], Summary(0.0, 100, 100, 0, 1, 1)))
  {
    var preds := [Prediction("car", 0.9, Box(20, 20, 29, 29))];
    var gts := [GroundTruth("car", Box(0, 0, 9, 9))];
    assert preds[..0] == [];
    assert Filtered(preds, 0.3) == preds;
    assert Area(Box(0, 0, 9, 9)) == 100 && Area(Box(20, 20, 29, 29)) == 100;
    assert PredBoxes(preds) == [Box(20, 20, 29, 29)] && GtBoxes(gts) == [Box(0, 0, 9, 9)];
    assert [Box(20, 20, 29, 29)][..0] == [] && [Box(0, 0, 9, 9)][..0] == [];
    assert !HasDegeneratePair(preds, gts);
    r := Compare(preds, gts);
    DisjointBoxScenario(r.value.matches);
    assert Inters([]) == [];
  }

  /** The crossed boxes: two matches, 15 of 20 pixels shared, summary IoU
      0.75. */
  method GreedyOrderEvaluation() returns (r: Result<Outcome>)
    ensures r == Ok(Outcome([Match(1, 0, 0.8, 0.9, 9, 10), Match(0, 1, 0.7, 0.6, 6, 10)],
                            Summary(0.75, 15, 20, 2, 2, 2)))
  {
    var preds, gts := CrossedPreds, CrossedGts;
    assert preds[..1][..0] == [] && preds[..|preds| - 1] == preds[..1];
    assert Filtered(preds, 0.3) == preds;
    CrossedNonDegenerate();
    r := Compare(preds, gts);
    GreedyOrderScenario(r.value.matches);
    var inters := Inters(r.value.matches);
    assert inters == [9, 6] && inters[..1] == [9] && [9][..0] == [];
  }
}
