/** The greedy global matcher of compare_precition_and_ground_truth:
    while both pools of unmatched indices are non-empty, scan every
    remaining (prediction, ground truth) pair in ascending order, keep the
    first pair with the largest IoU, stop when that IoU is below the
    threshold, otherwise record the pair and remove both indices. */
module Matcher {
  import opened Results
  import opened Seqs
  import opened Geometry

  datatype GroundTruth = GroundTruth(className: string, box: Box)
  datatype Prediction = Prediction(className: string, conf: real, box: Box)

  /** One accepted pair, with what the source copies into max_match. */
  datatype Match = Match(prIdx: nat, gtIdx: nat, conf: real, iou: real, inter: nat, union: nat)

  /** A pair on which compute_iou divides by zero. */
  predicate Degenerate(p: Prediction, g: GroundTruth) {
    Area(p.box) == 0 && Area(g.box) == 0
  }

  ghost predicate HasDegeneratePairIn(preds: seq<Prediction>, gts: seq<GroundTruth>, prPool: set<nat>, gtPool: set<nat>) {
    exists p, g :: p in prPool && g in gtPool && p < |preds| && g < |gts| && Degenerate(preds[p], gts[g])
  }

  ghost predicate HasDegeneratePair(preds: seq<Prediction>, gts: seq<GroundTruth>) {
    HasDegeneratePairIn(preds, gts, Indices(|preds|), Indices(|gts|))
  }

  /** The IoU of a pair, read off compute_iou (0.0 stands in for the
      division fault, which IsGreedyMatching rules out). */
  ghost function PairIou(preds: seq<Prediction>, gts: seq<GroundTruth>, p: nat, g: nat): real
    requires p < |preds| && g < |gts|
  {
    match ComputeIou(preds[p].box, gts[g].box)
    case Ok(t) => t.iou
    case Err(_) => 0.0
  }

  /** (p', g') comes strictly before (p, g) in the scan order. */
  predicate Before(p': nat, g': nat, p: nat, g: nat) {
    p' < p || (p' == p && g' < g)
  }

  /** (p, g) is what the scan over prPool x gtPool keeps: a pair of
      maximal IoU, and the first one with that IoU (the test is strict). */
  ghost predicate IsFirstMax(preds: seq<Prediction>, gts: seq<GroundTruth>, prPool: set<nat>, gtPool: set<nat>, p: nat, g: nat) {
    && p in prPool && g in gtPool && p < |preds| && g < |gts|
    && (forall p', g' :: p' in prPool && g' in gtPool && p' < |preds| && g' < |gts| ==>
          PairIou(preds, gts, p', g') <= PairIou(preds, gts, p, g))
    && (forall p', g' :: p' in prPool && g' in gtPool && p' < |preds| && g' < |gts| && Before(p', g', p, g) ==>
          PairIou(preds, gts, p', g') < PairIou(preds, gts, p, g))
  }

  /** The stored conf, iou, inter and union are the prediction's conf and
      compute_iou of the pair. */
  ghost predicate Records(preds: seq<Prediction>, gts: seq<GroundTruth>, m: Match) {
    && m.prIdx < |preds| && m.gtIdx < |gts|
    && m.conf == preds[m.prIdx].conf
    && ComputeIou(preds[m.prIdx].box, gts[m.gtIdx].box) == Ok(IouTriple(m.iou, m.inter, m.union))
  }

  function PrIdxs(ms: seq<Match>): seq<nat> {
    seq(|ms|, k requires 0 <= k < |ms| => ms[k].prIdx)
  }

  function GtIdxs(ms: seq<Match>): seq<nat> {
    seq(|ms|, k requires 0 <= k < |ms| => ms[k].gtIdx)
  }

  /** prediction_indices after the matches ms have been removed. */
  function PrPool(n: nat, ms: seq<Match>): set<nat> {
    Indices(n) - Elems(PrIdxs(ms))
  }

  /** ground_truth_indices after the matches ms have been removed. */
  function GtPool(n: nat, ms: seq<Match>): set<nat> {
    Indices(n) - Elems(GtIdxs(ms))
  }

  /** Round k of the loop accepted ms[k]. */
  ghost predicate StepOk(preds: seq<Prediction>, gts: seq<GroundTruth>, iouThreshold: real, ms: seq<Match>, k: nat)
    requires k < |ms|
  {
    && IsFirstMax(preds, gts, PrPool(|preds|, ms[..k]), GtPool(|gts|, ms[..k]), ms[k].prIdx, ms[k].gtIdx)
    && Records(preds, gts, ms[k])
    && ms[k].iou >= iouThreshold
  }

  /** The loop has ended: a pool is empty, or the best remaining IoU is
      below the threshold. */
  ghost predicate Exhausted(preds: seq<Prediction>, gts: seq<GroundTruth>, iouThreshold: real, prPool: set<nat>, gtPool: set<nat>) {
    || prPool == {}
    || gtPool == {}
    || forall p, g :: p in prPool && g in gtPool && p < |preds| && g < |gts| ==> PairIou(preds, gts, p, g) < iouThreshold
  }

  /** ms is the list of matches the greedy loop produces without fault. */
  ghost predicate IsGreedyMatching(preds: seq<Prediction>, gts: seq<GroundTruth>, iouThreshold: real, ms: seq<Match>) {
    && !HasDegeneratePair(preds, gts)
    && (forall k :: 0 <= k < |ms| ==> StepOk(preds, gts, iouThreshold, ms, k))
    && Exhausted(preds, gts, iouThreshold, PrPool(|preds|, ms), GtPool(|gts|, ms))
  }

  /** What the scan has established once it has visited every pair
      before (pr, gt). */
  ghost predicate ScanInv(preds: seq<Prediction>, gts: seq<GroundTruth>, prPool: set<nat>, gtPool: set<nat>,
                          pr: nat, gt: nat, maxIou: real, best: Option<Match>) {
    && (forall p', g' :: p' in prPool && g' in gtPool && p' < |preds| && g' < |gts| && Before(p', g', pr, gt) ==>
          !Degenerate(preds[p'], gts[g']))
    && (best.None? ==>
          && maxIou == -1.0
          && forall p', g' :: p' in prPool && g' in gtPool && p' < |preds| && g' < |gts| ==> !Before(p', g', pr, gt))
    && (best.Some? ==>
          && maxIou == best.value.iou
          && best.value.prIdx in prPool && best.value.gtIdx in gtPool
          && Before(best.value.prIdx, best.value.gtIdx, pr, gt)
          && Records(preds, gts, best.value)
          && (forall p', g' :: p' in prPool && g' in gtPool && p' < |preds| && g' < |gts| && Before(p', g', pr, gt) ==>
                PairIou(preds, gts, p', g') <= maxIou)
          && (forall p', g' ::
                p' in prPool && g' in gtPool && p' < |preds| && g' < |gts| && Before(p', g', best.value.prIdx, best.value.gtIdx)
                ==> PairIou(preds, gts, p', g') < maxIou))
  }

  /** The body of the while loop up to the threshold test: the nested scan
      for the first maximal pair, which faults on a degenerate pair. */
  method FindFirstMax(preds: seq<Prediction>, gts: seq<GroundTruth>, prPool: set<nat>, gtPool: set<nat>)
    returns (r: Result<Match>)
    requires prPool != {} && gtPool != {}
    requires forall p :: p in prPool ==> p < |preds|
    requires forall g :: g in gtPool ==> g < |gts|
    ensures r.Err? <==> HasDegeneratePairIn(preds, gts, prPool, gtPool)
    ensures r.Err? ==> r.error == ZeroDivisionError
    ensures r.Ok? ==> IsFirstMax(preds, gts, prPool, gtPool, r.value.prIdx, r.value.gtIdx)
    ensures r.Ok? ==> Records(preds, gts, r.value)
  {
    var maxIou := -1.0;
    var best: Option<Match> := None;
    for pr := 0 to |preds|
      invariant ScanInv(preds, gts, prPool, gtPool, pr, 0, maxIou, best)
    {
      if pr in prPool {
        for gt := 0 to |gts|
          invariant ScanInv(preds, gts, prPool, gtPool, pr, gt, maxIou, best)
        {
          if gt in gtPool {
            var o := ComputeIou(preds[pr].box, gts[gt].box);
            if o.Err? {
              assert Degenerate(preds[pr], gts[gt]);
              return Err(ZeroDivisionError);
            }
            if o.value.iou > maxIou {
              ScanTake(preds, gts, prPool, gtPool, pr, gt, maxIou, best);
              maxIou := o.value.iou;
              best := Some(Match(pr, gt, preds[pr].conf, o.value.iou, o.value.inter, o.value.union));
            } else {
              ScanKeep(preds, gts, prPool, gtPool, pr, gt, maxIou, best);
            }
          } else {
            ScanSkip(preds, gts, prPool, gtPool, pr, gt, maxIou, best);
          }
        }
        ScanNextRow(preds, gts, prPool, gtPool, pr, maxIou, best);
      } else {
        ScanSkipRow(preds, gts, prPool, gtPool, pr, maxIou, best);
      }
    }
    ScanDone(preds, gts, prPool, gtPool, maxIou, best);
    r := Ok(best.value);
  }

  lemma ScanTake(preds: seq<Prediction>, gts: seq<GroundTruth>, prPool: set<nat>, gtPool: set<nat>,
                 pr: nat, gt: nat, maxIou: real, best: Option<Match>)
    requires ScanInv(preds, gts, prPool, gtPool, pr, gt, maxIou, best)
    requires pr in prPool && gt in gtPool && pr < |preds| && gt < |gts|
    requires ComputeIou(preds[pr].box, gts[gt].box).Ok?
    requires ComputeIou(preds[pr].box, gts[gt].box).value.iou > maxIou
    ensures var o := ComputeIou(preds[pr].box, gts[gt].box).value;
      ScanInv(preds, gts, prPool, gtPool, pr, gt + 1, o.iou,
              Some(Match(pr, gt, preds[pr].conf, o.iou, o.inter, o.union)))
  {
    assert PairIou(preds, gts, pr, gt) == ComputeIou(preds[pr].box, gts[gt].box).value.iou;
  }

  lemma ScanKeep(preds: seq<Prediction>, gts: seq<GroundTruth>, prPool: set<nat>, gtPool: set<nat>,
                 pr: nat, gt: nat, maxIou: real, best: Option<Match>)
    requires ScanInv(preds, gts, prPool, gtPool, pr, gt, maxIou, best)
    requires pr in prPool && gt in gtPool && pr < |preds| && gt < |gts|
    requires ComputeIou(preds[pr].box, gts[gt].box).Ok?
    requires ComputeIou(preds[pr].box, gts[gt].box).value.iou <= maxIou
    ensures ScanInv(preds, gts, prPool, gtPool, pr, gt + 1, maxIou, best)
  {
    assert PairIou(preds, gts, pr, gt) == ComputeIou(preds[pr].box, gts[gt].box).value.iou;
  }

  lemma ScanSkip(preds: seq<Prediction>, gts: seq<GroundTruth>, prPool: set<nat>, gtPool: set<nat>,
                 pr: nat, gt: nat, maxIou: real, best: Option<Match>)
    requires ScanInv(preds, gts, prPool, gtPool, pr, gt, maxIou, best)
    requires gt !in gtPool
    ensures ScanInv(preds, gts, prPool, gtPool, pr, gt + 1, maxIou, best)
  {
  }

  lemma ScanNextRow(preds: seq<Prediction>, gts: seq<GroundTruth>, prPool: set<nat>, gtPool: set<nat>,
                    pr: nat, maxIou: real, best: Option<Match>)
    requires ScanInv(preds, gts, prPool, gtPool, pr, |gts|, maxIou, best)
    ensures ScanInv(preds, gts, prPool, gtPool, pr + 1, 0, maxIou, best)
  {
  }

  lemma ScanSkipRow(preds: seq<Prediction>, gts: seq<GroundTruth>, prPool: set<nat>, gtPool: set<nat>,
                    pr: nat, maxIou: real, best: Option<Match>)
    requires ScanInv(preds, gts, prPool, gtPool, pr, 0, maxIou, best)
    requires pr !in prPool
    ensures ScanInv(preds, gts, prPool, gtPool, pr + 1, 0, maxIou, best)
  {
  }

  lemma ScanDone(preds: seq<Prediction>, gts: seq<GroundTruth>, prPool: set<nat>, gtPool: set<nat>,
                 maxIou: real, best: Option<Match>)
    requires prPool != {} && gtPool != {}
    requires forall p :: p in prPool ==> p < |preds|
    requires forall g :: g in gtPool ==> g < |gts|
    requires ScanInv(preds, gts, prPool, gtPool, |preds|, 0, maxIou, best)
    ensures best.Some?
    ensures !HasDegeneratePairIn(preds, gts, prPool, gtPool)
    ensures IsFirstMax(preds, gts, prPool, gtPool, best.value.prIdx, best.value.gtIdx)
    ensures Records(preds, gts, best.value)
  {
    var p0 :| p0 in prPool;
    var g0 :| g0 in gtPool;
    assert Before(p0, g0, |preds|, 0);
    assert PairIou(preds, gts, best.value.prIdx, best.value.gtIdx) == maxIou;
  }

  /** The greedy loop; a fault in compute_iou is reported as Err. */
  method GreedyMatch(preds: seq<Prediction>, gts: seq<GroundTruth>, iouThreshold: real)
    returns (r: Result<seq<Match>>)
    ensures r.Err? <==> HasDegeneratePair(preds, gts)
    ensures r.Err? ==> r.error == ZeroDivisionError
    ensures r.Ok? ==> IsGreedyMatching(preds, gts, iouThreshold, r.value)
  {
    var matches: seq<Match> := [];
    var prPool := Indices(|preds|);
    var gtPool := Indices(|gts|);
    assert PrIdxs([]) == [] && GtIdxs([]) == [];
    while |prPool| > 0 && |gtPool| > 0
      invariant prPool == PrPool(|preds|, matches)
      invariant gtPool == GtPool(|gts|, matches)
      invariant forall k :: 0 <= k < |matches| ==> StepOk(preds, gts, iouThreshold, matches, k)
      invariant |matches| > 0 ==> !HasDegeneratePair(preds, gts)
      decreases |prPool|
    {
      var found := FindFirstMax(preds, gts, prPool, gtPool);
      if found.Err? {
        DegenerateInPools(preds, gts, prPool, gtPool);
        return Err(ZeroDivisionError);
      }
      var m := found.value;
      if m.iou < iouThreshold {
        StopBelowThreshold(preds, gts, iouThreshold, prPool, gtPool, m);
        break;
      }
      StepsExtend(preds, gts, iouThreshold, matches, m);
      PoolsAfterMatch(|preds|, |gts|, matches, m);
      matches := matches + [m];
      prPool := prPool - {m.prIdx};
      gtPool := gtPool - {m.gtIdx};
    }
    if |prPool| == 0 || |gtPool| == 0 {
      NoPairNoFault(preds, gts, prPool, gtPool);
    }
    r := Ok(matches);
  }

  lemma DegenerateInPools(preds: seq<Prediction>, gts: seq<GroundTruth>, prPool: set<nat>, gtPool: set<nat>)
    requires prPool <= Indices(|preds|) && gtPool <= Indices(|gts|)
    ensures HasDegeneratePairIn(preds, gts, prPool, gtPool) ==> HasDegeneratePair(preds, gts)
  {
  }

  lemma NoPairNoFault(preds: seq<Prediction>, gts: seq<GroundTruth>, prPool: set<nat>, gtPool: set<nat>)
    requires prPool == {} || gtPool == {}
    ensures !HasDegeneratePairIn(preds, gts, prPool, gtPool)
  {
  }

  lemma StopBelowThreshold(preds: seq<Prediction>, gts: seq<GroundTruth>, iouThreshold: real,
                           prPool: set<nat>, gtPool: set<nat>, m: Match)
    requires IsFirstMax(preds, gts, prPool, gtPool, m.prIdx, m.gtIdx)
    requires Records(preds, gts, m)
    requires m.iou < iouThreshold
    ensures Exhausted(preds, gts, iouThreshold, prPool, gtPool)
  {
    assert PairIou(preds, gts, m.prIdx, m.gtIdx) == m.iou;
  }

  lemma StepsExtend(preds: seq<Prediction>, gts: seq<GroundTruth>, iouThreshold: real, ms: seq<Match>, m: Match)
    requires forall k :: 0 <= k < |ms| ==> StepOk(preds, gts, iouThreshold, ms, k)
    requires IsFirstMax(preds, gts, PrPool(|preds|, ms), GtPool(|gts|, ms), m.prIdx, m.gtIdx)
    requires Records(preds, gts, m) && m.iou >= iouThreshold
    ensures forall k :: 0 <= k < |ms + [m]| ==> StepOk(preds, gts, iouThreshold, ms + [m], k)
  {
    var next := ms + [m];
    forall k | 0 <= k < |next|
      ensures StepOk(preds, gts, iouThreshold, next, k)
    {
      assert next[..k] == ms[..k];
      if k < |ms| {
        assert StepOk(preds, gts, iouThreshold, ms, k);
        assert next[k] == ms[k];
      } else {
        assert ms[..k] == ms;
      }
    }
  }

  lemma PoolsAfterMatch(n: nat, g: nat, ms: seq<Match>, m: Match)
    ensures PrPool(n, ms + [m]) == PrPool(n, ms) - {m.prIdx}
    ensures GtPool(g, ms + [m]) == GtPool(g, ms) - {m.gtIdx}
  {
    assert PrIdxs(ms + [m]) == PrIdxs(ms) + [m.prIdx];
    assert GtIdxs(ms + [m]) == GtIdxs(ms) + [m.gtIdx];
    ElemsAppend(PrIdxs(ms), m.prIdx);
    ElemsAppend(GtIdxs(ms), m.gtIdx);
  }

  // ---------------------------------------------------------------------
  // Properties of the greedy matching

  /** compute_iou faults somewhere exactly when some prediction and some
      ground truth both have zero area. */
  lemma DegeneratePairCharacterised(preds: seq<Prediction>, gts: seq<GroundTruth>)
    ensures HasDegeneratePair(preds, gts) <==>
              (exists i :: 0 <= i < |preds| && Area(preds[i].box) == 0) &&
              (exists j :: 0 <= j < |gts| && Area(gts[j].box) == 0)
  {
    if (exists i :: 0 <= i < |preds| && Area(preds[i].box) == 0) &&
       (exists j :: 0 <= j < |gts| && Area(gts[j].box) == 0) {
      var i :| 0 <= i < |preds| && Area(preds[i].box) == 0;
      var j :| 0 <= j < |gts| && Area(gts[j].box) == 0;
      assert i in Indices(|preds|) && j in Indices(|gts|) && Degenerate(preds[i], gts[j]);
    }
  }

  lemma PrefixIdxs(ms: seq<Match>, k: nat, l: nat)
    requires k < l <= |ms|
    ensures ms[k].prIdx in Elems(PrIdxs(ms[..l]))
    ensures ms[k].gtIdx in Elems(GtIdxs(ms[..l]))
  {
    assert PrIdxs(ms[..l])[k] == ms[k].prIdx;
    assert GtIdxs(ms[..l])[k] == ms[k].gtIdx;
  }

  /** The matches form a one-to-one partial matching between the
      prediction indices and the ground-truth indices. */
  lemma MatchingIsOneToOne(preds: seq<Prediction>, gts: seq<GroundTruth>, iouThreshold: real, ms: seq<Match>)
    requires IsGreedyMatching(preds, gts, iouThreshold, ms)
    ensures forall k :: 0 <= k < |ms| ==> ms[k].prIdx < |preds| && ms[k].gtIdx < |gts|
    ensures forall k, l :: 0 <= k < l < |ms| ==> ms[k].prIdx != ms[l].prIdx && ms[k].gtIdx != ms[l].gtIdx
    ensures |ms| <= |preds| && |ms| <= |gts|
  {
    forall k | 0 <= k < |ms|
      ensures ms[k].prIdx < |preds| && ms[k].gtIdx < |gts|
    {
      assert StepOk(preds, gts, iouThreshold, ms, k);
    }
    forall k, l | 0 <= k < l < |ms|
      ensures ms[k].prIdx != ms[l].prIdx && ms[k].gtIdx != ms[l].gtIdx
    {
      assert StepOk(preds, gts, iouThreshold, ms, l);
      PrefixIdxs(ms, k, l);
    }
    assert Distinct(PrIdxs(ms)) && Distinct(GtIdxs(ms));
    DistinctBelowLength(PrIdxs(ms), |preds|);
    DistinctBelowLength(GtIdxs(ms), |gts|);
  }

  lemma PoolsShrink(ms: seq<Match>, n: nat, g: nat, k: nat, l: nat)
    requires k <= l <= |ms|
    ensures PrPool(n, ms[..l]) <= PrPool(n, ms[..k])
    ensures GtPool(g, ms[..l]) <= GtPool(g, ms[..k])
  {
    forall i | 0 <= i < k
      ensures ms[i].prIdx in Elems(PrIdxs(ms[..l])) && ms[i].gtIdx in Elems(GtIdxs(ms[..l]))
    {
      PrefixIdxs(ms, i, l);
    }
    forall x | x in Elems(PrIdxs(ms[..k]))
      ensures x in Elems(PrIdxs(ms[..l]))
    {
      var i :| 0 <= i < k && PrIdxs(ms[..k])[i] == x;
    }
    forall x | x in Elems(GtIdxs(ms[..k]))
      ensures x in Elems(GtIdxs(ms[..l]))
    {
      var i :| 0 <= i < k && GtIdxs(ms[..k])[i] == x;
    }
  }

  /** Every accepted match has IoU at least the threshold, and the IoUs of
      successive matches never increase. */
  lemma MatchIousNonIncreasing(preds: seq<Prediction>, gts: seq<GroundTruth>, iouThreshold: real, ms: seq<Match>)
    requires IsGreedyMatching(preds, gts, iouThreshold, ms)
    ensures forall k :: 0 <= k < |ms| ==> ms[k].iou >= iouThreshold
    ensures forall k, l :: 0 <= k < l < |ms| ==> ms[l].iou <= ms[k].iou
  {
    forall k | 0 <= k < |ms|
      ensures ms[k].iou >= iouThreshold
    {
      assert StepOk(preds, gts, iouThreshold, ms, k);
    }
    forall k, l | 0 <= k < l < |ms|
      ensures ms[l].iou <= ms[k].iou
    {
      assert StepOk(preds, gts, iouThreshold, ms, k);
      assert StepOk(preds, gts, iouThreshold, ms, l);
      PoolsShrink(ms, |preds|, |gts|, k, l);
      assert PairIou(preds, gts, ms[l].prIdx, ms[l].gtIdx) == ms[l].iou;
      assert PairIou(preds, gts, ms[k].prIdx, ms[k].gtIdx) == ms[k].iou;
    }
  }

  /** The scan order breaks ties: at most one pair is the first maximum. */
  lemma FirstMaxUnique(preds: seq<Prediction>, gts: seq<GroundTruth>, prPool: set<nat>, gtPool: set<nat>,
                       p1: nat, g1: nat, p2: nat, g2: nat)
    requires IsFirstMax(preds, gts, prPool, gtPool, p1, g1)
    requires IsFirstMax(preds, gts, prPool, gtPool, p2, g2)
    ensures p1 == p2 && g1 == g2
  {
    if Before(p1, g1, p2, g2) {
      assert false;
    } else if Before(p2, g2, p1, g1) {
      assert false;
    }
  }

  lemma RecordedIou(preds: seq<Prediction>, gts: seq<GroundTruth>, m: Match)
    requires Records(preds, gts, m)
    ensures PairIou(preds, gts, m.prIdx, m.gtIdx) == m.iou
  {
  }

  /** A pair kept by the scan over exhausted pools is below the threshold. */
  lemma ExhaustedBlocksStep(preds: seq<Prediction>, gts: seq<GroundTruth>, iouThreshold: real,
                            prPool: set<nat>, gtPool: set<nat>, m: Match)
    requires Exhausted(preds, gts, iouThreshold, prPool, gtPool)
    requires IsFirstMax(preds, gts, prPool, gtPool, m.prIdx, m.gtIdx)
    requires Records(preds, gts, m)
    ensures m.iou < iouThreshold
  {
    assert PairIou(preds, gts, m.prIdx, m.gtIdx) == m.iou;
  }

  lemma {:induction false} PrefixesAgree(preds: seq<Prediction>, gts: seq<GroundTruth>, iouThreshold: real,
                                         ms1: seq<Match>, ms2: seq<Match>, k: nat)
    requires IsGreedyMatching(preds, gts, iouThreshold, ms1)
    requires IsGreedyMatching(preds, gts, iouThreshold, ms2)
    requires k <= |ms1| && k <= |ms2|
    ensures ms1[..k] == ms2[..k]
  {
    if k > 0 {
      PrefixesAgree(preds, gts, iouThreshold, ms1, ms2, k - 1);
      assert StepOk(preds, gts, iouThreshold, ms1, k - 1);
      assert StepOk(preds, gts, iouThreshold, ms2, k - 1);
      FirstMaxUnique(preds, gts, PrPool(|preds|, ms1[..k - 1]), GtPool(|gts|, ms1[..k - 1]),
                     ms1[k - 1].prIdx, ms1[k - 1].gtIdx, ms2[k - 1].prIdx, ms2[k - 1].gtIdx);
      assert ms1[k - 1] == ms2[k - 1];
      assert ms1[..k] == ms1[..k - 1] + [ms1[k - 1]];
      assert ms2[..k] == ms2[..k - 1] + [ms2[k - 1]];
    }
  }

  /** A greedy matching is not a proper prefix of another one. */
  lemma NoProperExtension(preds: seq<Prediction>, gts: seq<GroundTruth>, iouThreshold: real,
                          ms1: seq<Match>, ms2: seq<Match>)
    requires IsGreedyMatching(preds, gts, iouThreshold, ms1)
    requires IsGreedyMatching(preds, gts, iouThreshold, ms2)
    requires |ms1| <= |ms2| && ms2[..|ms1|] == ms1
    ensures |ms1| == |ms2|
  {
    if |ms1| < |ms2| {
      var k := |ms1|;
      assert StepOk(preds, gts, iouThreshold, ms2, k);
      ExhaustedBlocksStep(preds, gts, iouThreshold, PrPool(|preds|, ms1), GtPool(|gts|, ms1), ms2[k]);
      assert false;
    }
  }

  /** Matching is deterministic: the greedy loop's output is the only list
      of matches with the properties above. */
  lemma GreedyMatchingIsUnique(preds: seq<Prediction>, gts: seq<GroundTruth>, iouThreshold: real,
                               ms1: seq<Match>, ms2: seq<Match>)
    requires IsGreedyMatching(preds, gts, iouThreshold, ms1)
    requires IsGreedyMatching(preds, gts, iouThreshold, ms2)
    ensures ms1 == ms2
  {
    if |ms1| <= |ms2| {
      PrefixesAgree(preds, gts, iouThreshold, ms1, ms2, |ms1|);
      assert ms1[..|ms1|] == ms1;
      NoProperExtension(preds, gts, iouThreshold, ms1, ms2);
      assert ms2[..|ms2|] == ms2;
    } else {
      PrefixesAgree(preds, gts, iouThreshold, ms1, ms2, |ms2|);
      assert ms2[..|ms2|] == ms2;
      NoProperExtension(preds, gts, iouThreshold, ms2, ms1);
    }
  }

  /** With the threshold at 1.0 and no pair covering exactly the same
      pixels, nothing is matched. */
  lemma NoPerfectPairNoMatch(preds: seq<Prediction>, gts: seq<GroundTruth>, iouThreshold: real, ms: seq<Match>)
    requires IsGreedyMatching(preds, gts, iouThreshold, ms)
    requires iouThreshold >= 1.0
    requires forall p, g :: 0 <= p < |preds| && 0 <= g < |gts| ==> PairIou(preds, gts, p, g) < 1.0
    ensures ms == []
  {
    if ms != [] {
      assert StepOk(preds, gts, iouThreshold, ms, 0);
      RecordedIou(preds, gts, ms[0]);
      assert false;
    }
  }
}
