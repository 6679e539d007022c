# Greedy box matcher and annotation converter, in Dafny

This project models two batch utilities of a licence-plate detection
workflow and proves properties of the model.

- **The evaluator** (`compare_prediction_and_ground_truth.py`).
  - `compute_box_area` counts inclusive pixels and clamps inverted boxes to zero.
  - `compute_iou` returns `(iou, inter_area, union_area)`.
  - `compare_precition_and_ground_truth` drops predictions below a confidence threshold.
    It then matches predictions to ground truths greedily and globally: each round takes the first
    pair of maximal IoU over the remaining pools, and matching stops at the first round whose
    maximum is below the IoU threshold. Finally it adds the areas and counts into a summary.
- **The converter** (`scripts/convert_open_image_annotations_v2.py`).
  - `switcher` picks the size map of a split.
  - `convert_row` turns a normalized open-image CSV row into `[path, x_min, y_min, x_max, y_max, class_id]`.
  - The label filter of `convert_annotations` keeps plate rows only.
  - `group_by_image_id` merges rows that share an image path into one line.

Modules, one per component:

- `Results`: the `Result` and `Option` types. The Python exceptions the code can raise become
  `Err(ZeroDivisionError | IndexError | TypeError | KeyError)`.
- `Seqs`: generic facts about index sets, distinct sequences and sums.
- `Geometry`: `Box`, `Area`, `Intersection`, `ComputeIou`.
- `Matcher`: the scan and the greedy loop as methods. Their specification is the predicate
  `IsGreedyMatching`, which says:
  - every match is the first maximal pair over the pools left by the earlier matches;
  - every match reaches the threshold and records the prediction's confidence and `compute_iou` of its pair;
  - the loop ended because a pool was empty or every remaining pair was below the threshold;
  - `compute_iou` never faulted.
  The matcher is proved to be one-to-one, to produce non-increasing IoUs, and to be the ONLY list
  with these properties, so matching is deterministic.
- `Evaluation`: the confidence filter, the accumulator loops and `Compare`, the whole function.
- `Grouping`: `group_by_image_id`. The Python dict is a map plus its insertion order.
- `Converter`: `switcher`, `convert_row`, the filter loop of `convert_annotations`.

Coordinates are unbounded `int`s. IoUs and confidences are exact `real`s.
Python's `float()` of a CSV field is the function parameter `toFloat`.
`'%d' % (v * dim)` is truncation toward zero of the exact product (`Trunc`, `Denorm`), printed in
decimal by `IntToString`.

Three behaviours of the code differ from what a reader might expect; the model does what the code does:

- Output column order of `convert_row`. A reader might expect the pixel box in the order of the
  source columns, x_min, x_max, y_min, y_max. For an image of 100 x 200 pixels with normalized
  x 0.1..0.2 and y 0.3..0.4, that order gives 10, 20, 60, 80. The code reads x_min, x_max, y_min,
  y_max from fields 4..7 and writes them as `x_min, y_min, x_max, y_max`, so the row holds
  `10, 60, 20, 80` (`ConvertRowScenario`).
- An IoU with an empty union. A reader might expect IoU 0.0 when both boxes are empty. The code
  divides by the union and raises `ZeroDivisionError`. The model returns `Err(ZeroDivisionError)`
  in exactly those cases: inside `compute_iou` when a prediction and a ground truth are both
  empty, and in the final division when every box is empty.
- An unknown split name. `switcher` compares a string and returns `None` for any other mode, so
  the first `convert_row` raises `TypeError` on `image_filename not in None`.

## Model

| member | source | states |
|---|---|---|
| `Geometry.Area` | compare_prediction_and_ground_truth.py:37-38 | never negative; `(x_max-x_min+1)*(y_max-y_min+1)` when both extents are non-negative, 0 when either is inverted; positive exactly for a non-inverted box |
| `Geometry.ComputeIou` | compare_prediction_and_ground_truth.py:40-57 | faults (ZeroDivisionError) exactly when both boxes have zero area; otherwise inter is the area of the shared box and at most each area, union = area1 + area2 - inter is at least each area and positive, iou = inter / union and 0 <= iou <= 1 |
| `Geometry.IntersectionWithin` | compare_prediction_and_ground_truth.py:42-48 | the shared box has no more pixels than either box |
| `Geometry.IouSymmetric` | compare_prediction_and_ground_truth.py:40-57 | `compute_iou(a, b)` and `compute_iou(b, a)` give the same triple or the same fault |
| `Geometry.IouSelf` | compare_prediction_and_ground_truth.py:40-57 | a box of positive area against itself gives iou 1.0 and inter = union = its area |
| `Geometry.IouDisjoint` | compare_prediction_and_ground_truth.py:42-55 | boxes separated on one axis, not both empty, give inter 0 and iou 0.0 |
| `Matcher.FindFirstMax` | compare_prediction_and_ground_truth.py:76-88 | the nested scan over the pools in ascending (pr_idx, gt_idx) order with strict `>` faults exactly when the pools hold a pair of two empty boxes; otherwise it returns a pair of maximal IoU that no earlier pair reaches, with that prediction's conf and compute_iou's triple |
| `Matcher.GreedyMatch` | compare_prediction_and_ground_truth.py:69-97 | the while loop faults exactly when some prediction and some ground truth are both empty; otherwise its matches satisfy `IsGreedyMatching`: each is the first maximum over the pools left by the earlier ones, each reaches the threshold, and the loop stopped at an empty pool or at a round whose maximum is below the threshold |
| `Matcher.DegeneratePairCharacterised` | compare_prediction_and_ground_truth.py:53-55 | a faulting pair exists exactly when a zero-area prediction and a zero-area ground truth exist |
| `Matcher.MatchingIsOneToOne` | compare_prediction_and_ground_truth.py:71-97 | matched indices are in range, prediction indices pairwise distinct, ground-truth indices pairwise distinct, and there are at most min(#predictions, #ground truths) matches |
| `Matcher.MatchIousNonIncreasing` | compare_prediction_and_ground_truth.py:76-95 | every match has IoU at least the threshold and a later match never has a larger IoU than an earlier one |
| `Matcher.FirstMaxUnique` | compare_prediction_and_ground_truth.py:78-88 | the scan order breaks ties: only one pair of the pools is the first maximum |
| `Matcher.GreedyMatchingIsUnique` | compare_prediction_and_ground_truth.py:69-97 | two match lists that both satisfy `IsGreedyMatching` for the same inputs are equal: matching is deterministic |
| `Matcher.NoPerfectPairNoMatch` | compare_prediction_and_ground_truth.py:90-92 | with the IoU threshold at 1.0 and no pair of IoU 1.0, there are no matches |
| `Evaluation.FilterPredictions` | compare_prediction_and_ground_truth.py:62-67 | the loop builds exactly `Filtered(predictions, conf_threshold)` |
| `Evaluation.FilteredMembers` | compare_prediction_and_ground_truth.py:63-66 | a prediction survives the filter exactly when it is an input with conf >= conf_threshold; the filter never lengthens the list |
| `Evaluation.FilteredAppend` | compare_prediction_and_ground_truth.py:63-66 | the filter distributes over concatenation, so the kept predictions stay in input order |
| `Evaluation.FilteredEmpty` | compare_prediction_and_ground_truth.py:63-66 | nothing survives exactly when every confidence is below the threshold |
| `Evaluation.Compare` | compare_prediction_and_ground_truth.py:61-124 | iou_threshold defaults to 0.5 and conf_threshold to 0.3; faults exactly when a filtered prediction and a ground truth are both empty or all boxes are empty; otherwise the matches are the greedy matching of the filtered predictions, total_pred_area sums the filtered predictions, total_gt_area all ground truths, num_matches/num_preds/num_gts are the three lengths, and the summary iou is total_inter / (pred + gt - inter) with that union at least each total and 0 <= iou <= 1 |
| `Evaluation.SumInters` | compare_prediction_and_ground_truth.py:104-106 | the accumulator loop yields the sum of the matches' intersection counts |
| `Evaluation.TotalArea` | compare_prediction_and_ground_truth.py:108-114 | the accumulator loop yields the sum of compute_box_area over the boxes, used for the filtered predictions and for the ground truths |
| `Evaluation.SummaryBounds` | compare_prediction_and_ground_truth.py:104-116 | the summed intersection of the matches is non-negative and at most the summed predicted area and at most the summed ground-truth area |
| `Evaluation.AllBelowConfidence` | compare_prediction_and_ground_truth.py:61-110 | when every prediction is below conf_threshold there are no matches and total_pred_area is 0 |
| `Evaluation.IdenticalBoxScenario` | compare_prediction_and_ground_truth.py:61-97 | ground truth (0,0,9,9) and prediction 0.9 at (0,0,9,9) give exactly one match, with iou 1.0 and inter = union = 100 |
| `Evaluation.DisjointBoxScenario` | compare_prediction_and_ground_truth.py:61-97 | ground truth (0,0,9,9) and prediction 0.9 at (20,20,29,29) give no match at threshold 0.5 |
| `Evaluation.GreedyOrderScenario` | compare_prediction_and_ground_truth.py:69-97 | predictions (9,0,14,0) and (0,0,8,0) against ground truths (0,0,9,0) and (8,0,17,0) at threshold 0.5: the greedy loop first takes (1, 0) with iou 0.9, although (0, 1) with iou 0.6 comes earlier in scan order, then (0, 1) |
| `Evaluation.IdenticalBoxEvaluation` | compare_prediction_and_ground_truth.py:61-124 | with the default thresholds the identical-box input evaluates to one match and summary (iou 1.0, areas 100 and 100, counts 1, 1, 1) |
| `Evaluation.DisjointBoxEvaluation` | compare_prediction_and_ground_truth.py:61-124 | with the default thresholds the disjoint-box input evaluates to no match and summary (iou 0.0, areas 100 and 100, counts 0, 1, 1) |
| `Evaluation.GreedyOrderEvaluation` | compare_prediction_and_ground_truth.py:61-124 | with the default thresholds the crossed-box input evaluates to the two matches above and summary (iou 0.75 = 15 / 20, areas 15 and 20, counts 2, 2, 2) |
| `Converter.Switcher` | scripts/convert_open_image_annotations_v2.py:61-69 | the train, validation or test map for those three names, no map for any other mode |
| `Converter.ImageSize` | scripts/convert_open_image_annotations_v2.py:31-37 | the stored (width, height) of a known image file, (1, 1) for an unknown one |
| `Converter.Trunc` | scripts/convert_open_image_annotations_v2.py:39-42 | `'%d'` of a float truncates toward zero: the result is within one of x, on the side of zero |
| `Converter.Denorm` | scripts/convert_open_image_annotations_v2.py:39-42 | a coordinate in [0, 1] times a non-negative dimension lands in [0, dimension] |
| `Converter.NatToStringDigits` | scripts/convert_open_image_annotations_v2.py:39-44 | an emitted field is a decimal numeral: every character a digit, no leading zero for a positive value |
| `Converter.IntRoundTrip` | scripts/convert_open_image_annotations_v2.py:39-44 | reading an emitted decimal field back gives the integer that was printed |
| `Converter.ConvertRow` | scripts/convert_open_image_annotations_v2.py:29-45 | IndexError for an empty row or one with fewer than 8 fields, TypeError for an unknown mode, KeyError for an unmapped label; otherwise six fields: prefix + row[0] + '.jpg', the pixel box, and class id "0" |
| `Converter.ConvertRowBox` | scripts/convert_open_image_annotations_v2.py:39-45 | fields 1..4 read back as trunc(row[4]*w), trunc(row[6]*h), trunc(row[5]*w), trunc(row[7]*h): source columns x_min, x_max, y_min, y_max come out as x_min, y_min, x_max, y_max; with normalized inputs and a non-negative size they lie inside the image |
| `Converter.ConvertRowScenario` | scripts/convert_open_image_annotations_v2.py:29-45 | image 5 of size (100, 200), row 0.1, 0.2, 0.3, 0.4 gives `["img/5.jpg", "10", "60", "20", "80", "0"]` |
| `Converter.ConvertAnnotations` | scripts/convert_open_image_annotations_v2.py:72-80 | filters and converts the rows with the loop, then groups them; the result is `ConvertedRows` followed by `GroupedLines` |
| `Converter.ConvertedRowsMeaning` | scripts/convert_open_image_annotations_v2.py:76-78 | the loop succeeds exactly when every row has field 2 and every row with a mapped label has 8 fields under a known mode; its output is convert_row of each kept row, in order |
| `Converter.KeptMembers` | scripts/convert_open_image_annotations_v2.py:76-78 | a row is converted exactly when its row[2] is a key of the label map |
| `Converter.KeptAppend` | scripts/convert_open_image_annotations_v2.py:76-78 | the label filter distributes over concatenation, so it keeps relative order |
| `Converter.ConvertedRowsGroup` | scripts/convert_open_image_annotations_v2.py:76-80 | converted rows always group without error, into one line per image path, with as many boxes in total as rows kept |
| `Grouping.GroupByImageId` | scripts/convert_open_image_annotations_v2.py:49-58 | IndexError on a row without field 0; otherwise, for each path in first-encounter order, the line `path + ' ' + ' '.join(','.join(r[1:]))` over that path's rows in input order |
| `Grouping.LineStep` | scripts/convert_open_image_annotations_v2.py:53-56 | one more row appends `' ' + box` to its own path's line (or starts it as `path + ' ' + box`) and leaves every other line unchanged |
| `Grouping.FirstSeenPaths` | scripts/convert_open_image_annotations_v2.py:50-58 | the first-encounter list of paths is duplicate-free, holds exactly the distinct row[0] values, and a path is in it exactly when it has boxes |
| `Grouping.EntriesAppend` | scripts/convert_open_image_annotations_v2.py:51-56 | the boxes of a path distribute over concatenation of the rows, so they keep input order |
| `Grouping.BoxCountIsRowCount` | scripts/convert_open_image_annotations_v2.py:51-56 | the boxes over all output lines number exactly the input rows |
| `Grouping.GroupedLinesProperties` | scripts/convert_open_image_annotations_v2.py:49-58 | as many lines as distinct image paths; every path has its line and every line is that of a path; boxes total the rows |

## Left out

- File parsing and I/O: `parse_ground_truth_file`, `parse_prediction_file`, `csv.reader`, opening and
  writing files, the `__main__` blocks with their hard-coded paths and the `'{:.2f}'` summary line.
  The model takes the parsed lists; convert_annotations returns the lines it would write.
- `construct_image_id_to_size_dict`: it lists a directory and opens images with PIL. The three size maps are an input (`SizeIndexes`).
- `float()` of a CSV field is the parameter `toFloat`. It is total, so a `ValueError` on a non-numeric field is not modelled.
- IEEE-754 behaviour is not modelled. IoUs, confidences and products are exact reals, so float rounding in the division and in the `>`/`<`/`>=` comparisons, which may break ties differently, is not captured.
- Python set iteration order of the index pools is fixed as ascending index order (the scan walks 0..n-1 and tests membership), not CPython hashing.
- Output line order of `group_by_image_id`: the model returns first-encounter order (the order of an insertion-ordered dict). Under Python 2 the order of `dict.values()` is unspecified. `GroupedLinesProperties` states the order-free facts: one line per path, each path's line present.
- `print` diagnostics, including the one for an image missing from the size map and the `'Fatal Error!!!!'` message. The unknown mode is modelled as `None` from `Switcher` and then `TypeError`.
- The `mode` argument of `group_by_image_id` is only printed, so `GroupByImageId` does not take it.
- `copy.deepcopy` of the match record: matches are immutable values here, so there is no aliasing to model.
