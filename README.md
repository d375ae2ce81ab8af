# PCB component detection: evaluation and label filtering, in Dafny

This project models the detection-evaluation logic of a YOLO-based PCB
component detector and proves properties of it. The detector has eleven
component classes (Chip, CSolder, 2sideIC, SOD, Circle, 4sideIC, Tantalum,
BGA, MELF, Crystal, Array). The model covers three parts:

- **Greedy evaluation** (`scripts/2_1_coco_evaluation/3_new_eval_iou0.75.py`):
  - `compute_iou`, the epsilon-guarded IoU (`Geometry.GuardedIou`).
  - `match_boxes`, the greedy one-to-one matcher (`Matching`).
  - The statistics loop of `evaluate_map` (`Evaluation`). It produces the overall totals, the miss ratio, and the (total, matched, rate) rows per area bucket and per class.
- **Miss summary** (`scripts/2_1_coco_evaluation/visualize.py`):
  - `compute_iou`, the clamped IoU (`Geometry.ClampedIou`).
  - The grouping and miss-counting loops of `visualize_and_print_summary` (`Dataset.GroupByImage`, `MissSummary`). A ground truth counts as missed when no prediction of its image reaches the threshold, even a prediction that is close to another ground truth.
- **Label conversion** (`scripts/1_for_normal/1_1_convert_json_to_11_class.py`):
  - The `category_map` literal (`Categories`).
  - The shape filter of `process_json_files` (`LabelFilter`).

How the model represents the program:

- **Coordinates** are exact `real`s. The guard `1e-7` is the real constant `Geometry.Eps`.
- **Annotations** are `Dataset.Annotation(imageId, categoryId, bbox)`.
- **The counting dicts** (`class_total`, `class_matched`, `missed_classes`) are insertion-ordered association lists (`Counters.Counter`). The order in which the scripts print them is kept.
- **The region dicts** are maps from `Evaluation.Region`.
- **The converter's JSON file** is the class `LabelFilter.LabelFile`. Its `shapes` field is reassigned in place.
- **The algorithms are methods** with loops, as in the source: `MatchBoxes`, `EvaluateMap`, `CountImage`, `SummarizeMisses`, `CountMisses`, `MaxIouOf`, `GroupByImage` and `LabelFile.ProcessShapes`. `MatchBoxes`, `EvaluateMap`, `SummarizeMisses`, `CountMisses`, `MaxIouOf`, `GroupByImage` and `LabelFile.ProcessShapes` are each proved equal to a specification function. The loop-body methods `CountOne` and `CountImage` are instead proved to keep `Evaluation.Tracks`, the relation between the four dicts and the counts of the outcomes seen so far. The properties are then lemmas about the specification functions.
- **What comes from outside is a parameter**:
  - the loaded image ids;
  - the annotation lists;
  - the categories list;
  - the threshold.

## Model

| member | source | states |
|---|---|---|
| `Geometry.GuardedIou` | scripts/2_1_coco_evaluation/3_new_eval_iou0.75.py:11-29 | the guarded IoU always lies in [0, 1] |
| `Geometry.GuardedIouNoOverlap` | scripts/2_1_coco_evaluation/3_new_eval_iou0.75.py:15-21 | boxes that are disjoint or meet only at an edge or corner score 0 |
| `Geometry.GuardedIouPositive` | scripts/2_1_coco_evaluation/3_new_eval_iou0.75.py:20-26 | the score is positive exactly when the boxes overlap and the union reaches 1e-7 |
| `Geometry.GuardedIouIsRatio` | scripts/2_1_coco_evaluation/3_new_eval_iou0.75.py:23-29 | a positive score is intersection over union (the `min(·, 1)` clamp never bites) |
| `Geometry.GuardedIouSymmetric` | scripts/2_1_coco_evaluation/3_new_eval_iou0.75.py:11-29 | the score does not depend on the order of the two boxes |
| `Geometry.GuardedIouSelf` | scripts/2_1_coco_evaluation/3_new_eval_iou0.75.py:15-29 | a box against itself scores 1 exactly when its width and height are positive and its area is at least 1e-7 |
| `Geometry.OffsetExample` | scripts/2_1_coco_evaluation/3_new_eval_iou0.75.py:11-29 | two 10x10 boxes one pixel apart score 81/119, which passes a 0.5 threshold |
| `Geometry.ClampedIouNoOverlap` | scripts/2_1_coco_evaluation/visualize.py:23-29 | the clamped intersection is 0 and so is the IoU when boxes only touch or are disjoint |
| `Geometry.ClampedInterBounds` | scripts/2_1_coco_evaluation/visualize.py:23-33 | for non-negative widths and heights the clamped intersection is at least 0 and at most either area |
| `Geometry.ClampedIouBounds` | scripts/2_1_coco_evaluation/visualize.py:31-36 | for non-negative widths and heights the clamped IoU lies in [0, 1], the zero-union case included |
| `Geometry.ClampedIouSymmetric` | scripts/2_1_coco_evaluation/visualize.py:14-36 | the clamped IoU is symmetric |
| `Geometry.ClampedIouSelf` | scripts/2_1_coco_evaluation/visualize.py:14-36 | a well-formed box against itself scores 1 exactly when it has positive width and height |
| `Geometry.IousAgree` | scripts/2_1_coco_evaluation/visualize.py:14-36 | wherever the guarded IoU is positive, the clamped IoU equals it |
| `Matching.BestAmong` | scripts/2_1_coco_evaluation/3_new_eval_iou0.75.py:34-42 | the inner loop's choice is -1 exactly when no available prediction has positive IoU; otherwise it is available, maximal, and strictly better than every earlier available one |
| `Matching.GreedyMatch` | scripts/2_1_coco_evaluation/3_new_eval_iou0.75.py:31-46 | the result is one-to-one: equal sizes, every gt index in range, every prediction index in range |
| `Matching.BestIsUnique` | scripts/2_1_coco_evaluation/3_new_eval_iou0.75.py:36-42 | the best-prediction characterisation determines one index: ties go to the lowest index |
| `Matching.MatchedHasPartner` | scripts/2_1_coco_evaluation/3_new_eval_iou0.75.py:40-45 | every matched ground truth has a consumed partner whose IoU is positive and at least the threshold |
| `Matching.MatchedIsSettledAtTurn` | scripts/2_1_coco_evaluation/3_new_eval_iou0.75.py:33-45 | whether ground truth i is matched is decided at its own turn; later ground truths never change it |
| `Matching.ConsumedStays` | scripts/2_1_coco_evaluation/3_new_eval_iou0.75.py:36-45 | a prediction consumed by an earlier ground truth stays consumed |
| `Matching.TurnOf` | scripts/2_1_coco_evaluation/3_new_eval_iou0.75.py:34-45 | with the predictions consumed so far, ground truth i is matched exactly when its best free prediction (BestAmong) exists and reaches the threshold, and then it consumes exactly that prediction |
| `Matching.UnmatchedHadNoCandidate` | scripts/2_1_coco_evaluation/3_new_eval_iou0.75.py:40-45 | an unmatched ground truth had, at its turn, no free prediction with positive IoU at or above the threshold |
| `Matching.EmptyMatchesNothing` | scripts/2_1_coco_evaluation/3_new_eval_iou0.75.py:31-46 | no ground truths or no predictions give two empty sets |
| `Matching.TieGoesToFirst` | scripts/2_1_coco_evaluation/3_new_eval_iou0.75.py:36-45 | of two identical predictions the first is taken, and the second stays free for the next ground truth |
| `Matching.BestPrediction` | scripts/2_1_coco_evaluation/3_new_eval_iou0.75.py:34-42 | the inner loop ends holding BestAmong over all predictions, with its IoU, or -1 and 0.0 |
| `Matching.MatchBoxes` | scripts/2_1_coco_evaluation/3_new_eval_iou0.75.py:31-46 | the nested loops compute GreedyMatch of the boxes alone, so category ids play no part; the two sets have equal size |
| `Categories.TableIsBijective` | scripts/1_for_normal/1_1_convert_json_to_11_class.py:7-19 | the eleven keys are distinct and the values are 0 to 10 in order |
| `Categories.ToMapLookup` | scripts/1_for_normal/1_1_convert_json_to_11_class.py:7-19 | a dict literal with distinct keys maps each key to its value and has no other key |
| `Categories.InvertLookup` | scripts/2_1_coco_evaluation/3_new_eval_iou0.75.py:78 | inverting pairs with distinct values maps each value back to its key and invents none |
| `Categories.CategoryMapInverts` | scripts/2_1_coco_evaluation/3_new_eval_iou0.75.py:65-78 | `category_id_to_name` has exactly the keys 0..10 and is the two-way inverse of `category_map`: the inversion loses nothing |
| `Categories.CategoryNamesListKeys` | scripts/2_1_coco_evaluation/3_new_eval_iou0.75.py:164 | `category_map.keys()` lists eleven distinct names, exactly the map's keys, including every name the inverted map yields |
| `Counters.Inc` | scripts/2_1_coco_evaluation/visualize.py:120 | `d[k] = d.get(k, 0) + 1` adds one under k, leaves every other key alone, and adds one to the sum of values |
| `Counters.IncKeys` | scripts/2_1_coco_evaluation/visualize.py:120 | an existing key keeps its place and a new key goes last, as in a Python dict; distinct keys stay distinct |
| `Dataset.OfImageSelects` | scripts/2_1_coco_evaluation/3_new_eval_iou0.75.py:109-110 | the per-image list comprehension selects only annotations of that image and is no longer than its input |
| `Dataset.OfImageMultiplicity` | scripts/2_1_coco_evaluation/visualize.py:67-75 | each annotation occurrence lands in the group of its own image and in no other |
| `Dataset.OfImageConcat` | scripts/2_1_coco_evaluation/visualize.py:67-75 | selection distributes over concatenation, so the relative order is kept |
| `Dataset.GroupByImage` | scripts/2_1_coco_evaluation/visualize.py:67-75 | the `setdefault(...).append` loop has one group per image id that occurs, and each group is that image's annotations in their original order |
| `Evaluation.RegionOf` | scripts/2_1_coco_evaluation/3_new_eval_iou0.75.py:133-140 | small exactly below 1024, medium exactly in [1024, 9216), large exactly from 9216 on |
| `Evaluation.Selected` | scripts/2_1_coco_evaluation/3_new_eval_iou0.75.py:125-141 | a class or bucket total never exceeds the number of ground truths |
| `Evaluation.SelectedMatched` | scripts/2_1_coco_evaluation/3_new_eval_iou0.75.py:144-146 | a matched count never exceeds its total |
| `Evaluation.Missed` | scripts/2_1_coco_evaluation/3_new_eval_iou0.75.py:120-122 | misses and matches add up to the ground truths |
| `Evaluation.Rate` | scripts/2_1_coco_evaluation/3_new_eval_iou0.75.py:160 | the detection rate is 0 for an empty row and in [0, 100] otherwise; with ground truths it is 100 exactly when all were matched |
| `Evaluation.MissRatio` | scripts/2_1_coco_evaluation/3_new_eval_iou0.75.py:152-154 | the miss ratio exists exactly when there are ground truths, lies in [0, 100], and is 100 when all were missed |
| `Evaluation.ImageMissed` | scripts/2_1_coco_evaluation/3_new_eval_iou0.75.py:120 | an image's misses are `len(gt_list) - len(matched_gt)` |
| `Evaluation.TrackStep` | scripts/2_1_coco_evaluation/3_new_eval_iou0.75.py:125-146 | one ground truth keeps the four dicts equal to the class and bucket counts of the outcomes so far |
| `Evaluation.CountOne` | scripts/2_1_coco_evaluation/3_new_eval_iou0.75.py:126-146 | the loop body skips an unknown category id and otherwise increments class and bucket totals, and their matched counts when matched |
| `Evaluation.CountImage` | scripts/2_1_coco_evaluation/3_new_eval_iou0.75.py:125-146 | after one image's loop the four dicts hold the counts of all outcomes so far |
| `Evaluation.EvaluateMap` | scripts/2_1_coco_evaluation/3_new_eval_iou0.75.py:99-168 | the whole statistics loop and the printed numbers equal Report of the outcomes of the loaded images |
| `Evaluation.PrintedReport` | scripts/2_1_coco_evaluation/3_new_eval_iou0.75.py:150-168 | dicts that hold the class and bucket counts of the outcomes yield exactly Report of those outcomes: the bucket rows, and one class row per `category_map` name read with default 0 |
| `Evaluation.MissedConcat` | scripts/2_1_coco_evaluation/3_new_eval_iou0.75.py:121-122 | the miss and match counts of two blocks of outcomes add |
| `Evaluation.SelectedConcat` | scripts/2_1_coco_evaluation/3_new_eval_iou0.75.py:125-146 | class and bucket counts of two blocks of outcomes add |
| `Evaluation.RegionsPartitionKnown` | scripts/2_1_coco_evaluation/3_new_eval_iou0.75.py:126-141 | every known-category ground truth falls in exactly one bucket: the three bucket totals (and matched counts) add up to the known-category ones |
| `Evaluation.ClassRowsStep` | scripts/2_1_coco_evaluation/3_new_eval_iou0.75.py:164-168 | over distinct names, one more outcome adds to the class rows exactly when its class is listed |
| `Evaluation.ClassesPartitionKnown` | scripts/2_1_coco_evaluation/3_new_eval_iou0.75.py:126-146 | the class rows add up to the known-category ground truths, so the sum of `class_total` equals the sum of `region_total` |
| `Evaluation.ReportConsistent` | scripts/2_1_coco_evaluation/3_new_eval_iou0.75.py:120-168 | the report: misses at most the total, which includes unknown categories; ratio only with ground truths; every row has matched at most total and a rate in [0, 100] that is 0 when empty; bucket rows and class rows each add up to the known-category ground truths |
| `Evaluation.ClassRowsShape` | scripts/2_1_coco_evaluation/3_new_eval_iou0.75.py:164-168 | one class row per name, in `category_map` order |
| `Evaluation.OutcomesConcat` | scripts/2_1_coco_evaluation/3_new_eval_iou0.75.py:99-146 | the outcomes of two image lists concatenate |
| `Evaluation.ImageOrderIrrelevant` | scripts/2_1_coco_evaluation/3_new_eval_iou0.75.py:99-168 | swapping two blocks of images gives the same report |
| `Evaluation.MissedIsGtMinusMatched` | scripts/2_1_coco_evaluation/3_new_eval_iou0.75.py:120-122 | `total_gt_boxes` counts every selected ground truth, and `total_missed_boxes` is that total minus the sum of `len(matched_gt)` |
| `Evaluation.SingleMissExample` | scripts/2_1_coco_evaluation/3_new_eval_iou0.75.py:99-154 | one ground truth and a far-away prediction give one miss out of one, a 100% miss ratio |
| `MissSummary.NatString` | scripts/2_1_coco_evaluation/visualize.py:119 | the decimal digits of `str(n)` are all digits with no leading zero |
| `MissSummary.DecimalStringRoundTrip` | scripts/2_1_coco_evaluation/visualize.py:119 | `str(cat_id)` reads back to the id, so unknown ids keep distinct names |
| `MissSummary.NameOfFirst` | scripts/2_1_coco_evaluation/visualize.py:119 | the name is that of the first category with the id, or `str(cat_id)` when no category has it |
| `MissSummary.MaxIou` | scripts/2_1_coco_evaluation/visualize.py:110-114 | `max_iou` starts at 0 and never drops below it |
| `MissSummary.MaxIouBounds` | scripts/2_1_coco_evaluation/visualize.py:110-114 | `max_iou` is at least every prediction's IoU, and either 0 or attained by a prediction |
| `MissSummary.MissedIff` | scripts/2_1_coco_evaluation/visualize.py:108-116 | a ground truth is missed exactly when the threshold is positive and no prediction of its image reaches it |
| `MissSummary.MissedOf` | scripts/2_1_coco_evaluation/visualize.py:108-116 | predictions may be reused, and still `missed_count <= len(gt_list)` |
| `MissSummary.MissedOfSelects` | scripts/2_1_coco_evaluation/visualize.py:109-116 | the misses are exactly the ground truths of the list whose maximum IoU stays below the threshold |
| `MissSummary.MaxIouOf` | scripts/2_1_coco_evaluation/visualize.py:110-114 | the innermost loop computes MaxIou |
| `MissSummary.CountMisses` | scripts/2_1_coco_evaluation/visualize.py:108-120 | the per-ground-truth loop counts the misses of the image and adds each one under its name |
| `MissSummary.CountByNameConcat` | scripts/2_1_coco_evaluation/visualize.py:117-120 | counting two blocks of misses in sequence counts their concatenation |
| `MissSummary.SummarizeMisses` | scripts/2_1_coco_evaluation/visualize.py:66-143 | the grouping, the image loop and the final percentage compute Summarize of the loaded images |
| `MissSummary.NoPredictionsAllMissed` | scripts/2_1_coco_evaluation/visualize.py:110-116 | with a positive threshold and no predictions, every ground truth of the image is missed |
| `MissSummary.NoPredictionsSummary` | scripts/2_1_coco_evaluation/visualize.py:100-123 | with a positive threshold and an empty prediction file, the misses are all loaded ground truths |
| `MissSummary.MissedGtsBound` | scripts/2_1_coco_evaluation/visualize.py:122-123 | `total_missed_boxes <= total_gt_boxes` |
| `MissSummary.CountByNameGet` | scripts/2_1_coco_evaluation/visualize.py:117-120 | `missed_classes[name]` is the number of misses named `name`, and the values add up to the number of misses |
| `MissSummary.CountByNameKeys` | scripts/2_1_coco_evaluation/visualize.py:117-120 | the keys of `missed_classes` are distinct and are exactly the names of the misses, unknown ids included under `str(cat_id)` |
| `MissSummary.SummaryConsistent` | scripts/2_1_coco_evaluation/visualize.py:117-143 | misses at most the total; per-class values sum to `total_missed_boxes` with one entry per name; the percentage exists exactly when `total_gt_boxes > 0` and lies in [0, 100] |
| `MissSummary.MatchedNotMissed` | scripts/2_1_coco_evaluation/visualize.py:109-116 | a ground truth that `match_boxes` matches is never missed by the summary, for any threshold |
| `MissSummary.MissedAtMostUnmatched` | scripts/2_1_coco_evaluation/visualize.py:108-116 | per image, the summary misses no more ground truths than the greedy matcher leaves unmatched |
| `MissSummary.SummaryAtMostEvaluation` | scripts/2_1_coco_evaluation/visualize.py:82-123 | on the same images and threshold, both scripts count the same ground truths, and the summary reports at most the evaluation's misses |
| `LabelFilter.Kept` | scripts/1_for_normal/1_1_convert_json_to_11_class.py:31-39 | `new_shapes` is never longer than the input shapes |
| `LabelFilter.KeptExactly` | scripts/1_for_normal/1_1_convert_json_to_11_class.py:32-39 | the kept shapes are exactly, and in order, the stamped shapes at the positions whose label is a key of the map |
| `LabelFilter.KeptStamped` | scripts/1_for_normal/1_1_convert_json_to_11_class.py:36-39 | every kept shape has `category_id = category_map[label]`, with label and other keys from an input shape |
| `LabelFilter.KeptConcat` | scripts/1_for_normal/1_1_convert_json_to_11_class.py:32-39 | filtering a concatenation filters each part |
| `LabelFilter.KeptIdempotent` | scripts/1_for_normal/1_1_convert_json_to_11_class.py:31-41 | converting an already converted file changes nothing |
| `LabelFilter.ElevenClassIds` | scripts/1_for_normal/1_1_convert_json_to_11_class.py:7-19 | with the eleven-class map, every stamped id is in 0..10 and the evaluation's inverted map turns it back into the label |
| `LabelFilter.LabelFile.ProcessShapes` | scripts/1_for_normal/1_1_convert_json_to_11_class.py:31-41 | `data["shapes"]` becomes the filtered `data.get("shapes", [])`, so a missing key acts as empty; the rest of the file is unchanged |

## Left out

- File system, JSON and image I/O are not modelled. This covers `load_json`, `json.dump`, `os.listdir`, `os.makedirs`, `cv2.imread`/`imwrite`, `draw_boxes` and `overlay_text`.
- The images that are skipped because their file is missing or unreadable are I/O. Both loops instead take, as a parameter, the ids of the images that were loaded, in `image_id_to_file` order.
- `evaluate_coco` (pycocotools) is a foreign library call and is not modelled, nor is `scripts/test/1.py`.
- Printing is not modelled: the `:.2f` formatting, the Korean labels and the per-image overlay text. The model states the numbers that are printed: `Evaluation.Evaluation` and `MissSummary.Summary`.
- Floating point is not modelled. Coordinates and IoUs are exact reals, so the `min(iou, 1.0)` clamp never has to absorb rounding.
- Boxes are four numbers. Malformed JSON is not modelled: a missing key, or a `bbox` that is not four numbers, raises a Python error and has no counterpart in the model. A shape without `"label"` is the same case.
- The statistics loop's `defaultdict` reads are not modelled as inserting zero entries. When the class rows are printed, the model reads the count with a default of 0, as in `d.get(k, 0)`.
- LabelFilter.LabelFile.ProcessShapes works on shape values. In the source, each kept shape dict is updated in place, so the old shapes list, through aliasing, also sees the `category_id`. That list is dropped at once, so nothing observes the difference.
  - JSON values other than the shapes are uninterpreted strings.
  - The loop over the `.json` files of a folder is I/O.
- The augmentation pipeline, the YOLO-to-pixel conversion, and the split and plotting scripts are outside this model. This includes `get_coco_size_label` of `1_3_(x)visualizer.py`. It buckets by the area `w * h` against `32**2` and `96**2`, which are the same 1024 and 9216 thresholds as `Evaluation.RegionOf`, but it only labels drawn boxes.
- Matching.GreedyMatch: monotonicity in the threshold is not proved. That property says a higher threshold never gives more matches. A higher threshold leaves different predictions free for the later ground truths, so they may choose differently. A proof would need an exchange argument over the whole sequence of consumed sets, and that proof cost is not paid here. What is proved is each ground truth's turn in both directions: `Matching.TurnOf` and `Matching.UnmatchedHadNoCandidate`.
