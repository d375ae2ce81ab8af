/**
  The summary of `visualize_and_print_summary`: annotations are grouped by
  image, and a ground truth counts as missed when no prediction of its image,
  whether or not another ground truth already "used" it, reaches the
  threshold under the clamped IoU. Misses are counted overall and per class
  name.
 */
module MissSummary {
  import opened Wrappers
  import opened Geometry
  import opened Dataset
  import opened Counters
  import opened Matching
  import opened Evaluation

  // ---------------------------------------------------------------------------
  // str(cat_id)

  /** The digit character of d. */
  function DigitChar(d: nat): (c: char)
    requires d < 10
    ensures '0' <= c <= '9' && c as int - '0' as int == d
  {
    ('0' as int + d) as char
  }

  /** The decimal digits of n, most significant first, without leading zeros. */
  function NatString(n: nat): (s: string)
    ensures |s| >= 1
    ensures forall i :: 0 <= i < |s| ==> '0' <= s[i] <= '9'
    ensures |s| > 1 ==> s[0] != '0'
  {
    if n < 10 then [DigitChar(n)] else NatString(n / 10) + [DigitChar(n % 10)]
  }

  /** Python's `str` of an int: a minus sign before the digits of a negative number. */
  function DecimalString(n: int): string {
    if n < 0 then "-" + NatString(-n) else NatString(n)
  }

  /** The value of a string of decimal digits. */
  function DigitsValue(s: string): int {
    if s == [] then 0 else DigitsValue(s[..|s| - 1]) * 10 + (s[|s| - 1] as int - '0' as int)
  }

  /** Reading back the digits of `str(n)`, the sign first, gives n. */
  function ParseDecimal(s: string): int {
    if |s| > 0 && s[0] == '-' then -DigitsValue(s[1..]) else DigitsValue(s)
  }

  lemma {:induction false} NatStringValue(n: nat)
    ensures DigitsValue(NatString(n)) == n
  {
    if n >= 10 {
      NatStringValue(n / 10);
      var s := NatString(n);
      assert s[..|s| - 1] == NatString(n / 10);
    }
  }

  /** `str` loses nothing: distinct ids get distinct names. */
  lemma DecimalStringRoundTrip(n: int)
    ensures ParseDecimal(DecimalString(n)) == n
  {
    var s := DecimalString(n);
    if n < 0 {
      NatStringValue(-n);
      assert s[0] == '-' && s[1..] == NatString(-n);
    } else {
      NatStringValue(n);
      assert s == NatString(n) && '0' <= s[0] <= '9';
    }
  }

  // ---------------------------------------------------------------------------
  // Class names

  /** An entry of `gt_data["categories"]`. */
  datatype Category = Category(id: int, name: string)

  /**
    `next((cat["name"] for cat in categories if cat["id"] == id), str(id))`:
    the name of the first category with that id, or the id in decimal when
    there is none.
   */
  function NameOf(cats: seq<Category>, id: int): string {
    if cats == [] then DecimalString(id)
    else if cats[0].id == id then cats[0].name
    else NameOf(cats[1..], id)
  }

  /**
    NameOf picks the first category listing the id; an id no category lists
    is still named, by its decimal form.
   */
  lemma {:induction false} NameOfFirst(cats: seq<Category>, id: int)
    ensures (exists i :: 0 <= i < |cats| && cats[i].id == id)
      ==> exists i :: 0 <= i < |cats| && cats[i].id == id && NameOf(cats, id) == cats[i].name
            && forall j :: 0 <= j < i ==> cats[j].id != id
    ensures (forall i :: 0 <= i < |cats| ==> cats[i].id != id) ==> NameOf(cats, id) == DecimalString(id)
  {
    if cats != [] && cats[0].id != id {
      NameOfFirst(cats[1..], id);
      assert forall i :: 1 <= i < |cats| ==> cats[i] == cats[1..][i - 1];
      if exists i :: 0 <= i < |cats| && cats[i].id == id {
        var i :| 0 <= i < |cats| && cats[i].id == id;
        assert cats[1..][i - 1].id == id;
        var i' :| 0 <= i' < |cats| - 1 && cats[1..][i'].id == id && NameOf(cats[1..], id) == cats[1..][i'].name
          && forall j :: 0 <= j < i' ==> cats[1..][j].id != id;
        assert cats[i' + 1].id == id && NameOf(cats, id) == cats[i' + 1].name;
      }
    }
  }

  // ---------------------------------------------------------------------------
  // Misses

  /** `max_iou` after the inner loop: the largest clamped IoU of g with a prediction, and at least 0. */
  function MaxIou(g: Box, preds: seq<Box>): (m: real)
    ensures m >= 0.0
  {
    if preds == [] then 0.0
    else
      var m := MaxIou(g, preds[..|preds| - 1]);
      var v := ClampedIou(g, preds[|preds| - 1]);
      if v > m then v else m
  }

  /** `max_iou` bounds every prediction's IoU and is either 0 or one of them. */
  lemma {:induction false} MaxIouBounds(g: Box, preds: seq<Box>)
    ensures forall k :: 0 <= k < |preds| ==> ClampedIou(g, preds[k]) <= MaxIou(g, preds)
    ensures MaxIou(g, preds) == 0.0 || exists k :: 0 <= k < |preds| && ClampedIou(g, preds[k]) == MaxIou(g, preds)
  {
    if preds != [] {
      var init := preds[..|preds| - 1];
      MaxIouBounds(g, init);
      assert forall k :: 0 <= k < |init| ==> init[k] == preds[k];
    }
  }

  /** `max_iou < iou_threshold`. */
  predicate IsMissed(g: Box, preds: seq<Box>, threshold: real) {
    MaxIou(g, preds) < threshold
  }

  /**
    A ground truth is missed exactly when the threshold is positive and no
    prediction at all reaches it; the predictions other ground truths were
    close to still count.
   */
  lemma MissedIff(g: Box, preds: seq<Box>, threshold: real)
    ensures IsMissed(g, preds, threshold) <==>
      threshold > 0.0 && forall k :: 0 <= k < |preds| ==> ClampedIou(g, preds[k]) < threshold
  {
    MaxIouBounds(g, preds);
  }

  /** The missed ground truths of one image, in list order. */
  function MissedOf(gtList: seq<Annotation>, preds: seq<Box>, threshold: real): (missed: seq<Annotation>)
    ensures |missed| <= |gtList|
  {
    if gtList == [] then []
    else
      var g := gtList[|gtList| - 1];
      MissedOf(gtList[..|gtList| - 1], preds, threshold) + (if IsMissed(g.bbox, preds, threshold) then [g] else [])
  }

  /** The misses are exactly the ground truths whose best IoU stays below the threshold. */
  lemma {:induction false} MissedOfSelects(gtList: seq<Annotation>, preds: seq<Box>, threshold: real)
    ensures forall a :: a in MissedOf(gtList, preds, threshold) <==> a in gtList && IsMissed(a.bbox, preds, threshold)
  {
    if gtList != [] {
      var init := gtList[..|gtList| - 1];
      MissedOfSelects(init, preds, threshold);
      assert gtList == init + [gtList[|gtList| - 1]];
    }
  }

  /** The missed ground truths of the loaded images, image after image. */
  function MissedGts(images: seq<int>, gts: seq<Annotation>, preds: seq<Annotation>, threshold: real): seq<Annotation> {
    if images == [] then []
    else
      var id := images[|images| - 1];
      MissedGts(images[..|images| - 1], gts, preds, threshold)
        + MissedOf(OfImage(gts, id), BoxesOf(OfImage(preds, id)), threshold)
  }

  /** `missed_classes` after the misses ms have been counted into acc, one by one. */
  function CountByName(acc: Counter, ms: seq<Annotation>, cats: seq<Category>): Counter {
    if ms == [] then acc
    else Inc(CountByName(acc, ms[..|ms| - 1], cats), NameOf(cats, ms[|ms| - 1].categoryId))
  }

  /** The numbers the summary prints; the percentage is "N/A" (None) without ground truths. */
  datatype Summary = Summary(totalGt: nat, totalMissed: nat, missedPercent: Option<real>, missedClasses: Counter)

  /** The summary of the loaded images. */
  function Summarize(images: seq<int>, cats: seq<Category>, gts: seq<Annotation>, preds: seq<Annotation>, threshold: real): Summary {
    var total := |LoadedGts(images, gts)|;
    var missed := MissedGts(images, gts, preds, threshold);
    Summary(total, |missed|, MissRatio(|missed|, total), CountByName([], missed, cats))
  }

  // ---------------------------------------------------------------------------
  // The loops of visualize_and_print_summary

  /** The innermost loop: the running maximum of the IoUs, from 0. */
  method MaxIouOf(g: Box, predList: seq<Annotation>) returns (maxIou: real)
    ensures maxIou == MaxIou(g, BoxesOf(predList))
  {
    ghost var preds := BoxesOf(predList);
    maxIou := 0.0;
    for k := 0 to |predList|
      invariant maxIou == MaxIou(g, preds[..k])
    {
      var iou := ClampedIou(g, predList[k].bbox);
      assert preds[..k + 1][..k] == preds[..k];
      if iou > maxIou {
        maxIou := iou;
      }
    }
    assert preds[..|predList|] == preds;
  }

  /** The per-ground-truth loop of one image: it counts the misses and adds each one to its class. */
  method CountMisses(gtList: seq<Annotation>, predList: seq<Annotation>, threshold: real,
                     cats: seq<Category>, missedClasses0: Counter)
    returns (missedCount: nat, missedClasses: Counter)
    ensures missedCount == |MissedOf(gtList, BoxesOf(predList), threshold)|
    ensures missedClasses == CountByName(missedClasses0, MissedOf(gtList, BoxesOf(predList), threshold), cats)
  {
    ghost var preds := BoxesOf(predList);
    missedCount := 0;
    missedClasses := missedClasses0;
    for j := 0 to |gtList|
      invariant missedCount == |MissedOf(gtList[..j], preds, threshold)|
      invariant missedClasses == CountByName(missedClasses0, MissedOf(gtList[..j], preds, threshold), cats)
    {
      var gt := gtList[j];
      MissedOfSnoc(gtList, j, preds, threshold);
      var maxIou := MaxIouOf(gt.bbox, predList);
      if maxIou < threshold {
        missedCount := missedCount + 1;
        var catName := NameOf(cats, gt.categoryId);
        missedClasses := Inc(missedClasses, catName);
        CountByNameSnoc(missedClasses0, MissedOf(gtList[..j], preds, threshold), gt, cats);
      } else {
        assert MissedOf(gtList[..j + 1], preds, threshold) == MissedOf(gtList[..j], preds, threshold);
      }
    }
    assert gtList[..|gtList|] == gtList;
  }

  lemma MissedOfSnoc(gtList: seq<Annotation>, j: nat, preds: seq<Box>, threshold: real)
    requires j < |gtList|
    ensures MissedOf(gtList[..j + 1], preds, threshold)
         == MissedOf(gtList[..j], preds, threshold) + (if IsMissed(gtList[j].bbox, preds, threshold) then [gtList[j]] else [])
  {
    assert gtList[..j + 1][..j] == gtList[..j];
  }

  lemma CountByNameSnoc(acc: Counter, ms: seq<Annotation>, a: Annotation, cats: seq<Category>)
    ensures CountByName(acc, ms + [a], cats) == Inc(CountByName(acc, ms, cats), NameOf(cats, a.categoryId))
  {
    assert (ms + [a])[..|ms|] == ms;
  }

  /** One more image adds its ground truths and its misses. */
  lemma ImagesSnoc(images: seq<int>, i: nat, gts: seq<Annotation>, preds: seq<Annotation>, threshold: real)
    requires i < |images|
    ensures LoadedGts(images[..i + 1], gts) == LoadedGts(images[..i], gts) + OfImage(gts, images[i])
    ensures MissedGts(images[..i + 1], gts, preds, threshold)
         == MissedGts(images[..i], gts, preds, threshold)
            + MissedOf(OfImage(gts, images[i]), BoxesOf(OfImage(preds, images[i])), threshold)
  {
    assert images[..i + 1][..i] == images[..i];
  }

  /** Counting two blocks of misses one after the other counts their concatenation. */
  lemma {:induction false} CountByNameConcat(acc: Counter, s: seq<Annotation>, t: seq<Annotation>, cats: seq<Category>)
    ensures CountByName(acc, s + t, cats) == CountByName(CountByName(acc, s, cats), t, cats)
  {
    if t == [] {
      assert s + t == s;
    } else {
      var init := t[..|t| - 1];
      assert (s + t)[..|s + t| - 1] == s + init;
      assert (s + t)[|s + t| - 1] == t[|t| - 1];
      CountByNameConcat(acc, s, init, cats);
    }
  }

  /**
    `visualize_and_print_summary` without its image I/O: `images` lists, in
    order, the image ids whose files were found and read, and `cats` is
    `gt_data["categories"]`.
   */
  method SummarizeMisses(images: seq<int>, cats: seq<Category>, gtAnns: seq<Annotation>,
                         predAnns: seq<Annotation>, threshold: real)
    returns (s: Summary)
    ensures s == Summarize(images, cats, gtAnns, predAnns, threshold)
  {
    var gtBoxes := GroupByImage(gtAnns);
    var predBoxes := GroupByImage(predAnns);
    var totalGtBoxes: nat := 0;
    var totalMissedBoxes: nat := 0;
    var missedClasses: Counter := [];
    for i := 0 to |images|
      invariant totalGtBoxes == |LoadedGts(images[..i], gtAnns)|
      invariant totalMissedBoxes == |MissedGts(images[..i], gtAnns, predAnns, threshold)|
      invariant missedClasses == CountByName([], MissedGts(images[..i], gtAnns, predAnns, threshold), cats)
    {
      var imageId := images[i];
      var gtList := GroupOf(gtBoxes, imageId);
      var predList := GroupOf(predBoxes, imageId);
      assert gtList == OfImage(gtAnns, imageId) && predList == OfImage(predAnns, imageId);
      ImagesSnoc(images, i, gtAnns, predAnns, threshold);
      ghost var done := MissedGts(images[..i], gtAnns, predAnns, threshold);
      ghost var acc := missedClasses;
      var missedCount;
      missedCount, missedClasses := CountMisses(gtList, predList, threshold, cats, missedClasses);
      totalGtBoxes := totalGtBoxes + |gtList|;
      totalMissedBoxes := totalMissedBoxes + missedCount;
      CountByNameConcat([], done, MissedOf(gtList, BoxesOf(predList), threshold), cats);
    }
    assert images[..|images|] == images;
    s := Summary(totalGtBoxes, totalMissedBoxes, MissRatio(totalMissedBoxes, totalGtBoxes), missedClasses);
  }

  // ---------------------------------------------------------------------------
  // Properties of the summary

  /** With a positive threshold and no prediction, every ground truth of the image is missed. */
  lemma {:induction false} NoPredictionsAllMissed(gtList: seq<Annotation>, threshold: real)
    requires threshold > 0.0
    ensures MissedOf(gtList, [], threshold) == gtList
  {
    if gtList != [] {
      NoPredictionsAllMissed(gtList[..|gtList| - 1], threshold);
      assert gtList == gtList[..|gtList| - 1] + [gtList[|gtList| - 1]];
    }
  }

  /** Without any prediction file entries and with a positive threshold, all ground truths are missed. */
  lemma {:induction false} NoPredictionsSummary(images: seq<int>, gts: seq<Annotation>, threshold: real)
    requires threshold > 0.0
    ensures MissedGts(images, gts, [], threshold) == LoadedGts(images, gts)
  {
    if images != [] {
      var id := images[|images| - 1];
      NoPredictionsSummary(images[..|images| - 1], gts, threshold);
      assert OfImage([], id) == [] && BoxesOf([]) == [];
      NoPredictionsAllMissed(OfImage(gts, id), threshold);
    }
  }

  /** No more misses than ground truths, overall. */
  lemma {:induction false} MissedGtsBound(images: seq<int>, gts: seq<Annotation>, preds: seq<Annotation>, threshold: real)
    ensures |MissedGts(images, gts, preds, threshold)| <= |LoadedGts(images, gts)|
  {
    if images != [] {
      MissedGtsBound(images[..|images| - 1], gts, preds, threshold);
    }
  }

  /** How many of the misses ms carry the class name `name`. */
  function NamedCount(ms: seq<Annotation>, cats: seq<Category>, name: string): nat {
    if ms == [] then 0
    else NamedCount(ms[..|ms| - 1], cats, name) + (if NameOf(cats, ms[|ms| - 1].categoryId) == name then 1 else 0)
  }

  /**
    `missed_classes` holds, under every name, the number of misses with that
    name, and its values add up to the number of misses.
   */
  lemma {:induction false} CountByNameGet(ms: seq<Annotation>, cats: seq<Category>)
    ensures forall name :: Get(CountByName([], ms, cats), name) == NamedCount(ms, cats, name)
    ensures Total(CountByName([], ms, cats)) == |ms|
  {
    if ms != [] {
      CountByNameGet(ms[..|ms| - 1], cats);
    }
  }

  /** The keys of `missed_classes` are distinct, and they are exactly the names of the misses. */
  lemma CountByNameKeys(ms: seq<Annotation>, cats: seq<Category>)
    ensures DistinctKeys(CountByName([], ms, cats))
    ensures forall name :: name in Keys(CountByName([], ms, cats)) <==>
      exists a :: a in ms && NameOf(cats, a.categoryId) == name
  {
    CountByNameDistinct(ms, cats);
    CountByNameKeySet(ms, cats);
  }

  lemma {:induction false} CountByNameDistinct(ms: seq<Annotation>, cats: seq<Category>)
    ensures DistinctKeys(CountByName([], ms, cats))
  {
    if ms != [] {
      var init, a := ms[..|ms| - 1], ms[|ms| - 1];
      CountByNameDistinct(init, cats);
      IncKeys(CountByName([], init, cats), NameOf(cats, a.categoryId));
    }
  }

  lemma {:induction false} CountByNameKeySet(ms: seq<Annotation>, cats: seq<Category>)
    ensures forall name :: name in Keys(CountByName([], ms, cats)) <==>
      exists a :: a in ms && NameOf(cats, a.categoryId) == name
  {
    if ms != [] {
      var init, last := ms[..|ms| - 1], ms[|ms| - 1];
      CountByNameKeySet(init, cats);
      IncKeys(CountByName([], init, cats), NameOf(cats, last.categoryId));
      assert ms == init + [last];
      assert forall a :: a in ms <==> a in init || a == last;
    }
  }

  /**
    What the printed summary promises: no more misses than ground truths; the
    per-class counts add up to the misses, one entry per name; the percentage
    exists exactly when there are ground truths, and lies in [0, 100].
   */
  lemma SummaryConsistent(images: seq<int>, cats: seq<Category>, gts: seq<Annotation>, preds: seq<Annotation>, threshold: real)
    ensures var s := Summarize(images, cats, gts, preds, threshold);
      && s.totalMissed <= s.totalGt
      && Total(s.missedClasses) == s.totalMissed
      && DistinctKeys(s.missedClasses)
      && (s.missedPercent.Some? <==> s.totalGt > 0)
      && (s.missedPercent.Some? ==> 0.0 <= s.missedPercent.value <= 100.0)
  {
    MissedGtsBound(images, gts, preds, threshold);
    CountByNameGet(MissedGts(images, gts, preds, threshold), cats);
    CountByNameKeys(MissedGts(images, gts, preds, threshold), cats);
  }

  /**
    The two scripts agree: a ground truth that `match_boxes` matches is never
    missed by the summary, whatever the threshold, because its partner's
    clamped IoU equals its positive guarded IoU.
   */
  lemma MatchedNotMissed(gts: seq<Box>, preds: seq<Box>, threshold: real, i: int)
    requires i in GreedyMatch(gts, preds, threshold).gt
    ensures 0 <= i < |gts| && !IsMissed(gts[i], preds, threshold)
  {
    var k := MatchedHasPartner(gts, preds, threshold, i);
    IousAgree(gts[i], preds[k]);
    MaxIouBounds(gts[i], preds);
  }

  lemma {:induction false} MissedAtMostUnmatchedPrefix(gtList: seq<Annotation>, preds: seq<Box>, threshold: real, n: nat)
    requires n <= |gtList|
    ensures |MissedOf(gtList[..n], preds, threshold)|
         <= Missed(Flags(gtList, GreedyMatch(BoxesOf(gtList), preds, threshold).gt)[..n])
  {
    if n > 0 {
      var fs := Flags(gtList, GreedyMatch(BoxesOf(gtList), preds, threshold).gt);
      MissedAtMostUnmatchedPrefix(gtList, preds, threshold, n - 1);
      assert gtList[..n][..n - 1] == gtList[..n - 1];
      assert fs[..n][..n - 1] == fs[..n - 1];
      if n - 1 in GreedyMatch(BoxesOf(gtList), preds, threshold).gt {
        MatchedNotMissed(BoxesOf(gtList), preds, threshold, n - 1);
      }
    }
  }

  /** Per image, the summary misses no more ground truths than the greedy evaluation leaves unmatched. */
  lemma MissedAtMostUnmatched(gtList: seq<Annotation>, predList: seq<Annotation>, threshold: real)
    ensures |MissedOf(gtList, BoxesOf(predList), threshold)| <= Missed(ImageOutcomes(gtList, predList, threshold))
  {
    MissedAtMostUnmatchedPrefix(gtList, BoxesOf(predList), threshold, |gtList|);
    assert gtList[..|gtList|] == gtList;
    var fs := ImageOutcomes(gtList, predList, threshold);
    assert fs[..|gtList|] == fs;
  }

  /**
    On the same loaded images and threshold, the summary sees the same ground
    truths as `evaluate_map` and reports at most as many misses.
   */
  lemma {:induction false} SummaryAtMostEvaluation(images: seq<int>, cats: seq<Category>, gts: seq<Annotation>,
                                                   preds: seq<Annotation>, threshold: real)
    ensures var s, e := Summarize(images, cats, gts, preds, threshold), Report(Outcomes(images, gts, preds, threshold));
      s.totalGt == e.totalGt && s.totalMissed <= e.totalMissed
  {
    MissedIsGtMinusMatched(images, gts, preds, threshold);
    if images != [] {
      var init, id := images[..|images| - 1], images[|images| - 1];
      SummaryAtMostEvaluation(init, cats, gts, preds, threshold);
      MissedAtMostUnmatched(OfImage(gts, id), OfImage(preds, id), threshold);
      MissedConcat(Outcomes(init, gts, preds, threshold), ImageOutcomes(OfImage(gts, id), OfImage(preds, id), threshold));
    }
  }
}
