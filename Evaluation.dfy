/**
  The statistics of `evaluate_map`: for every loaded image, its ground truths
  are matched greedily against its predictions, and the outcome of every
  ground truth is folded into overall, per-class and per-area-bucket counts.
 */
module Evaluation {
  import opened Wrappers
  import opened Geometry
  import opened Dataset
  import opened Categories
  import opened Counters
  import opened Matching

  /** The area buckets, in the order the report lists them. */
  datatype Region = Small | Medium | Large

  /** Bucket of a box by its pixel area: small below 1024, medium below 9216, large from 9216 on. */
  function RegionOf(area: real): (r: Region)
    ensures r == Small <==> area < 1024.0
    ensures r == Medium <==> 1024.0 <= area < 9216.0
    ensures r == Large <==> 9216.0 <= area
  {
    if area < 1024.0 then Small else if area < 9216.0 then Medium else Large
  }

  /** A ground truth of a loaded image and whether `match_boxes` matched it. */
  datatype Outcome = Outcome(gt: Annotation, matched: bool)

  /** Ground truth i of the list is marked matched exactly when i is in the matched set. */
  function Flags(gtList: seq<Annotation>, matched: set<int>): seq<Outcome> {
    seq(|gtList|, i requires 0 <= i < |gtList| => Outcome(gtList[i], i in matched))
  }

  /** The outcomes of one image's ground truths, in list order. */
  function ImageOutcomes(gtList: seq<Annotation>, predList: seq<Annotation>, threshold: real): seq<Outcome> {
    Flags(gtList, GreedyMatch(BoxesOf(gtList), BoxesOf(predList), threshold).gt)
  }

  /** The outcomes of every ground truth of the loaded images, image after image. */
  function Outcomes(images: seq<int>, gts: seq<Annotation>, preds: seq<Annotation>, threshold: real): seq<Outcome> {
    if images == [] then []
    else
      var id := images[|images| - 1];
      Outcomes(images[..|images| - 1], gts, preds, threshold)
        + ImageOutcomes(OfImage(gts, id), OfImage(preds, id), threshold)
  }

  /** The class name of a ground truth, when `category_id_to_name` knows its category id. */
  function ClassOf(a: Annotation): Option<string> {
    if a.categoryId in CategoryIdToName then Some(CategoryIdToName[a.categoryId]) else None
  }

  /** The groups a report row counts: one class, one area bucket, or every ground truth of a known class. */
  datatype Selector = ClassSel(name: string) | RegionSel(region: Region) | KnownSel

  /** Whether the row of selector s counts outcome o. */
  predicate Selects(s: Selector, o: Outcome) {
    match s
    case ClassSel(name) => ClassOf(o.gt) == Some(name)
    case RegionSel(r) => ClassOf(o.gt).Some? && RegionOf(Area(o.gt.bbox)) == r
    case KnownSel => ClassOf(o.gt).Some?
  }

  /** `class_total[name]`, `region_total[r]`: how many outcomes the selector counts. */
  function Selected(os: seq<Outcome>, s: Selector): (n: nat)
    ensures n <= |os|
  {
    if os == [] then 0
    else Selected(os[..|os| - 1], s) + (if Selects(s, os[|os| - 1]) then 1 else 0)
  }

  /** `class_matched[name]`, `region_matched[r]`: how many of those were matched. */
  function SelectedMatched(os: seq<Outcome>, s: Selector): (n: nat)
    ensures n <= Selected(os, s)
  {
    if os == [] then 0
    else
      var o := os[|os| - 1];
      SelectedMatched(os[..|os| - 1], s) + (if Selects(s, o) && o.matched then 1 else 0)
  }

  /** How many ground truths were matched, whatever their class. */
  function Matched(os: seq<Outcome>): (n: nat)
    ensures n <= |os|
  {
    if os == [] then 0
    else Matched(os[..|os| - 1]) + (if os[|os| - 1].matched then 1 else 0)
  }

  /** How many ground truths were missed, whatever their class. */
  function Missed(os: seq<Outcome>): (n: nat)
    ensures n + Matched(os) == |os|
  {
    if os == [] then 0
    else Missed(os[..|os| - 1]) + (if os[|os| - 1].matched then 0 else 1)
  }

  /** `matched / total * 100 if total > 0 else 0`. */
  function Rate(matched: nat, total: nat): (r: real)
    ensures total == 0 ==> r == 0.0
    ensures matched <= total ==> 0.0 <= r <= 100.0
    ensures total > 0 ==> (r == 100.0 <==> matched == total)
  {
    if total > 0 then
      RatioFacts(matched as real, total as real);
      matched as real / total as real * 100.0
    else 0.0
  }

  lemma RatioFacts(p: real, q: real)
    requires 0.0 <= p && q > 0.0
    ensures p <= q ==> 0.0 <= p / q * 100.0 <= 100.0
    ensures p / q * 100.0 == 100.0 <==> p == q
  {
    assert p / q * q == p;
    if p <= q {
      RatioAtMostOne(p, q);
    }
  }

  /** The miss ratio in percent; it is not computed (None) when there is no ground truth. */
  function MissRatio(missed: nat, total: nat): (r: Option<real>)
    ensures r.Some? <==> total > 0
    ensures r.Some? && missed <= total ==> 0.0 <= r.value <= 100.0
    ensures r.Some? && missed == total ==> r.value == 100.0
  {
    if total > 0 then
      RatioFacts(missed as real, total as real);
      Some(missed as real / total as real * 100.0)
    else None
  }

  datatype RegionRow = RegionRow(region: Region, total: nat, matched: nat, rate: real)
  datatype ClassRow = ClassRow(name: string, total: nat, matched: nat, rate: real)

  /** The numbers `evaluate_map` prints: overall, per bucket (small, medium, large), per class in `category_map` order. */
  datatype Evaluation = Evaluation(
    totalGt: nat, totalMissed: nat, missRatio: Option<real>,
    regions: seq<RegionRow>, classes: seq<ClassRow>)

  function RegionRowOf(os: seq<Outcome>, r: Region): RegionRow {
    var total, matched := Selected(os, RegionSel(r)), SelectedMatched(os, RegionSel(r));
    RegionRow(r, total, matched, Rate(matched, total))
  }

  function ClassRowOf(os: seq<Outcome>, name: string): ClassRow {
    var total, matched := Selected(os, ClassSel(name)), SelectedMatched(os, ClassSel(name));
    ClassRow(name, total, matched, Rate(matched, total))
  }

  function ClassRows(os: seq<Outcome>, names: seq<string>): seq<ClassRow> {
    if names == [] then []
    else ClassRows(os, names[..|names| - 1]) + [ClassRowOf(os, names[|names| - 1])]
  }

  /** The report for a list of outcomes. */
  function Report(os: seq<Outcome>): Evaluation {
    Evaluation(
      |os|, Missed(os), MissRatio(Missed(os), |os|),
      [RegionRowOf(os, Small), RegionRowOf(os, Medium), RegionRowOf(os, Large)],
      ClassRows(os, CategoryNames))
  }

  // ---------------------------------------------------------------------------
  // The loop of evaluate_map

  /** The running dictionaries hold the tallies of the outcomes folded in so far. */
  ghost predicate Tracks(os: seq<Outcome>, classTotal: Counter, classMatched: Counter,
                         regionTotal: map<Region, nat>, regionMatched: map<Region, nat>)
  {
    && (forall name :: Get(classTotal, name) == Selected(os, ClassSel(name)))
    && (forall name :: Get(classMatched, name) == SelectedMatched(os, ClassSel(name)))
    && (forall r :: r in regionTotal && regionTotal[r] == Selected(os, RegionSel(r)))
    && (forall r :: r in regionMatched && regionMatched[r] == SelectedMatched(os, RegionSel(r)))
  }

  /** One more outcome adds one to the rows that select it. */
  lemma SelectedSnoc(os: seq<Outcome>, o: Outcome, s: Selector)
    ensures Selected(os + [o], s) == Selected(os, s) + (if Selects(s, o) then 1 else 0)
    ensures SelectedMatched(os + [o], s) == SelectedMatched(os, s) + (if Selects(s, o) && o.matched then 1 else 0)
  {
    assert (os + [o])[..|os|] == os;
  }

  /** One round of the per-ground-truth loop keeps Tracks. */
  lemma TrackStep(os: seq<Outcome>, o: Outcome,
                  ct: Counter, cm: Counter, rt: map<Region, nat>, rm: map<Region, nat>,
                  ct': Counter, cm': Counter, rt': map<Region, nat>, rm': map<Region, nat>)
    requires Tracks(os, ct, cm, rt, rm)
    requires ClassOf(o.gt).None? ==> ct' == ct && cm' == cm && rt' == rt && rm' == rm
    requires ClassOf(o.gt).Some? ==>
      var name, r := ClassOf(o.gt).value, RegionOf(Area(o.gt.bbox));
      && ct' == Inc(ct, name) && rt' == rt[r := rt[r] + 1]
      && cm' == (if o.matched then Inc(cm, name) else cm)
      && rm' == (if o.matched then rm[r := rm[r] + 1] else rm)
    ensures Tracks(os + [o], ct', cm', rt', rm')
  {
    var os' := os + [o];
    assert os'[..|os'| - 1] == os && os'[|os'| - 1] == o;
    forall name ensures Get(ct', name) == Selected(os', ClassSel(name))
                     && Get(cm', name) == SelectedMatched(os', ClassSel(name)) {
      SelectedSnoc(os, o, ClassSel(name));
    }
    forall r ensures r in rt' && rt'[r] == Selected(os', RegionSel(r))
                  && r in rm' && rm'[r] == SelectedMatched(os', RegionSel(r)) {
      SelectedSnoc(os, o, RegionSel(r));
    }
  }

  /** The number of matched flags is the size of the matched set, when that set lies inside the list. */
  lemma {:induction false} MatchedFlags(gtList: seq<Annotation>, matched: set<int>, n: nat)
    requires n <= |gtList|
    ensures Matched(Flags(gtList, matched)[..n]) == |set i | 0 <= i < n && i in matched|
  {
    var fs := Flags(gtList, matched);
    if n == 0 {
      assert (set i | 0 <= i < 0 && i in matched) == {};
    } else {
      MatchedFlags(gtList, matched, n - 1);
      assert fs[..n][..n - 1] == fs[..n - 1];
      var before := set i | 0 <= i < n - 1 && i in matched;
      var after := set i | 0 <= i < n && i in matched;
      if n - 1 in matched {
        assert after == before + {n - 1};
      } else {
        assert after == before;
      }
    }
  }

  /** An image misses as many ground truths as `len(gt_list) - len(matched_gt)`. */
  lemma ImageMissed(gtList: seq<Annotation>, predList: seq<Annotation>, threshold: real)
    ensures var m := GreedyMatch(BoxesOf(gtList), BoxesOf(predList), threshold);
      && |m.gt| <= |gtList|
      && Matched(ImageOutcomes(gtList, predList, threshold)) == |m.gt|
      && Missed(ImageOutcomes(gtList, predList, threshold)) == |gtList| - |m.gt|
  {
    var m := GreedyMatch(BoxesOf(gtList), BoxesOf(predList), threshold);
    MatchedFlags(gtList, m.gt, |gtList|);
    assert (set i | 0 <= i < |gtList| && i in m.gt) == m.gt;
    assert Flags(gtList, m.gt)[..|gtList|] == Flags(gtList, m.gt);
  }

  /** No outcome folded in yet: every dictionary is empty or zero. */
  lemma TracksInitially()
    ensures Tracks([], [], [], map[Small := 0, Medium := 0, Large := 0], map[Small := 0, Medium := 0, Large := 0])
  {
    forall r: Region ensures r in map[Small := 0, Medium := 0, Large := 0] {
      match r
      case Small =>
      case Medium =>
      case Large =>
    }
  }

  /**
    The body of the per-ground-truth loop of `evaluate_map`: an unknown
    category id is skipped; a known one adds to its class and to its area
    bucket, and to their matched counts when the ground truth was matched.
   */
  method CountOne(ghost done: seq<Outcome>, gt: Annotation, isMatched: bool,
                  classTotal0: Counter, classMatched0: Counter,
                  regionTotal0: map<Region, nat>, regionMatched0: map<Region, nat>)
    returns (classTotal: Counter, classMatched: Counter,
             regionTotal: map<Region, nat>, regionMatched: map<Region, nat>)
    requires Tracks(done, classTotal0, classMatched0, regionTotal0, regionMatched0)
    ensures Tracks(done + [Outcome(gt, isMatched)], classTotal, classMatched, regionTotal, regionMatched)
  {
    classTotal, classMatched, regionTotal, regionMatched := classTotal0, classMatched0, regionTotal0, regionMatched0;
    var catId := gt.categoryId;
    if catId in CategoryIdToName {
      var catName := CategoryIdToName[catId];
      classTotal := Inc(classTotal, catName);
      var region := RegionOf(Area(gt.bbox));
      regionTotal := regionTotal[region := regionTotal[region] + 1];
      if isMatched {
        classMatched := Inc(classMatched, catName);
        regionMatched := regionMatched[region := regionMatched[region] + 1];
      }
    }
    TrackStep(done, Outcome(gt, isMatched), classTotal0, classMatched0, regionTotal0, regionMatched0,
              classTotal, classMatched, regionTotal, regionMatched);
  }

  /** The per-ground-truth loop of `evaluate_map` for one image, whose matched indices are matchedGt. */
  method CountImage(ghost done: seq<Outcome>, gtList: seq<Annotation>, matchedGt: set<int>,
                    classTotal0: Counter, classMatched0: Counter,
                    regionTotal0: map<Region, nat>, regionMatched0: map<Region, nat>)
    returns (classTotal: Counter, classMatched: Counter,
             regionTotal: map<Region, nat>, regionMatched: map<Region, nat>)
    requires Tracks(done, classTotal0, classMatched0, regionTotal0, regionMatched0)
    ensures Tracks(done + Flags(gtList, matchedGt), classTotal, classMatched, regionTotal, regionMatched)
  {
    classTotal, classMatched, regionTotal, regionMatched := classTotal0, classMatched0, regionTotal0, regionMatched0;
    ghost var here := Flags(gtList, matchedGt);
    assert done + here[..0] == done;
    for gtIdx := 0 to |gtList|
      invariant Tracks(done + here[..gtIdx], classTotal, classMatched, regionTotal, regionMatched)
    {
      assert done + here[..gtIdx + 1] == (done + here[..gtIdx]) + [Outcome(gtList[gtIdx], gtIdx in matchedGt)];
      classTotal, classMatched, regionTotal, regionMatched :=
        CountOne(done + here[..gtIdx], gtList[gtIdx], gtIdx in matchedGt,
                 classTotal, classMatched, regionTotal, regionMatched);
    }
    assert here[..|gtList|] == here;
  }

  /**
    `evaluate_map` without its file and image I/O: `images` lists, in order,
    the image ids whose files were found and read.
   */
  method EvaluateMap(images: seq<int>, gtAnns: seq<Annotation>, predAnns: seq<Annotation>, threshold: real)
    returns (e: Evaluation)
    ensures e == Report(Outcomes(images, gtAnns, predAnns, threshold))
  {
    var classTotal: Counter := [];
    var classMatched: Counter := [];
    var regionTotal: map<Region, nat> := map[Small := 0, Medium := 0, Large := 0];
    var regionMatched: map<Region, nat> := map[Small := 0, Medium := 0, Large := 0];
    var totalGtBoxes: nat := 0;
    var totalMissedBoxes: nat := 0;
    TracksInitially();

    for i := 0 to |images|
      invariant totalGtBoxes == |Outcomes(images[..i], gtAnns, predAnns, threshold)|
      invariant totalMissedBoxes == Missed(Outcomes(images[..i], gtAnns, predAnns, threshold))
      invariant Tracks(Outcomes(images[..i], gtAnns, predAnns, threshold),
                       classTotal, classMatched, regionTotal, regionMatched)
    {
      ghost var done := Outcomes(images[..i], gtAnns, predAnns, threshold);
      var imageId := images[i];
      var gtList := OfImage(gtAnns, imageId);
      var predList := OfImage(predAnns, imageId);
      var matchedGt, matchedPred := MatchBoxes(gtList, predList, threshold);
      ghost var here := ImageOutcomes(gtList, predList, threshold);
      ImageMissed(gtList, predList, threshold);

      var missedCount := |gtList| - |matchedGt|;
      totalGtBoxes := totalGtBoxes + |gtList|;
      totalMissedBoxes := totalMissedBoxes + missedCount;
      MissedConcat(done, here);

      classTotal, classMatched, regionTotal, regionMatched :=
        CountImage(done, gtList, matchedGt, classTotal, classMatched, regionTotal, regionMatched);
      assert Outcomes(images[..i + 1], gtAnns, predAnns, threshold) == done + here by {
        assert images[..i + 1][..i] == images[..i];
      }
    }
    assert images[..|images|] == images;
    e := PrintedReport(Outcomes(images, gtAnns, predAnns, threshold), totalGtBoxes, totalMissedBoxes,
                       classTotal, classMatched, regionTotal, regionMatched);
  }

  /**
    The printing part of `evaluate_map`: the overall numbers, one row per
    area bucket and one row per class of `category_map`, read from the dicts.
   */
  method PrintedReport(ghost os: seq<Outcome>, totalGtBoxes: nat, totalMissedBoxes: nat,
                       classTotal: Counter, classMatched: Counter,
                       regionTotal: map<Region, nat>, regionMatched: map<Region, nat>)
    returns (e: Evaluation)
    requires totalGtBoxes == |os| && totalMissedBoxes == Missed(os)
    requires Tracks(os, classTotal, classMatched, regionTotal, regionMatched)
    ensures e == Report(os)
  {
    var regions := [
      RegionRow(Small, regionTotal[Small], regionMatched[Small],
                Rate(regionMatched[Small], regionTotal[Small])),
      RegionRow(Medium, regionTotal[Medium], regionMatched[Medium],
                Rate(regionMatched[Medium], regionTotal[Medium])),
      RegionRow(Large, regionTotal[Large], regionMatched[Large],
                Rate(regionMatched[Large], regionTotal[Large]))
    ];
    var classes: seq<ClassRow> := [];
    for j := 0 to |CategoryNames|
      invariant classes == ClassRows(os, CategoryNames[..j])
    {
      var catName := CategoryNames[j];
      var total, matched := Get(classTotal, catName), Get(classMatched, catName);
      classes := classes + [ClassRow(catName, total, matched, Rate(matched, total))];
      assert CategoryNames[..j + 1][..j] == CategoryNames[..j];
    }
    assert CategoryNames[..|CategoryNames|] == CategoryNames;
    e := Evaluation(totalGtBoxes, totalMissedBoxes, MissRatio(totalMissedBoxes, totalGtBoxes), regions, classes);
  }

  // ---------------------------------------------------------------------------
  // Properties of the statistics

  lemma {:induction false} MissedConcat(s: seq<Outcome>, t: seq<Outcome>)
    ensures Missed(s + t) == Missed(s) + Missed(t)
    ensures Matched(s + t) == Matched(s) + Matched(t)
  {
    if t == [] {
      assert s + t == s;
    } else {
      var init := t[..|t| - 1];
      assert (s + t)[..|s + t| - 1] == s + init;
      MissedConcat(s, init);
    }
  }

  lemma {:induction false} SelectedConcat(s: seq<Outcome>, t: seq<Outcome>, sel: Selector)
    ensures Selected(s + t, sel) == Selected(s, sel) + Selected(t, sel)
    ensures SelectedMatched(s + t, sel) == SelectedMatched(s, sel) + SelectedMatched(t, sel)
  {
    if t == [] {
      assert s + t == s;
    } else {
      var init := t[..|t| - 1];
      assert (s + t)[..|s + t| - 1] == s + init;
      assert (s + t)[|s + t| - 1] == t[|t| - 1];
      SelectedConcat(s, init, sel);
    }
  }

  /** The totals, and the matched counts, of a list of class rows, summed. */
  function RowsTotal(rows: seq<ClassRow>): nat {
    if rows == [] then 0 else RowsTotal(rows[..|rows| - 1]) + rows[|rows| - 1].total
  }

  function RowsMatched(rows: seq<ClassRow>): nat {
    if rows == [] then 0 else RowsMatched(rows[..|rows| - 1]) + rows[|rows| - 1].matched
  }

  /** Every ground truth of a known class lies in exactly one of the three area buckets. */
  lemma {:induction false} RegionsPartitionKnown(os: seq<Outcome>)
    ensures Selected(os, RegionSel(Small)) + Selected(os, RegionSel(Medium)) + Selected(os, RegionSel(Large))
         == Selected(os, KnownSel)
    ensures SelectedMatched(os, RegionSel(Small)) + SelectedMatched(os, RegionSel(Medium))
          + SelectedMatched(os, RegionSel(Large)) == SelectedMatched(os, KnownSel)
  {
    if os != [] {
      var init, o := os[..|os| - 1], os[|os| - 1];
      RegionsPartitionKnown(init);
      assert os == init + [o];
      SelectedSnoc(init, o, RegionSel(Small));
      SelectedSnoc(init, o, RegionSel(Medium));
      SelectedSnoc(init, o, RegionSel(Large));
      SelectedSnoc(init, o, KnownSel);
    }
  }

  lemma {:induction false} ClassRowsEmpty(names: seq<string>)
    ensures RowsTotal(ClassRows([], names)) == 0 && RowsMatched(ClassRows([], names)) == 0
  {
    if names != [] {
      var init := names[..|names| - 1];
      ClassRowsEmpty(init);
      assert ClassRows([], names)[..|ClassRows([], names)| - 1] == ClassRows([], init);
    }
  }

  /** Over distinct names, one more outcome adds to the class rows exactly when its class is listed. */
  lemma {:induction false} ClassRowsStep(os: seq<Outcome>, o: Outcome, names: seq<string>)
    requires NoDuplicates(names)
    ensures var listed := ClassOf(o.gt).Some? && ClassOf(o.gt).value in names;
      && RowsTotal(ClassRows(os + [o], names)) == RowsTotal(ClassRows(os, names)) + (if listed then 1 else 0)
      && RowsMatched(ClassRows(os + [o], names))
         == RowsMatched(ClassRows(os, names)) + (if listed && o.matched then 1 else 0)
  {
    if names != [] {
      var init, n := names[..|names| - 1], names[|names| - 1];
      assert NoDuplicates(init);
      assert n !in init;
      ClassRowsStep(os, o, init);
      SelectedSnoc(os, o, ClassSel(n));
      var rows, rows' := ClassRows(os, names), ClassRows(os + [o], names);
      assert rows[..|rows| - 1] == ClassRows(os, init);
      assert rows'[..|rows'| - 1] == ClassRows(os + [o], init);
      assert ClassOf(o.gt).Some? && ClassOf(o.gt).value in names <==>
        (ClassOf(o.gt).Some? && ClassOf(o.gt).value in init) || ClassOf(o.gt) == Some(n);
    }
  }

  /** The class rows of the report add up to the ground truths of a known class. */
  lemma {:induction false} ClassesPartitionKnown(os: seq<Outcome>)
    ensures RowsTotal(ClassRows(os, CategoryNames)) == Selected(os, KnownSel)
    ensures RowsMatched(ClassRows(os, CategoryNames)) == SelectedMatched(os, KnownSel)
  {
    CategoryNamesListKeys();
    if os == [] {
      ClassRowsEmpty(CategoryNames);
    } else {
      var init, o := os[..|os| - 1], os[|os| - 1];
      ClassesPartitionKnown(init);
      assert init + [o] == os;
      ClassRowsStep(init, o, CategoryNames);
      SelectedSnoc(init, o, KnownSel);
    }
  }

  /**
    What the printed report promises: no more misses than ground truths; per
    bucket and per class, matched at most total and a rate in [0, 100] that is
    0 for an empty row; and the bucket rows and the class rows both add up to
    the ground truths of a known class, which the overall total includes
    together with the ones of unknown category.
   */
  lemma ReportConsistent(os: seq<Outcome>)
    ensures var e := Report(os);
      && e.totalGt == |os| && e.totalMissed <= e.totalGt
      && (e.missRatio.Some? <==> e.totalGt > 0)
      && (e.missRatio.Some? ==> 0.0 <= e.missRatio.value <= 100.0)
      && |e.regions| == 3 && |e.classes| == |CategoryNames|
      && (forall row :: row in e.regions ==>
            row.matched <= row.total && 0.0 <= row.rate <= 100.0 && (row.total == 0 ==> row.rate == 0.0))
      && (forall row :: row in e.classes ==>
            row.matched <= row.total && 0.0 <= row.rate <= 100.0 && (row.total == 0 ==> row.rate == 0.0))
      && e.regions[0].total + e.regions[1].total + e.regions[2].total == Selected(os, KnownSel)
      && e.regions[0].matched + e.regions[1].matched + e.regions[2].matched == SelectedMatched(os, KnownSel)
      && RowsTotal(e.classes) == Selected(os, KnownSel)
      && RowsMatched(e.classes) == SelectedMatched(os, KnownSel)
      && Selected(os, KnownSel) <= e.totalGt
  {
    RegionsPartitionKnown(os);
    ClassesPartitionKnown(os);
    ClassRowsShape(os, CategoryNames);
  }

  lemma {:induction false} ClassRowsShape(os: seq<Outcome>, names: seq<string>)
    ensures |ClassRows(os, names)| == |names|
    ensures forall k :: 0 <= k < |names| ==> ClassRows(os, names)[k] == ClassRowOf(os, names[k])
  {
    if names != [] {
      ClassRowsShape(os, names[..|names| - 1]);
    }
  }

  /** The images' outcomes concatenate: folding image list A, then B, folds A + B. */
  lemma {:induction false} OutcomesConcat(a: seq<int>, b: seq<int>, gts: seq<Annotation>, preds: seq<Annotation>, threshold: real)
    ensures Outcomes(a + b, gts, preds, threshold) == Outcomes(a, gts, preds, threshold) + Outcomes(b, gts, preds, threshold)
  {
    if b == [] {
      assert a + b == a;
    } else {
      var init, id := b[..|b| - 1], b[|b| - 1];
      var last := ImageOutcomes(OfImage(gts, id), OfImage(preds, id), threshold);
      assert Outcomes(a + b, gts, preds, threshold) == Outcomes(a + init, gts, preds, threshold) + last by {
        assert a + b == (a + init) + [id];
        OutcomesSnoc(a + init, id, gts, preds, threshold);
      }
      assert Outcomes(b, gts, preds, threshold) == Outcomes(init, gts, preds, threshold) + last by {
        assert b == init + [id];
        OutcomesSnoc(init, id, gts, preds, threshold);
      }
      OutcomesConcat(a, init, gts, preds, threshold);
      ConcatAssoc(Outcomes(a, gts, preds, threshold), Outcomes(init, gts, preds, threshold), last);
    }
  }

  lemma ConcatAssoc(x: seq<Outcome>, y: seq<Outcome>, z: seq<Outcome>)
    ensures (x + y) + z == x + (y + z)
  {
  }

  /** One more image appends its outcomes. */
  lemma OutcomesSnoc(images: seq<int>, id: int, gts: seq<Annotation>, preds: seq<Annotation>, threshold: real)
    ensures Outcomes(images + [id], gts, preds, threshold)
         == Outcomes(images, gts, preds, threshold) + ImageOutcomes(OfImage(gts, id), OfImage(preds, id), threshold)
  {
    assert (images + [id])[..|images|] == images;
  }

  /** One class row does not depend on the order of two blocks of outcomes. */
  lemma ClassRowSwap(s: seq<Outcome>, t: seq<Outcome>, name: string)
    ensures ClassRowOf(s + t, name) == ClassRowOf(t + s, name)
  {
    SelectedConcat(s, t, ClassSel(name));
    SelectedConcat(t, s, ClassSel(name));
  }

  /** One bucket row does not depend on the order of two blocks of outcomes. */
  lemma RegionRowSwap(s: seq<Outcome>, t: seq<Outcome>, r: Region)
    ensures RegionRowOf(s + t, r) == RegionRowOf(t + s, r)
  {
    SelectedConcat(s, t, RegionSel(r));
    SelectedConcat(t, s, RegionSel(r));
  }

  lemma {:induction false} ClassRowsSwap(s: seq<Outcome>, t: seq<Outcome>, names: seq<string>)
    ensures ClassRows(s + t, names) == ClassRows(t + s, names)
  {
    if names != [] {
      var init, n := names[..|names| - 1], names[|names| - 1];
      ClassRowsSwap(s, t, init);
      ClassRowSwap(s, t, n);
      assert ClassRows(s + t, names) == ClassRows(s + t, init) + [ClassRowOf(s + t, n)];
      assert ClassRows(t + s, names) == ClassRows(t + s, init) + [ClassRowOf(t + s, n)];
    }
  }

  /** The report does not depend on the order in which two blocks of outcomes are folded. */
  lemma ReportSwap(s: seq<Outcome>, t: seq<Outcome>)
    ensures Report(s + t) == Report(t + s)
  {
    MissedConcat(s, t);
    MissedConcat(t, s);
    ClassRowsSwap(s, t, CategoryNames);
    RegionRowSwap(s, t, Small);
    RegionRowSwap(s, t, Medium);
    RegionRowSwap(s, t, Large);
    assert |s + t| == |t + s|;
  }

  /** Evaluating the images of list A before those of list B, or B before A, gives the same report. */
  lemma ImageOrderIrrelevant(a: seq<int>, b: seq<int>, gts: seq<Annotation>, preds: seq<Annotation>, threshold: real)
    ensures Report(Outcomes(a + b, gts, preds, threshold)) == Report(Outcomes(b + a, gts, preds, threshold))
  {
    OutcomesConcat(a, b, gts, preds, threshold);
    OutcomesConcat(b, a, gts, preds, threshold);
    ReportSwap(Outcomes(a, gts, preds, threshold), Outcomes(b, gts, preds, threshold));
  }

  /** `sum(len(matched_gt))` over the loaded images. */
  function SumMatchedGt(images: seq<int>, gts: seq<Annotation>, preds: seq<Annotation>, threshold: real): nat {
    if images == [] then 0
    else
      var id := images[|images| - 1];
      SumMatchedGt(images[..|images| - 1], gts, preds, threshold)
        + |GreedyMatch(BoxesOf(OfImage(gts, id)), BoxesOf(OfImage(preds, id)), threshold).gt|
  }

  /**
    The overall total counts every ground truth of the loaded images, whatever
    its category, and the misses are that total minus the matches of all images.
   */
  lemma {:induction false} MissedIsGtMinusMatched(images: seq<int>, gts: seq<Annotation>, preds: seq<Annotation>, threshold: real)
    ensures var os := Outcomes(images, gts, preds, threshold);
      && |os| == |LoadedGts(images, gts)|
      && SumMatchedGt(images, gts, preds, threshold) <= |os|
      && Missed(os) == |os| - SumMatchedGt(images, gts, preds, threshold)
  {
    if images != [] {
      var init, id := images[..|images| - 1], images[|images| - 1];
      MissedIsGtMinusMatched(init, gts, preds, threshold);
      ImageMissed(OfImage(gts, id), OfImage(preds, id), threshold);
      MissedConcat(Outcomes(init, gts, preds, threshold), ImageOutcomes(OfImage(gts, id), OfImage(preds, id), threshold));
    }
  }

  /**
    One image, one ground truth of class "Chip", one prediction far away: the
    box is missed and the miss ratio is 100%.
   */
  lemma SingleMissExample()
    ensures var gt, pred := Annotation(1, 0, Box(0.0, 0.0, 10.0, 10.0)), Annotation(1, 0, Box(20.0, 20.0, 10.0, 10.0));
      var e := Report(Outcomes([1], [gt], [pred], 0.5));
      e.totalGt == 1 && e.totalMissed == 1 && e.missRatio == Some(100.0)
  {
    var gt, pred := Annotation(1, 0, Box(0.0, 0.0, 10.0, 10.0)), Annotation(1, 0, Box(20.0, 20.0, 10.0, 10.0));
    assert OfImage([gt], 1) == [gt];
    assert OfImage([pred], 1) == [pred];
    assert BoxesOf([gt]) == [gt.bbox] && BoxesOf([pred]) == [pred.bbox];
    assert GuardedIou(gt.bbox, pred.bbox) == 0.0;
    assert BestAmong(gt.bbox, [pred.bbox], {}, 1) == -1;
    assert [gt.bbox][..0] == [];
    assert GreedyMatch([gt.bbox], [pred.bbox], 0.5) == Match({}, {});
    assert Flags([gt], {}) == [Outcome(gt, false)];
    assert ImageOutcomes([gt], [pred], 0.5) == [Outcome(gt, false)];
    var os := Outcomes([1], [gt], [pred], 0.5);
    assert [1][..0] == [];
    assert os == Outcomes([], [gt], [pred], 0.5) + ImageOutcomes([gt], [pred], 0.5);
    assert os == [Outcome(gt, false)];
    assert os[..0] == [];
  }
}
