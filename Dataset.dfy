/**
  Annotations as the evaluation scripts read them from COCO JSON, the
  per-image selection of the greedy evaluation and the per-image grouping of
  the summary script.
 */
module Dataset {
  import opened Geometry

  /**
    A ground-truth annotation or a detection: the image it belongs to, its
    category id and its `bbox`. Other JSON fields (id, area, score, …) are
    carried by the loaders and read by nothing modelled here.
   */
  datatype Annotation = Annotation(imageId: int, categoryId: int, bbox: Box)

  /** The `bbox` of every annotation, in order. */
  function BoxesOf(anns: seq<Annotation>): seq<Box> {
    seq(|anns|, i requires 0 <= i < |anns| => anns[i].bbox)
  }

  /** `[ann for ann in anns if ann["image_id"] == id]`. */
  function OfImage(anns: seq<Annotation>, id: int): seq<Annotation> {
    if anns == [] then []
    else
      var a := anns[|anns| - 1];
      OfImage(anns[..|anns| - 1], id) + (if a.imageId == id then [a] else [])
  }

  /** The image ids that occur in a list of annotations. */
  function ImageIds(anns: seq<Annotation>): set<int> {
    set i | 0 <= i < |anns| :: anns[i].imageId
  }

  /** `groups.get(id, [])`. */
  function GroupOf(groups: map<int, seq<Annotation>>, id: int): seq<Annotation> {
    if id in groups then groups[id] else []
  }

  /** The ground truths of the loaded images, image after image. */
  function LoadedGts(images: seq<int>, gts: seq<Annotation>): seq<Annotation> {
    if images == [] then []
    else LoadedGts(images[..|images| - 1], gts) + OfImage(gts, images[|images| - 1])
  }

  /** Everything selected belongs to the image, and nothing is invented. */
  lemma {:induction false} OfImageSelects(anns: seq<Annotation>, id: int)
    ensures |OfImage(anns, id)| <= |anns|
    ensures forall k :: 0 <= k < |OfImage(anns, id)| ==> OfImage(anns, id)[k].imageId == id
  {
    if anns != [] {
      OfImageSelects(anns[..|anns| - 1], id);
    }
  }

  /**
    Every occurrence of an annotation lands in the selection of its own image
    and in no other: the selections partition the list.
   */
  lemma {:induction false} OfImageMultiplicity(anns: seq<Annotation>, id: int, x: Annotation)
    ensures multiset(OfImage(anns, id))[x] == if x.imageId == id then multiset(anns)[x] else 0
  {
    if anns != [] {
      var init, a := anns[..|anns| - 1], anns[|anns| - 1];
      OfImageMultiplicity(init, id, x);
      assert anns == init + [a];
    }
  }

  /** Selecting from a concatenation selects from each part: the relative order is kept. */
  lemma {:induction false} OfImageConcat(s: seq<Annotation>, t: seq<Annotation>, id: int)
    ensures OfImage(s + t, id) == OfImage(s, id) + OfImage(t, id)
  {
    if t != [] {
      var init, a := t[..|t| - 1], t[|t| - 1];
      assert (s + t)[..|s + t| - 1] == s + init;
      assert (s + t)[|s + t| - 1] == a;
      OfImageConcat(s, init, id);
      calc {
        OfImage(s + t, id);
        OfImage(s + init, id) + (if a.imageId == id then [a] else []);
        OfImage(s, id) + OfImage(init, id) + (if a.imageId == id then [a] else []);
        OfImage(s, id) + OfImage(t, id);
      }
    } else {
      assert s + t == s;
    }
  }

  /** One round of the grouping loop keeps the loop's two invariants. */
  lemma GroupStep(anns: seq<Annotation>, i: nat, before: map<int, seq<Annotation>>, after: map<int, seq<Annotation>>)
    requires i < |anns|
    requires before.Keys == ImageIds(anns[..i])
    requires forall id :: GroupOf(before, id) == OfImage(anns[..i], id)
    requires after == before[anns[i].imageId := GroupOf(before, anns[i].imageId) + [anns[i]]]
    ensures after.Keys == ImageIds(anns[..i + 1])
    ensures forall id :: GroupOf(after, id) == OfImage(anns[..i + 1], id)
  {
    forall id ensures GroupOf(after, id) == OfImage(anns[..i + 1], id) {
      OfImagePrefix(anns, i, id);
    }
    ImageIdsPrefix(anns, i);
  }

  lemma OfImagePrefix(anns: seq<Annotation>, i: nat, id: int)
    requires i < |anns|
    ensures OfImage(anns[..i + 1], id) == OfImage(anns[..i], id) + (if anns[i].imageId == id then [anns[i]] else [])
  {
    assert anns[..i + 1][..i] == anns[..i];
  }

  lemma ImageIdsPrefix(anns: seq<Annotation>, i: nat)
    requires i < |anns|
    ensures ImageIds(anns[..i + 1]) == ImageIds(anns[..i]) + {anns[i].imageId}
  {
    assert forall j :: 0 <= j < i ==> anns[..i + 1][j] == anns[..i][j];
    assert anns[..i + 1][i] == anns[i];
  }

  /**
    The `setdefault(image_id, []).append(ann)` loop of the summary script: one
    group per image id that occurs, holding that image's annotations in their
    original order.
   */
  method GroupByImage(anns: seq<Annotation>) returns (groups: map<int, seq<Annotation>>)
    ensures groups.Keys == ImageIds(anns)
    ensures forall id :: GroupOf(groups, id) == OfImage(anns, id)
  {
    groups := map[];
    for i := 0 to |anns|
      invariant groups.Keys == ImageIds(anns[..i])
      invariant forall id :: GroupOf(groups, id) == OfImage(anns[..i], id)
    {
      var ann := anns[i];
      ghost var before := groups;
      groups := groups[ann.imageId := GroupOf(groups, ann.imageId) + [ann]];
      GroupStep(anns, i, before, groups);
    }
    assert anns[..|anns|] == anns;
  }
}
