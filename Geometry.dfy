/**
  Axis-aligned boxes in COCO's `[x, y, w, h]` layout and the two
  intersection-over-union functions of the evaluation scripts.

  Coordinates are exact reals, so the floating-point `min(iou, 1.0)` clamp of
  the guarded variant never has to absorb a rounding overshoot.
 */
module Geometry {

  /** A box with top-left corner (x, y), width w and height h. */
  datatype Box = Box(x: real, y: real, w: real, h: real)

  /** The union-area guard of the evaluation script, 1e-7. */
  const Eps: real := 0.0000001

  function Max(p: real, q: real): real { if p >= q then p else q }
  function Min(p: real, q: real): real { if p <= q then p else q }

  function Area(b: Box): real { b.w * b.h }

  /** Edges of the intersection rectangle. */
  function Left(a: Box, b: Box): real { Max(a.x, b.x) }
  function Top(a: Box, b: Box): real { Max(a.y, b.y) }
  function Right(a: Box, b: Box): real { Min(a.x + a.w, b.x + b.w) }
  function Bottom(a: Box, b: Box): real { Min(a.y + a.h, b.y + b.h) }

  /** The boxes share an interior point; touching at an edge or a corner is not overlapping. */
  predicate Overlaps(a: Box, b: Box) {
    Right(a, b) > Left(a, b) && Bottom(a, b) > Top(a, b)
  }

  /** Intersection and union areas as the guarded variant computes them once the boxes overlap. */
  function OverlapArea(a: Box, b: Box): real {
    (Right(a, b) - Left(a, b)) * (Bottom(a, b) - Top(a, b))
  }

  function OverlapUnion(a: Box, b: Box): real {
    Area(a) + Area(b) - OverlapArea(a, b)
  }

  /**
    `compute_iou` of the greedy evaluation: 0 when the boxes do not overlap or
    when the union is below Eps, otherwise intersection over union, clamped at 1.
   */
  function GuardedIou(a: Box, b: Box): (r: real)
    ensures 0.0 <= r <= 1.0
  {
    if !Overlaps(a, b) then 0.0
    else
      var union := OverlapUnion(a, b);
      if union < Eps then 0.0
      else
        OverlapFacts(a, b);
        PositiveRatio(OverlapArea(a, b), union);
        Min(OverlapArea(a, b) / union, 1.0)
  }

  /** Clamped intersection extents of the summary script: `max(0, xi2 - xi1)`, `max(0, yi2 - yi1)`. */
  function ClampedWidth(a: Box, b: Box): real { Max(0.0, Right(a, b) - Left(a, b)) }
  function ClampedHeight(a: Box, b: Box): real { Max(0.0, Bottom(a, b) - Top(a, b)) }

  function ClampedInter(a: Box, b: Box): real { ClampedWidth(a, b) * ClampedHeight(a, b) }
  function ClampedUnion(a: Box, b: Box): real { Area(a) + Area(b) - ClampedInter(a, b) }

  /**
    `compute_iou` of the summary script: the intersection extents are clamped
    at 0 and the result is 0 only when the union is exactly 0.
   */
  function ClampedIou(a: Box, b: Box): real {
    var union := ClampedUnion(a, b);
    if union == 0.0 then 0.0 else ClampedInter(a, b) / union
  }

  /** Boxes of non-negative width and height, the only kind the data model admits. */
  predicate WellFormed(b: Box) { b.w >= 0.0 && b.h >= 0.0 }

  // ---------------------------------------------------------------------------
  // Arithmetic helpers

  lemma PositiveRatio(p: real, q: real)
    requires p > 0.0 && q > 0.0
    ensures p / q > 0.0
  {
    assert p / q * q == p;
  }

  lemma RatioAtMostOne(p: real, q: real)
    requires 0.0 <= p <= q && q > 0.0
    ensures 0.0 <= p / q <= 1.0
  {
    assert p / q * q == p;
  }

  /** The clamped overlap of the intervals [p, p + pw] and [q, q + qw] is no longer than either. */
  lemma ClampedExtent(p: real, pw: real, q: real, qw: real)
    requires pw >= 0.0 && qw >= 0.0
    ensures 0.0 <= Max(0.0, Min(p + pw, q + qw) - Max(p, q)) <= pw
    ensures Max(0.0, Min(p + pw, q + qw) - Max(p, q)) <= qw
  {
  }

  lemma ProductSign(p: real, q: real)
    requires 0.0 <= p && 0.0 <= q
    ensures 0.0 <= p * q
    ensures p > 0.0 && q > 0.0 ==> p * q > 0.0
  {
  }

  lemma ProductMonotone(p: real, q: real, p': real, q': real)
    requires 0.0 <= p <= p' && 0.0 <= q <= q'
    ensures 0.0 <= p * q <= p' * q'
  {
    ProductSign(p, q);
    ProductSign(p' - p, q);
    ProductSign(p', q' - q);
    assert (p' - p) * q == p' * q - p * q;
    assert p' * (q' - q) == p' * q' - p' * q;
  }

  // ---------------------------------------------------------------------------
  // Properties of the guarded IoU

  /** Overlapping boxes have positive width and height and an intersection no larger than either box. */
  lemma OverlapFacts(a: Box, b: Box)
    requires Overlaps(a, b)
    ensures a.w > 0.0 && a.h > 0.0 && b.w > 0.0 && b.h > 0.0
    ensures 0.0 < OverlapArea(a, b) <= Area(a) && OverlapArea(a, b) <= Area(b)
    ensures OverlapUnion(a, b) >= OverlapArea(a, b)
  {
    var iw, ih := Right(a, b) - Left(a, b), Bottom(a, b) - Top(a, b);
    assert 0.0 < iw <= a.w && iw <= b.w;
    assert 0.0 < ih <= a.h && ih <= b.h;
    assert OverlapArea(a, b) == iw * ih;
    ProductSign(iw, ih);
    ProductMonotone(iw, ih, a.w, a.h);
    ProductMonotone(iw, ih, b.w, b.h);
  }

  /** Disjoint boxes, and boxes that meet only at an edge or a corner, score 0. */
  lemma GuardedIouNoOverlap(a: Box, b: Box)
    requires a.x + a.w <= b.x || b.x + b.w <= a.x || a.y + a.h <= b.y || b.y + b.h <= a.y
    ensures GuardedIou(a, b) == 0.0
  {
  }

  /** The guarded IoU is positive exactly when the boxes overlap and the union reaches Eps. */
  lemma GuardedIouPositive(a: Box, b: Box)
    ensures GuardedIou(a, b) > 0.0 <==> Overlaps(a, b) && OverlapUnion(a, b) >= Eps
  {
    if Overlaps(a, b) && OverlapUnion(a, b) >= Eps {
      OverlapFacts(a, b);
      PositiveRatio(OverlapArea(a, b), OverlapUnion(a, b));
    }
  }

  /** Once positive, the guarded IoU is the plain ratio: the clamp at 1 never bites. */
  lemma GuardedIouIsRatio(a: Box, b: Box)
    requires GuardedIou(a, b) > 0.0
    ensures Overlaps(a, b) && OverlapUnion(a, b) >= Eps
    ensures GuardedIou(a, b) == OverlapArea(a, b) / OverlapUnion(a, b)
  {
    GuardedIouPositive(a, b);
    OverlapFacts(a, b);
    RatioAtMostOne(OverlapArea(a, b), OverlapUnion(a, b));
  }

  lemma GuardedIouSymmetric(a: Box, b: Box)
    ensures GuardedIou(a, b) == GuardedIou(b, a)
  {
    assert Left(a, b) == Left(b, a) && Right(a, b) == Right(b, a);
    assert Top(a, b) == Top(b, a) && Bottom(a, b) == Bottom(b, a);
    assert OverlapUnion(a, b) == OverlapUnion(b, a);
  }

  /**
    A box scored against itself gives 1 exactly when its width and height are
    positive and its area reaches Eps; a tinier box falls under the guard and scores 0.
   */
  lemma GuardedIouSelf(a: Box)
    ensures GuardedIou(a, a) == 1.0 <==> a.w > 0.0 && a.h > 0.0 && Area(a) >= Eps
  {
    if a.w > 0.0 && a.h > 0.0 {
      assert Right(a, a) - Left(a, a) == a.w;
      assert Bottom(a, a) - Top(a, a) == a.h;
      assert OverlapArea(a, a) == Area(a);
      assert OverlapUnion(a, a) == Area(a);
      if Area(a) >= Eps {
        assert Area(a) / Area(a) == 1.0;
      }
    }
  }

  // ---------------------------------------------------------------------------
  // Properties of the clamped IoU

  /** Touching at an edge or a corner, or not meeting at all, gives an intersection of 0 and an IoU of 0. */
  lemma ClampedIouNoOverlap(a: Box, b: Box)
    requires !Overlaps(a, b)
    ensures ClampedInter(a, b) == 0.0 && ClampedIou(a, b) == 0.0
  {
    assert ClampedWidth(a, b) == 0.0 || ClampedHeight(a, b) == 0.0;
  }

  /** For boxes of non-negative extent the clamped IoU lies in [0, 1]. */
  lemma ClampedIouBounds(a: Box, b: Box)
    requires WellFormed(a) && WellFormed(b)
    ensures 0.0 <= ClampedIou(a, b) <= 1.0
  {
    ClampedInterBounds(a, b);
    var inter, union := ClampedInter(a, b), ClampedUnion(a, b);
    assert union == (Area(a) - inter) + Area(b);
    if union != 0.0 {
      RatioAtMostOne(inter, union);
    }
  }

  /** The clamped intersection is non-negative and no larger than either well-formed box. */
  lemma ClampedInterBounds(a: Box, b: Box)
    requires WellFormed(a) && WellFormed(b)
    ensures 0.0 <= ClampedInter(a, b) <= Area(a) && ClampedInter(a, b) <= Area(b)
  {
    var cw, ch := ClampedWidth(a, b), ClampedHeight(a, b);
    assert 0.0 <= cw <= a.w && cw <= b.w by {
      ClampedExtent(a.x, a.w, b.x, b.w);
    }
    assert 0.0 <= ch <= a.h && ch <= b.h by {
      ClampedExtent(a.y, a.h, b.y, b.h);
    }
    ProductMonotone(cw, ch, a.w, a.h);
    ProductMonotone(cw, ch, b.w, b.h);
  }

  lemma ClampedIouSymmetric(a: Box, b: Box)
    ensures ClampedIou(a, b) == ClampedIou(b, a)
  {
    assert Left(a, b) == Left(b, a) && Right(a, b) == Right(b, a);
    assert Top(a, b) == Top(b, a) && Bottom(a, b) == Bottom(b, a);
    assert ClampedInter(a, b) == ClampedInter(b, a);
  }

  /** Of a well-formed box against itself, the clamped IoU is 1 exactly when the box has positive area. */
  lemma ClampedIouSelf(a: Box)
    requires WellFormed(a)
    ensures ClampedIou(a, a) == 1.0 <==> a.w > 0.0 && a.h > 0.0
  {
    assert ClampedWidth(a, a) == a.w && ClampedHeight(a, a) == a.h;
    assert ClampedUnion(a, a) == Area(a);
    if a.w > 0.0 && a.h > 0.0 {
      assert Area(a) > 0.0;
      assert Area(a) / Area(a) == 1.0;
    } else {
      assert Area(a) == 0.0;
    }
  }

  /** Wherever the guarded IoU is positive the two scripts compute the same score. */
  lemma IousAgree(a: Box, b: Box)
    requires GuardedIou(a, b) > 0.0
    ensures ClampedIou(a, b) == GuardedIou(a, b)
  {
    GuardedIouIsRatio(a, b);
    assert ClampedWidth(a, b) == Right(a, b) - Left(a, b);
    assert ClampedHeight(a, b) == Bottom(a, b) - Top(a, b);
    assert ClampedInter(a, b) == OverlapArea(a, b);
    assert ClampedUnion(a, b) == OverlapUnion(a, b);
  }

  /** Two 10x10 boxes offset by one pixel overlap in 81 of 119 square pixels. */
  lemma OffsetExample()
    ensures GuardedIou(Box(0.0, 0.0, 10.0, 10.0), Box(1.0, 1.0, 10.0, 10.0)) == 81.0 / 119.0
    ensures GuardedIou(Box(0.0, 0.0, 10.0, 10.0), Box(1.0, 1.0, 10.0, 10.0)) >= 0.5
  {
    var a, b := Box(0.0, 0.0, 10.0, 10.0), Box(1.0, 1.0, 10.0, 10.0);
    assert OverlapArea(a, b) == 81.0;
    assert OverlapUnion(a, b) == 119.0;
  }
}
