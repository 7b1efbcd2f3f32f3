/**
 * Axis-aligned boxes and their intersection-over-union (`compute_iou`).
 * Coordinates are reals; the source uses only +, -, *, / and min/max on them.
 */
module Geometry {

  /** Corners `(x1, y1)` top-left and `(x2, y2)` bottom-right. */
  datatype Box = Box(x1: real, y1: real, x2: real, y2: real)

  /** The loaders' invariant: positive width and height. */
  predicate NonDegenerate(b: Box)
  {
    b.x1 < b.x2 && b.y1 < b.y2
  }

  /** Inside the unit square, as clipped YOLO boxes are. */
  predicate InUnitSquare(b: Box)
  {
    0.0 <= b.x1 && b.x2 <= 1.0 && 0.0 <= b.y1 && b.y2 <= 1.0
  }

  function Max(a: real, b: real): real { if a >= b then a else b }

  function Min(a: real, b: real): real { if a <= b then a else b }

  /** Extent of the overlap on the x axis before clamping at zero. */
  function RawOverlapX(a: Box, b: Box): real
  {
    Min(a.x2, b.x2) - Max(a.x1, b.x1)
  }

  function RawOverlapY(a: Box, b: Box): real
  {
    Min(a.y2, b.y2) - Max(a.y1, b.y1)
  }

  function Area(b: Box): real
  {
    (b.x2 - b.x1) * (b.y2 - b.y1)
  }

  /** The intersection area: product of the overlaps, each clamped at zero. */
  function InterArea(a: Box, b: Box): real
  {
    Max(0.0, RawOverlapX(a, b)) * Max(0.0, RawOverlapY(a, b))
  }

  /** `compute_iou`: zero unless the boxes overlap, otherwise
      intersection / union, guarded against a non-positive union. */
  function Iou(a: Box, b: Box): real
  {
    var inter := InterArea(a, b);
    if inter <= 0.0 then 0.0
    else
      var denom := Area(a) + Area(b) - inter;
      if denom > 0.0 then inter / denom else 0.0
  }

  lemma MulMonotone(p: real, q: real, u: real, v: real)
    requires 0.0 <= p <= u && 0.0 <= q <= v
    ensures p * q <= u * v
  {
    assert p * q <= u * q;
    assert u * q <= u * v;
  }

  lemma DivPositiveAtMostOne(n: real, d: real)
    requires 0.0 < n <= d
    ensures 0.0 < n / d <= 1.0
  {
    assert (n / d) * d == n;
  }

  /** When the boxes overlap, the intersection is no larger than either box. */
  lemma {:induction false} InterWithinAreas(a: Box, b: Box)
    requires RawOverlapX(a, b) > 0.0 && RawOverlapY(a, b) > 0.0
    ensures 0.0 < InterArea(a, b)
    ensures InterArea(a, b) <= Area(a) && InterArea(a, b) <= Area(b)
  {
    var w, h := RawOverlapX(a, b), RawOverlapY(a, b);
    assert InterArea(a, b) == w * h;
    MulMonotone(w, h, a.x2 - a.x1, a.y2 - a.y1);
    MulMonotone(w, h, b.x2 - b.x1, b.y2 - b.y1);
  }

  /** IoU lies in [0, 1]; it is 0 exactly when the boxes do not overlap on some
      axis, and positive otherwise. Holds for every pair of boxes. */
  lemma {:induction false} IouRange(a: Box, b: Box)
    ensures 0.0 <= Iou(a, b) <= 1.0
    ensures Iou(a, b) == 0.0 <==> RawOverlapX(a, b) <= 0.0 || RawOverlapY(a, b) <= 0.0
  {
    var w, h := RawOverlapX(a, b), RawOverlapY(a, b);
    if w > 0.0 && h > 0.0 {
      InterWithinAreas(a, b);
      var inter := InterArea(a, b);
      DivPositiveAtMostOne(inter, Area(a) + Area(b) - inter);
    } else {
      assert InterArea(a, b) == 0.0;
    }
  }

  /** IoU does not depend on the order of its arguments. */
  lemma IouSymmetric(a: Box, b: Box)
    ensures Iou(a, b) == Iou(b, a)
  {
    assert InterArea(a, b) == InterArea(b, a);
  }

  /** A non-degenerate box overlaps itself completely. */
  lemma IouSelf(a: Box)
    requires NonDegenerate(a)
    ensures Iou(a, a) == 1.0
  {
    var w, h := a.x2 - a.x1, a.y2 - a.y1;
    assert InterArea(a, a) == Area(a) == w * h;
    assert w * h > 0.0 * h;
    assert Iou(a, a) == Area(a) / Area(a);
  }

}
