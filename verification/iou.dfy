/** Box overlap, written three times in the pipeline: once per tracker and once for
    whole batches. */
module Overlap {
  import opened Geometry

  function Max(a: real, b: real): real { if a < b then b else a }

  function Min(a: real, b: real): real { if a < b then a else b }

  function Width(a: Box, b: Box): real {
    Max(0.0, Min(a.x2, b.x2) - Max(a.x1, b.x1))
  }

  function Height(a: Box, b: Box): real {
    Max(0.0, Min(a.y2, b.y2) - Max(a.y1, b.y1))
  }

  function Intersection(a: Box, b: Box): real {
    Width(a, b) * Height(a, b)
  }

  function Area(a: Box): real {
    Max(0.0, a.x2 - a.x1) * Max(0.0, a.y2 - a.y1)
  }

  /** The person tracker's `_iou`. */
  function Iou(a: Box, b: Box): real {
    var inter := Intersection(a, b);
    if inter == 0.0 then 0.0
    else
      var union := Area(a) + Area(b) - inter;
      if union <= 0.0 then 0.0 else inter / union
  }

  /** The snapshot detector's `Box.iou`. */
  function DetectorIou(a: Box, b: Box): real {
    var inter := Intersection(a, b);
    var union := Area(a) + Area(b) - inter;
    if union > 0.0 then inter / union else 0.0
  }

  datatype Metric = IOU | IOS

  function RawArea(a: Box): real {
    (a.x2 - a.x1) * (a.y2 - a.y1)
  }

  function Norm(a: Box, b: Box, inter: real, metric: Metric): real {
    match metric
    case IOU => RawArea(a) + RawArea(b) - inter
    case IOS => Min(RawArea(a), RawArea(b))
  }

  function EntryWidth(a: Box, b: Box): real {
    Max(Min(a.x2, b.x2) - Max(a.x1, b.x1), 0.0)
  }

  function EntryHeight(a: Box, b: Box): real {
    Max(Min(a.y2, b.y2) - Max(a.y1, b.y1), 0.0)
  }

  function Ratio(x: real, n: real): real {
    if n > 0.0 then x / n else 0.0
  }

  /** One entry of the batch matrix; the areas are not clipped here. */
  function BatchEntry(a: Box, b: Box, metric: Metric): real {
    var inter := EntryWidth(a, b) * EntryHeight(a, b);
    var norm := Norm(a, b, inter, metric);
    Ratio(inter, norm)
  }

  ghost predicate Proper(a: Box) {
    a.x1 < a.x2 && a.y1 < a.y2
  }

  // ---- Products ----

  lemma ProductMonotone(x: real, y: real, x': real, y': real)
    requires 0.0 <= x <= x' && 0.0 <= y <= y'
    ensures 0.0 <= x * y <= x' * y'
  {
    assert x * y <= x' * y;
    assert x' * y <= x' * y';
  }

  lemma ProductZero(x: real, y: real, p: real)
    requires x >= 0.0 && y >= 0.0 && p == x * y
    ensures p >= 0.0
    ensures p > 0.0 <==> x > 0.0 && y > 0.0
  {
    if x > 0.0 && y > 0.0 {
      PositiveProduct(x, y, p);
    } else if x == 0.0 {
      assert p == 0.0 * y;
    } else {
      assert p == x * 0.0;
    }
  }

  /** Equal products of smaller factors force equal factors. */
  lemma ProductTight(x: real, y: real, x': real, y': real)
    requires 0.0 < x <= x' && 0.0 < y <= y' && x * y == x' * y'
    ensures x == x' && y == y'
  {
    ProductMonotone(x, y, x, y');
    ProductMonotone(x, y, x', y);
    CancelProduct(x, x', y');
    CancelProduct(y, y', x');
  }

  lemma CancelProduct(x: real, x': real, y: real)
    requires x <= x' && 0.0 < y
    ensures x' * y <= x * y ==> x == x'
    ensures y * x' <= y * x ==> x == x'
  {
    if x < x' {
      PositiveProduct(x' - x, y, (x' - x) * y);
    }
  }

  // ---- What the overlap means ----

  lemma IntersectionSymmetric(a: Box, b: Box)
    ensures Intersection(a, b) == Intersection(b, a)
  {
    assert Width(a, b) == Width(b, a) && Height(a, b) == Height(b, a);
  }

  lemma IntersectionWithin(a: Box, b: Box)
    ensures 0.0 <= Intersection(a, b) <= Area(a)
  {
    ProductMonotone(Width(a, b), Height(a, b), Max(0.0, a.x2 - a.x1), Max(0.0, a.y2 - a.y1));
  }

  lemma IntersectionBounds(a: Box, b: Box)
    ensures 0.0 <= Intersection(a, b) <= Area(a)
    ensures Intersection(a, b) <= Area(b)
  {
    hide Intersection, Area;
    IntersectionWithin(a, b);
    IntersectionWithin(b, a);
    IntersectionSymmetric(a, b);
  }

  lemma IntersectionProper(a: Box, b: Box)
    requires Intersection(a, b) != 0.0
    ensures Intersection(a, b) > 0.0 && Proper(a) && Proper(b)
    ensures Area(a) == RawArea(a) && Area(b) == RawArea(b)
  {
    ProductZero(Width(a, b), Height(a, b), Intersection(a, b));
  }

  /** The branch for a non-positive union is never reached. */
  lemma UnionPositive(a: Box, b: Box)
    requires Intersection(a, b) != 0.0
    ensures Area(a) + Area(b) - Intersection(a, b) > 0.0
  {
    IntersectionProper(a, b);
    IntersectionBounds(a, b);
  }

  lemma ZeroOver(n: real)
    requires n != 0.0
    ensures 0.0 / n == 0.0
  {
  }

  /** With no shared area every formula gives 0, whatever it divides by. */
  lemma RatioOfNothing(n: real)
    ensures Ratio(0.0, n) == 0.0
  {
    if n > 0.0 {
      ZeroOver(n);
    }
  }

  lemma DetectorRatio(a: Box, b: Box)
    ensures DetectorIou(a, b) == Ratio(Intersection(a, b), Area(a) + Area(b) - Intersection(a, b))
  {
  }

  lemma BatchRatio(a: Box, b: Box)
    ensures BatchEntry(a, b, IOU) == Ratio(Intersection(a, b), RawArea(a) + RawArea(b) - Intersection(a, b))
  {
    assert EntryWidth(a, b) == Width(a, b) && EntryHeight(a, b) == Height(a, b);
  }

  /** The three formulas agree entry by entry, on all boxes, degenerate or not. */
  lemma OverlapsAgree(a: Box, b: Box)
    ensures Iou(a, b) == DetectorIou(a, b) == BatchEntry(a, b, IOU)
  {
    hide Intersection, Area, RawArea, DetectorIou, BatchEntry;
    var inter := Intersection(a, b);
    DetectorRatio(a, b);
    BatchRatio(a, b);
    if inter != 0.0 {
      IntersectionProper(a, b);
      UnionPositive(a, b);
    } else {
      RatioOfNothing(Area(a) + Area(b) - inter);
      RatioOfNothing(RawArea(a) + RawArea(b) - inter);
    }
  }

  lemma QuotientUnit(x: real, n: real, q: real)
    requires n > 0.0 && 0.0 <= x <= n && q == x / n
    ensures 0.0 <= q <= 1.0
    ensures q == 1.0 <==> x == n
    ensures q == 0.0 <==> x == 0.0
  {
    assert q * n == x;
    if q < 0.0 {
      PositiveProduct(-q, n, -q * n);
    }
    if q > 1.0 {
      PositiveProduct(q - 1.0, n, (q - 1.0) * n);
    }
  }

  /** The overlap is symmetric, lies between 0 and 1, and is positive exactly when
      the boxes share area. */
  lemma IouRange(a: Box, b: Box)
    ensures 0.0 <= Iou(a, b) <= 1.0
    ensures Iou(a, b) == Iou(b, a)
    ensures Iou(a, b) > 0.0 <==> Intersection(a, b) > 0.0
  {
    IntersectionBounds(a, b);
    IntersectionSymmetric(a, b);
    if Intersection(a, b) != 0.0 {
      UnionPositive(a, b);
      QuotientUnit(Intersection(a, b), Area(a) + Area(b) - Intersection(a, b), Iou(a, b));
    }
  }

  /** The overlap is 1 exactly for a box of positive area and itself. */
  lemma IouIsOne(a: Box, b: Box)
    ensures Iou(a, b) == 1.0 <==> a == b && Proper(a)
  {
    IntersectionBounds(a, b);
    var inter := Intersection(a, b);
    if inter != 0.0 {
      IntersectionProper(a, b);
      UnionPositive(a, b);
      var union := Area(a) + Area(b) - inter;
      QuotientUnit(inter, union, Iou(a, b));
      if Iou(a, b) == 1.0 {
        assert inter == Area(a) == Area(b);
        SameExtent(a, b);
        SameExtent(b, a);
      }
    } else if a == b && Proper(a) {
      PositiveProduct(a.x2 - a.x1, a.y2 - a.y1, inter);
    }
  }

  /** A box that an intersection fills is contained in the other box. */
  lemma SameExtent(a: Box, b: Box)
    requires Proper(a) && Proper(b) && Intersection(a, b) == Area(a) && Intersection(a, b) > 0.0
    ensures b.x1 <= a.x1 && a.x2 <= b.x2 && b.y1 <= a.y1 && a.y2 <= b.y2
  {
    ProductZero(Width(a, b), Height(a, b), Intersection(a, b));
    ProductTight(Width(a, b), Height(a, b), a.x2 - a.x1, a.y2 - a.y1);
  }

  /** The shared part of two boxes, as a box; it may be empty. */
  function Meet(a: Box, b: Box): Box {
    Box(Max(a.x1, b.x1), Max(a.y1, b.y1), Min(a.x2, b.x2), Min(a.y2, b.y2))
  }

  predicate Inside(q: Point, a: Box) {
    a.x1 <= q.x <= a.x2 && a.y1 <= q.y <= a.y2
  }

  /** The intersection is the area of what lies in both boxes. */
  lemma IntersectionIsShared(a: Box, b: Box)
    ensures forall q :: Inside(q, Meet(a, b)) <==> Inside(q, a) && Inside(q, b)
    ensures Intersection(a, b) == Area(Meet(a, b))
    ensures Area(a) == if Proper(a) then (a.x2 - a.x1) * (a.y2 - a.y1) else 0.0
  {
    if !Proper(a) {
      assert Max(0.0, a.x2 - a.x1) == 0.0 || Max(0.0, a.y2 - a.y1) == 0.0;
    }
  }

  /** The overlap is the shared area over the area covered by either box. */
  lemma IouIsShare(a: Box, b: Box)
    ensures Iou(a, b) * (Area(a) + Area(b) - Area(Meet(a, b))) == Area(Meet(a, b))
  {
    hide Area, Intersection;
    IntersectionIsShared(a, b);
    if Intersection(a, b) != 0.0 {
      UnionPositive(a, b);
    }
  }

  ghost predicate Contains(a: Box, b: Box) {
    a.x1 <= b.x1 && a.y1 <= b.y1 && b.x2 <= a.x2 && b.y2 <= a.y2
  }

  lemma ProperAreas(a: Box)
    requires Proper(a)
    ensures Area(a) == RawArea(a) > 0.0
  {
    ProductZero(a.x2 - a.x1, a.y2 - a.y1, Area(a));
  }

  lemma IosEntry(a: Box, b: Box)
    requires Proper(a) && Proper(b)
    ensures BatchEntry(a, b, IOS) == Intersection(a, b) / Min(Area(a), Area(b))
  {
    hide Area, RawArea;
    ProperAreas(a);
    ProperAreas(b);
    assert EntryWidth(a, b) == Width(a, b) && EntryHeight(a, b) == Height(a, b);
  }

  /** An intersection that fills a box means that the other one contains it. */
  lemma FilledIsInner(a: Box, b: Box)
    requires Proper(a) && Proper(b)
    ensures Intersection(a, b) == Area(a) ==> Contains(b, a)
  {
    hide Area, Intersection;
    ProperAreas(a);
    if Intersection(a, b) == Area(a) {
      SameExtent(a, b);
    }
  }

  /** The other metric is 1 exactly when one of two boxes of positive area contains the
      other. */
  lemma IosIsOne(a: Box, b: Box)
    requires Proper(a) && Proper(b)
    ensures BatchEntry(a, b, IOS) == 1.0 <==> Contains(a, b) || Contains(b, a)
  {
    hide Area, RawArea, Intersection, BatchEntry, Contains;
    IosEntry(a, b);
    ProperAreas(a);
    ProperAreas(b);
    IntersectionBounds(a, b);
    IntersectionSymmetric(a, b);
    QuotientUnit(Intersection(a, b), Min(Area(a), Area(b)), BatchEntry(a, b, IOS));
    FilledIsInner(a, b);
    FilledIsInner(b, a);
    if Contains(a, b) {
      InnerArea(a, b);
    }
    if Contains(b, a) {
      InnerArea(b, a);
    }
  }

  /** A contained box is all shared. */
  lemma InnerArea(a: Box, b: Box)
    requires Proper(a) && Proper(b) && Contains(a, b)
    ensures Intersection(a, b) == Area(b) == Intersection(b, a) && Area(b) <= Area(a)
  {
    assert Width(a, b) == b.x2 - b.x1 == Width(b, a) && Height(a, b) == b.y2 - b.y1 == Height(b, a);
    IntersectionBounds(a, b);
  }

  // ---- The batch ----

  /** Clipped overlap of all pairs of intervals.  The matrix of upper bounds is
      reused for the lengths. */
  method Extents(lo1: seq<real>, hi1: seq<real>, lo2: seq<real>, hi2: seq<real>) returns (hi: array2<real>)
    requires |lo1| == |hi1| && |lo2| == |hi2|
    ensures fresh(hi) && hi.Length0 == |lo1| && hi.Length1 == |lo2|
    ensures forall i, j :: 0 <= i < |lo1| && 0 <= j < |lo2| ==>
      hi[i, j] == Max(Min(hi1[i], hi2[j]) - Max(lo1[i], lo2[j]), 0.0)
  {
    var n, m := |lo1|, |lo2|;
    var lo := new real[n, m];
    hi := new real[n, m];
    forall i, j | 0 <= i < n && 0 <= j < m { lo[i, j] := Max(lo1[i], lo2[j]); }
    forall i, j | 0 <= i < n && 0 <= j < m { hi[i, j] := Min(hi1[i], hi2[j]); }
    forall i, j | 0 <= i < n && 0 <= j < m { hi[i, j] := hi[i, j] - lo[i, j]; }
    forall i, j | 0 <= i < n && 0 <= j < m { hi[i, j] := Max(hi[i, j], 0.0); }
  }

  function Column(boxes: seq<Box>, f: Box -> real): (c: seq<real>)
    ensures |c| == |boxes| && forall i :: 0 <= i < |boxes| ==> c[i] == f(boxes[i])
  {
    seq(|boxes|, i requires 0 <= i < |boxes| => f(boxes[i]))
  }

  method Widths(a: seq<Box>, b: seq<Box>) returns (w: array2<real>)
    ensures fresh(w) && w.Length0 == |a| && w.Length1 == |b|
    ensures forall i, j :: 0 <= i < |a| && 0 <= j < |b| ==> w[i, j] == EntryWidth(a[i], b[j])
  {
    w := Extents(Column(a, (b: Box) => b.x1), Column(a, (b: Box) => b.x2),
                 Column(b, (b: Box) => b.x1), Column(b, (b: Box) => b.x2));
  }

  method Heights(a: seq<Box>, b: seq<Box>) returns (h: array2<real>)
    ensures fresh(h) && h.Length0 == |a| && h.Length1 == |b|
    ensures forall i, j :: 0 <= i < |a| && 0 <= j < |b| ==> h[i, j] == EntryHeight(a[i], b[j])
  {
    h := Extents(Column(a, (b: Box) => b.y1), Column(a, (b: Box) => b.y2),
                 Column(b, (b: Box) => b.y1), Column(b, (b: Box) => b.y2));
  }

  /** `np.divide` where the divisor is positive, into a zeroed matrix. */
  method Divide(x: array2<real>, n: array2<real>) returns (out: array2<real>)
    requires n.Length0 == x.Length0 && n.Length1 == x.Length1
    ensures fresh(out) && out.Length0 == x.Length0 && out.Length1 == x.Length1
    ensures forall i, j :: 0 <= i < x.Length0 && 0 <= j < x.Length1 ==> out[i, j] == Ratio(x[i, j], n[i, j])
  {
    out := new real[x.Length0, x.Length1]((i, j) => 0.0);
    forall i, j | 0 <= i < x.Length0 && 0 <= j < x.Length1 && n[i, j] > 0.0 { out[i, j] := x[i, j] / n[i, j]; }
  }

  /** `box_iou_batch`: for the default metric every entry is the scalar overlap of
      its two boxes. */
  method BoxIouBatch(a: seq<Box>, b: seq<Box>, metric: Metric) returns (out: array2<real>)
    ensures fresh(out) && out.Length0 == |a| && out.Length1 == |b|
    ensures forall i, j :: 0 <= i < |a| && 0 <= j < |b| ==> out[i, j] == BatchEntry(a[i], b[j], metric)
    ensures metric == IOU ==> forall i, j :: 0 <= i < |a| && 0 <= j < |b| ==> out[i, j] == Iou(a[i], b[j])
  {
    hide Iou, Norm, EntryWidth, EntryHeight, Ratio;
    var n, m := |a|, |b|;
    if n == 0 || m == 0 {
      out := new real[n, m]((i, j) => 0.0);
      return;
    }
    var w := Widths(a, b);
    var h := Heights(a, b);
    var inter := new real[n, m];
    forall i, j | 0 <= i < n && 0 <= j < m { inter[i, j] := w[i, j] * h[i, j]; }
    assert forall i, j :: 0 <= i < n && 0 <= j < m ==> inter[i, j] == EntryWidth(a[i], b[j]) * EntryHeight(a[i], b[j]);
    var norm := new real[n, m];
    forall i, j | 0 <= i < n && 0 <= j < m { norm[i, j] := Norm(a[i], b[j], inter[i, j], metric); }
    out := Divide(inter, norm);
    AllAgree(a, b);
  }

  lemma AllAgree(a: seq<Box>, b: seq<Box>)
    ensures forall i, j :: 0 <= i < |a| && 0 <= j < |b| ==> BatchEntry(a[i], b[j], IOU) == Iou(a[i], b[j])
  {
    hide BatchEntry, Iou;
    forall i, j | 0 <= i < |a| && 0 <= j < |b| ensures BatchEntry(a[i], b[j], IOU) == Iou(a[i], b[j]) {
      OverlapsAgree(a[i], b[j]);
    }
  }
}
