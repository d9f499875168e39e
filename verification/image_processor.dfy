/**
  The pure helpers of image_processor.py: corner ordering, point clamping, the
  preview and detection size rules, the default corners, the confidence score and
  the candidate / refinement / fallback control flow of auto_detect_corners.
  OpenCV (reading, resizing, edge and contour detection, sub-pixel refinement,
  perspective warping) stays outside: its results are inputs here.
 */
module ImageProcessor {
  import opened Geometry
  import opened Wrappers

  const DefaultPreviewMax: nat := 800
  const MaxDetectionSize: nat := 400
  const MaxCandidates: nat := 10
  const FallbackWidth: real := 1920.0
  const FallbackHeight: real := 1080.0

  /** An image size in whole pixels. */
  datatype Dim = Dim(width: nat, height: nat)

  // ---------------------------------------------------------------- ordering

  /** np.argmin: the first index holding the smallest key. */
  function ArgMin(keys: seq<real>): (r: nat)
    requires |keys| > 0
    ensures r < |keys|
    ensures forall j :: 0 <= j < |keys| ==> keys[r] <= keys[j]
    ensures forall j :: 0 <= j < r ==> keys[r] < keys[j]
    decreases |keys|
  {
    if |keys| == 1 then 0
    else
      var k := ArgMin(keys[..|keys| - 1]);
      if keys[|keys| - 1] < keys[k] then |keys| - 1 else k
  }

  /** np.argmax: the first index holding the largest key. */
  function ArgMax(keys: seq<real>): (r: nat)
    requires |keys| > 0
    ensures r < |keys|
    ensures forall j :: 0 <= j < |keys| ==> keys[j] <= keys[r]
    ensures forall j :: 0 <= j < r ==> keys[j] < keys[r]
    decreases |keys|
  {
    if |keys| == 1 then 0
    else
      var k := ArgMax(keys[..|keys| - 1]);
      if keys[|keys| - 1] > keys[k] then |keys| - 1 else k
  }

  /** The first index of the least key is the only index with both properties ArgMin promises. */
  lemma ArgMinIsUnique(keys: seq<real>, i: nat)
    requires i < |keys|
    requires forall j :: 0 <= j < |keys| ==> keys[i] <= keys[j]
    requires forall j :: 0 <= j < i ==> keys[i] < keys[j]
    ensures ArgMin(keys) == i
  {
  }

  lemma ArgMaxIsUnique(keys: seq<real>, i: nat)
    requires i < |keys|
    requires forall j :: 0 <= j < |keys| ==> keys[j] <= keys[i]
    requires forall j :: 0 <= j < i ==> keys[j] < keys[i]
    ensures ArgMax(keys) == i
  {
  }

  /** The row sum x + y and the row difference y - x (np.diff along axis 1). */
  function SumKey(p: Point): real { p.x + p.y }
  function DiffKey(p: Point): real { p.y - p.x }

  function Sums(pts: seq<Point>): (r: seq<real>)
    ensures |r| == |pts| && forall i :: 0 <= i < |pts| ==> r[i] == SumKey(pts[i])
  {
    seq(|pts|, i requires 0 <= i < |pts| => SumKey(pts[i]))
  }

  function Diffs(pts: seq<Point>): (r: seq<real>)
    ensures |r| == |pts| && forall i :: 0 <= i < |pts| ==> r[i] == DiffKey(pts[i])
  {
    seq(|pts|, i requires 0 <= i < |pts| => DiffKey(pts[i]))
  }

  /**
    order_points as written: top-left and bottom-right are the points of least and greatest
    x + y, top-right and bottom-left those of least and greatest y - x, ties to the first.
    The four choices are made independently, so one input can be picked twice.
   */
  function OrderPointsAsWritten(pts: seq<Point>): (r: CropArea)
    requires |pts| > 0
    ensures forall i :: 0 <= i < 4 ==> Corners(r)[i] in pts
    ensures forall q :: q in pts ==> SumKey(r.topLeft) <= SumKey(q) && SumKey(q) <= SumKey(r.bottomRight)
    ensures forall q :: q in pts ==> DiffKey(r.topRight) <= DiffKey(q) && DiffKey(q) <= DiffKey(r.bottomLeft)
  {
    var s := Sums(pts);
    var d := Diffs(pts);
    CropArea(pts[ArgMin(s)], pts[ArgMin(d)], pts[ArgMax(s)], pts[ArgMax(d)])
  }

  /** A square of half-diagonal h standing on a corner at (cx, cy), listed left, top, right, bottom. */
  function DiamondAt(cx: real, cy: real, h: real): seq<Point>
  {
    [Point(cx - h, cy), Point(cx, cy - h), Point(cx + h, cy), Point(cx, cy + h)]
  }

  /** On a diamond the first least x + y is the left point and the first greatest the right one. */
  lemma DiamondSums(cx: real, cy: real, h: real)
    requires h > 0.0
    ensures ArgMin(Sums(DiamondAt(cx, cy, h))) == 0 && ArgMax(Sums(DiamondAt(cx, cy, h))) == 2
  {
    var s := Sums(DiamondAt(cx, cy, h));
    assert s[0] == cx + cy - h && s[1] == cx + cy - h && s[2] == cx + cy + h && s[3] == cx + cy + h;
    ArgMinIsUnique(s, 0);
    ArgMaxIsUnique(s, 2);
  }

  /** On a diamond the first least y - x is the top point and the first greatest the left one. */
  lemma DiamondDiffs(cx: real, cy: real, h: real)
    requires h > 0.0
    ensures ArgMin(Diffs(DiamondAt(cx, cy, h))) == 1 && ArgMax(Diffs(DiamondAt(cx, cy, h))) == 0
  {
    var d := Diffs(DiamondAt(cx, cy, h));
    assert d[0] == cy - cx + h && d[1] == cy - cx - h && d[2] == cy - cx - h && d[3] == cy - cx + h;
    ArgMinIsUnique(d, 1);
    ArgMaxIsUnique(d, 0);
  }

  /** On any diamond, top-left and bottom-left are the same input, and the bottom point is lost. */
  lemma OrderPointsAsWrittenRepeatsAPoint(cx: real, cy: real, h: real)
    requires h > 0.0
    ensures var r := OrderPointsAsWritten(DiamondAt(cx, cy, h));
      && r == CropArea(Point(cx - h, cy), Point(cx, cy - h), Point(cx + h, cy), Point(cx - h, cy))
      && Point(cx, cy + h) !in Corners(r)
  {
    DiamondSums(cx, cy, h);
    DiamondDiffs(cx, cy, h);
  }

  /** The smallest such input: (0, 5), (5, 0), (10, 5), (5, 10) comes back without (5, 10). */
  lemma OrderPointsAsWrittenLosesPoint()
    ensures var r := OrderPointsAsWritten([Point(0.0, 5.0), Point(5.0, 0.0), Point(10.0, 5.0), Point(5.0, 10.0)]);
      r.topLeft == r.bottomLeft && Point(5.0, 10.0) !in Corners(r)
  {
    assert DiamondAt(5.0, 5.0, 5.0) == [Point(0.0, 5.0), Point(5.0, 0.0), Point(10.0, 5.0), Point(5.0, 10.0)];
    OrderPointsAsWrittenRepeatsAPoint(5.0, 5.0, 5.0);
  }

  /** The sequence without its element at index i. */
  function RemoveAt(s: seq<Point>, i: nat): (r: seq<Point>)
    requires i < |s|
    ensures |r| == |s| - 1
    ensures forall j :: 0 <= j < i ==> r[j] == s[j]
    ensures forall j :: i <= j < |r| ==> r[j] == s[j + 1]
  {
    s[..i] + s[i + 1..]
  }

  /** Removing one element takes exactly that element out of the bag. */
  lemma RemoveAtBag(s: seq<Point>, i: nat)
    requires i < |s|
    ensures multiset(s) == multiset(RemoveAt(s, i)) + multiset{s[i]}
  {
    assert s == s[..i] + [s[i]] + s[i + 1..];
  }

  /**
    order_points as its docstring describes it: the four inputs put in the order TL, TR, BR, BL.
    Top-left is the first point of least x + y; bottom-right the first of greatest x + y among
    the other three; of the last two the one with smaller y - x (the first on a tie) is top-right.
   */
  function OrderQuad(pts: seq<Point>): (r: CropArea)
    requires |pts| == 4
    ensures forall q :: q in pts ==> SumKey(r.topLeft) <= SumKey(q)
    ensures SumKey(r.topRight) <= SumKey(r.bottomRight) && SumKey(r.bottomLeft) <= SumKey(r.bottomRight)
    ensures DiffKey(r.topRight) <= DiffKey(r.bottomLeft)
  {
    var a := ArgMin(Sums(pts));
    var s1 := RemoveAt(pts, a);
    var s2 := RemoveAt(s1, ArgMax(Sums(s1)));
    PlaceRest(pts[a], s1[ArgMax(Sums(s1))], s2[0], s2[1])
  }

  /** The corrected ordering is a permutation of its input: every point is used exactly once. */
  lemma OrderQuadPermutes(pts: seq<Point>)
    requires |pts| == 4
    ensures multiset(Corners(OrderQuad(pts))) == multiset(pts)
  {
    var a := ArgMin(Sums(pts));
    var s1 := RemoveAt(pts, a);
    var b := ArgMax(Sums(s1));
    var s2 := RemoveAt(s1, b);
    var r := OrderQuad(pts);
    RemoveAtBag(pts, a);
    RemoveAtBag(s1, b);
    BagOfTwo(s2);
    BagOfFour(Corners(r));
    Regroup(pts[a], r.topRight, s1[b], r.bottomLeft, s2[0], s2[1]);
  }

  /** Top-left and bottom-right placed; of the other two the one with smaller y - x (the first on a tie) is top-right. */
  function PlaceRest(tl: Point, br: Point, p: Point, q: Point): (r: CropArea)
    ensures r.topLeft == tl && r.bottomRight == br
    ensures multiset{r.topRight, r.bottomLeft} == multiset{p, q}
    ensures DiffKey(r.topRight) <= DiffKey(r.bottomLeft)
  {
    if DiffKey(q) < DiffKey(p) then CropArea(tl, q, br, p) else CropArea(tl, p, br, q)
  }

  lemma Regroup<T>(a: T, b: T, c: T, d: T, p: T, q: T)
    requires multiset{b, d} == multiset{p, q}
    ensures multiset{a, b, c, d} == multiset{p, q} + multiset{c} + multiset{a}
  {
    assert multiset{a, b, c, d} == multiset{b, d} + multiset{c} + multiset{a};
  }

  lemma BagOfTwo(s: seq<Point>)
    requires |s| == 2
    ensures multiset(s) == multiset{s[0], s[1]}
  {
    assert s == [s[0]] + [s[1]];
  }

  lemma BagOfFour(s: seq<Point>)
    requires |s| == 4
    ensures multiset(s) == multiset{s[0], s[1], s[2], s[3]}
  {
    assert s == s[..2] + s[2..];
    BagOfTwo(s[..2]);
    BagOfTwo(s[2..]);
  }

  /** The corrected ordering keeps all four points of any diamond. */
  lemma OrderQuadKeepsDiamonds(cx: real, cy: real, h: real)
    requires h > 0.0
    ensures OrderQuad(DiamondAt(cx, cy, h))
         == CropArea(Point(cx - h, cy), Point(cx, cy - h), Point(cx + h, cy), Point(cx, cy + h))
  {
    var d := DiamondAt(cx, cy, h);
    var s1 := [d[1], d[2], d[3]];
    assert ArgMin(Sums(d)) == 0 && RemoveAt(d, 0) == s1 by {
      DiamondSums(cx, cy, h);
    }
    assert ArgMax(Sums(s1)) == 1 && RemoveAt(s1, 1) == [d[1], d[3]] by {
      DiamondGreatestSum(d[1], d[2], d[3]);
    }
    assert OrderQuad(d) == PlaceRest(d[0], d[2], d[1], d[3]);
  }

  lemma DiamondGreatestSum(p: Point, q: Point, u: Point)
    requires SumKey(p) < SumKey(q) && SumKey(u) <= SumKey(q)
    ensures ArgMax(Sums([p, q, u])) == 1
  {
    var k := Sums([p, q, u]);
    assert k[0] == SumKey(p) && k[1] == SumKey(q) && k[2] == SumKey(u);
    ArgMaxIsUnique(k, 1);
  }

  /** On the smallest input of the finding the corrected ordering keeps (5, 10). */
  lemma OrderQuadKeepsPoint()
    ensures OrderQuad([Point(0.0, 5.0), Point(5.0, 0.0), Point(10.0, 5.0), Point(5.0, 10.0)])
         == CropArea(Point(0.0, 5.0), Point(5.0, 0.0), Point(10.0, 5.0), Point(5.0, 10.0))
  {
    assert DiamondAt(5.0, 5.0, 5.0) == [Point(0.0, 5.0), Point(5.0, 0.0), Point(10.0, 5.0), Point(5.0, 10.0)];
    OrderQuadKeepsDiamonds(5.0, 5.0, 5.0);
  }

  /** The four corners of the axis-aligned rectangle [l, r] x [t, b] (y grows downwards), as a bag. */
  function RectBag(l: real, t: real, r: real, b: real): multiset<Point>
  {
    multiset{Point(l, t), Point(r, t), Point(r, b), Point(l, b)}
  }

  /** A sequence holding the rectangle's corners once each has four entries, each a corner. */
  lemma RectMembers(l: real, t: real, r: real, b: real, pts: seq<Point>)
    requires multiset(pts) == RectBag(l, t, r, b)
    ensures |pts| == 4
    ensures forall q :: q in pts <==> q == Point(l, t) || q == Point(r, t) || q == Point(r, b) || q == Point(l, b)
  {
    assert |multiset(pts)| == 4;
    forall q ensures q in pts <==> q in RectBag(l, t, r, b) {
      assert q in pts <==> q in multiset(pts);
    }
  }

  /** An axis-aligned rectangle given in any order comes back as TL, TR, BR, BL. */
  lemma {:induction false} OrderPointsAsWrittenOnRectangle(l: real, t: real, r: real, b: real, pts: seq<Point>)
    requires l < r && t < b && multiset(pts) == RectBag(l, t, r, b)
    ensures |pts| == 4
    ensures OrderPointsAsWritten(pts) == CropArea(Point(l, t), Point(r, t), Point(r, b), Point(l, b))
  {
    RectMembers(l, t, r, b, pts);
    var o := OrderPointsAsWritten(pts);
    var lt, rt, rb, lb := Point(l, t), Point(r, t), Point(r, b), Point(l, b);
    assert lt in pts && rt in pts && rb in pts && lb in pts;
    assert o.topLeft in pts && o.topRight in pts && o.bottomRight in pts && o.bottomLeft in pts by {
      assert Corners(o)[0] in pts && Corners(o)[1] in pts && Corners(o)[2] in pts && Corners(o)[3] in pts;
    }
    RectCornerByKeys(l, t, r, b, o.topLeft);
    RectCornerByKeys(l, t, r, b, o.topRight);
    RectCornerByKeys(l, t, r, b, o.bottomRight);
    RectCornerByKeys(l, t, r, b, o.bottomLeft);
  }

  /** Each corner of a rectangle is the only one of the four with its extreme x + y or y - x. */
  lemma RectCornerByKeys(l: real, t: real, r: real, b: real, p: Point)
    requires l < r && t < b
    requires p == Point(l, t) || p == Point(r, t) || p == Point(r, b) || p == Point(l, b)
    ensures SumKey(p) <= l + t ==> p == Point(l, t)
    ensures DiffKey(p) <= t - r ==> p == Point(r, t)
    ensures SumKey(p) >= r + b ==> p == Point(r, b)
    ensures DiffKey(p) >= b - l ==> p == Point(l, b)
  {
  }

  /** A bag of four is its first element added to the bag of the other three. */
  lemma SplitFirst<T>(a: T, b: T, c: T, d: T)
    ensures multiset{a, b, c, d} == multiset{a} + multiset{b, c, d}
  {
  }

  /** A bag of three is its middle element added to the bag of the other two. */
  lemma SplitMiddle<T>(b: T, c: T, d: T)
    ensures multiset{b, c, d} == multiset{c} + multiset{b, d}
  {
  }

  lemma CancelOne<T>(a: T, m: multiset<T>, n: multiset<T>)
    requires multiset{a} + m == multiset{a} + n
    ensures m == n
  {
    assert m == (multiset{a} + m) - multiset{a};
  }

  /** Cancelling one matched element from two equal bags of four. */
  lemma CancelFirst<T>(a: T, b: T, c: T, d: T, a': T, b': T, c': T, d': T)
    requires multiset{a, b, c, d} == multiset{a', b', c', d'} && a == a'
    ensures multiset{b, c, d} == multiset{b', c', d'}
  {
    SplitFirst(a, b, c, d);
    SplitFirst(a', b', c', d');
    CancelOne(a, multiset{b, c, d}, multiset{b', c', d'});
  }

  /** Cancelling the middle element from two equal bags of three. */
  lemma CancelMiddle<T>(b: T, c: T, d: T, b': T, c': T, d': T)
    requires multiset{b, c, d} == multiset{b', c', d'} && c == c'
    ensures multiset{b, d} == multiset{b', d'}
  {
    SplitMiddle(b, c, d);
    SplitMiddle(b', c', d');
    CancelOne(c, multiset{b, d}, multiset{b', d'});
  }

  /** The corrected ordering agrees with the code on rectangles. */
  lemma {:induction false} OrderQuadOnRectangle(l: real, t: real, r: real, b: real, pts: seq<Point>)
    requires l < r && t < b && multiset(pts) == RectBag(l, t, r, b)
    ensures |pts| == 4
    ensures OrderQuad(pts) == CropArea(Point(l, t), Point(r, t), Point(r, b), Point(l, b))
  {
    RectMembers(l, t, r, b, pts);
    var o := OrderQuad(pts);
    OrderQuadPermutes(pts);
    BagOfFour(Corners(o));
    var lt, rt, rb, lb := Point(l, t), Point(r, t), Point(r, b), Point(l, b);
    assert multiset{o.topLeft, o.topRight, o.bottomRight, o.bottomLeft} == multiset{lt, rt, rb, lb};
    assert o.topLeft == lt by {
      assert o.topLeft in multiset{lt, rt, rb, lb};
      assert lt in pts;
    }
    CancelFirst(o.topLeft, o.topRight, o.bottomRight, o.bottomLeft, lt, rt, rb, lb);
    assert o.bottomRight == rb by {
      assert o.bottomRight in multiset{rt, rb, lb};
      assert rb in multiset{o.topRight, o.bottomRight, o.bottomLeft};
    }
    CancelMiddle(o.topRight, o.bottomRight, o.bottomLeft, rt, rb, lb);
    assert o.topRight in multiset{rt, lb} && o.bottomLeft in multiset{rt, lb};
  }

  // ---------------------------------------------------------------- clamping and sizes

  /** validate_and_correct_points: every point clamped into [0, width] x [0, height], in order. */
  function ValidateAndCorrect(points: seq<Point>, width: real, height: real): (r: seq<Point>)
    ensures |r| == |points|
    ensures forall i :: 0 <= i < |r| ==> r[i] == ConstrainPoint(points[i], width, height)
  {
    seq(|points|, i requires 0 <= i < |points| => ConstrainPoint(points[i], width, height))
  }

  /** The corrected points lie in the image; points already inside are kept; a second pass changes nothing. */
  lemma ValidateAndCorrectFacts(points: seq<Point>, width: real, height: real)
    requires width >= 0.0 && height >= 0.0
    ensures forall i :: 0 <= i < |points| ==> InBox(ValidateAndCorrect(points, width, height)[i], width, height)
    ensures (forall i :: 0 <= i < |points| ==> InBox(points[i], width, height)) ==> ValidateAndCorrect(points, width, height) == points
    ensures ValidateAndCorrect(ValidateAndCorrect(points, width, height), width, height) == ValidateAndCorrect(points, width, height)
  {
  }

  /**
    The shrink rule of resize_image_for_preview and of the detection downscale: nothing when
    both sides fit in `limit`; otherwise the longer side becomes `limit` (a square takes the
    height branch) and the other side int(side * limit / longer), truncated.
   */
  function FitWithin(w: nat, h: nat, limit: nat): (r: Dim)
    ensures w <= limit && h <= limit ==> r == Dim(w, h)
    ensures (w > limit || h > limit) && w > h ==> r.width == limit && IsFloorOfRatio(r.height, h, limit, w)
    ensures (w > limit || h > limit) && w <= h ==> r.height == limit && IsFloorOfRatio(r.width, w, limit, h)
  {
    if w > limit || h > limit then
      if w > h then Dim(limit, ShrinkSide(h, limit, w))
      else Dim(ShrinkSide(w, limit, h), limit)
    else Dim(w, h)
  }

  /** q is int(side * limit / longer): q * longer <= side * limit < (q + 1) * longer. */
  predicate IsFloorOfRatio(q: nat, side: nat, limit: nat, longer: nat)
  {
    q * longer <= side * limit < (q + 1) * longer
  }

  /** The shorter side after the longer one is set to `limit`, truncated as int() does. */
  function ShrinkSide(side: nat, limit: nat, longer: nat): (q: nat)
    requires longer > 0
    ensures IsFloorOfRatio(q, side, limit, longer)
  {
    var product := side * limit;
    FloorDivBounds(product, longer);
    product / longer
  }

  /** Python's int() of a non-negative quotient: q * b <= a < (q + 1) * b. */
  lemma FloorDivBounds(a: nat, b: nat)
    requires b > 0
    ensures a / b >= 0 && (a / b) * b <= a < (a / b + 1) * b
  {
    var q := a / b;
    var m := a % b;
    assert a == q * b + m;
    assert (q + 1) * b == q * b + b;
  }

  /** A shrunk image fits in limit x limit; no image grows on either side. */
  lemma FitWithinBounds(w: nat, h: nat, limit: nat)
    ensures w > limit || h > limit ==> FitWithin(w, h, limit).width <= limit && FitWithin(w, h, limit).height <= limit
    ensures FitWithin(w, h, limit).width <= w && FitWithin(w, h, limit).height <= h
  {
    var r := FitWithin(w, h, limit);
    if w > limit || h > limit {
      if w > h {
        ShrinkBound(r.height, h, limit, w);
      } else {
        ShrinkBound(r.width, w, limit, h);
      }
    }
  }

  /** The truncated side is at most `limit` when it was the shorter side, and shrinks when limit <= longer. */
  lemma ShrinkBound(q: nat, side: nat, limit: nat, longer: nat)
    requires longer > 0 && IsFloorOfRatio(q, side, limit, longer)
    ensures side <= longer ==> q <= limit
    ensures limit <= longer ==> q <= side
  {
    if side <= longer {
      MulLe(side, longer, limit);
      MulCancel(q, limit, longer);
    }
    if limit <= longer {
      MulLe(limit, longer, side);
      MulCancel(q, side, longer);
    }
  }

  lemma MulLe(a: nat, b: nat, c: nat)
    requires a <= b
    ensures a * c <= b * c && c * a <= c * b
  {
    assert b * c == a * c + (b - a) * c;
  }

  lemma MulCancel(a: nat, b: nat, c: nat)
    requires c > 0 && a * c <= b * c
    ensures a <= b
  {
    if a > b {
      assert (b + 1) * c == b * c + c;
      MulLe(b + 1, a, c);
    }
  }

  /** A very elongated image collapses to a zero side in the 400 px detection copy. */
  lemma DetectionSizeCanCollapse()
    ensures FitWithin(1000, 2, MaxDetectionSize) == Dim(400, 0)
  {
  }

  // ---------------------------------------------------------------- defaults and confidence

  /** get_smart_default_corners: a rectangle inset 8% horizontally and 12% vertically. */
  function SmartDefaults(width: real, height: real): CropArea
  {
    var mx := width * 0.08;
    var my := height * 0.12;
    CropArea(Point(mx, my), Point(width - mx, my), Point(width - mx, height - my), Point(mx, height - my))
  }

  /** For a non-empty image the defaults are four distinct corners inside it. */
  lemma SmartDefaultsAreValid(width: real, height: real)
    requires width > 0.0 && height > 0.0
    ensures DistinctCorners(SmartDefaults(width, height))
    ensures CropAreaInBox(SmartDefaults(width, height), width, height)
  {
    assert 0.0 < width * 0.08 < width - width * 0.08 && 0.0 < height * 0.12 < height - height * 0.12;
  }

  /** The defaults are already in TL, TR, BR, BL order: ordering them again changes nothing. */
  lemma SmartDefaultsAreOrdered(width: real, height: real)
    requires width > 0.0 && height > 0.0
    ensures OrderQuad(Corners(SmartDefaults(width, height))) == SmartDefaults(width, height)
  {
    var mx := width * 0.08;
    var my := height * 0.12;
    assert 0.0 < mx < width - mx && 0.0 < my < height - my;
    var c := SmartDefaults(width, height);
    BagOfFour(Corners(c));
    OrderQuadOnRectangle(mx, my, width - mx, height - my, Corners(c));
  }

  /**
    The area term of calculate_corner_confidence: 1 for an area ratio strictly between 0.1 and
    0.9, otherwise max(0, 1 - 2 |ratio - 0.5|).
   */
  function AreaScore(ratio: real): (r: real)
    ensures 0.0 <= r <= 1.0
    ensures 0.1 < ratio < 0.9 <==> r == 1.0
  {
    if 0.1 < ratio < 0.9 then 1.0
    else
      var dev := if ratio >= 0.5 then ratio - 0.5 else 0.5 - ratio;
      Max(0.0, 1.0 - dev * 2.0)
  }

  /** At the edges of the band the score drops from 1 to 0.2: the term is not continuous. */
  lemma AreaScoreAtBandEdges()
    ensures AreaScore(0.1) == 0.2 && AreaScore(0.9) == 0.2 && AreaScore(0.11) == 1.0
  {
  }

  /**
    calculate_corner_confidence from its three terms: 0.4 diagonal ratio + 0.3 centre score
    + 0.3 area score, clamped into [0, 1]. The diagonal ratio and centre score come from square
    roots and are inputs.
   */
  function CornerConfidence(diagRatio: real, centreScore: real, areaRatio: real): (r: real)
    ensures 0.0 <= r <= 1.0
    ensures var raw := diagRatio * 0.4 + centreScore * 0.3 + AreaScore(areaRatio) * 0.3;
      0.0 <= raw <= 1.0 ==> r == raw
  {
    Max(0.0, Min(1.0, diagRatio * 0.4 + centreScore * 0.3 + AreaScore(areaRatio) * 0.3))
  }

  /** A square detection (equal diagonals, centred, area in the band) scores exactly 1. */
  lemma PerfectDetectionScoresOne(areaRatio: real)
    requires 0.1 < areaRatio < 0.9
    ensures CornerConfidence(1.0, 1.0, areaRatio) == 1.0
  {
  }

  // ---------------------------------------------------------------- auto_detect_corners

  /**
    One contour of the 400 px copy, as OpenCV reports it: its polygon approximation, the area
    of that polygon, and the confidence calculate_corner_confidence gives its corners.
   */
  datatype Contour = Contour(approx: seq<Point>, area: real, confidence: real)

  datatype Detection = Detection(corners: seq<Point>, confidence: real)

  /** A candidate is a quadrilateral covering between 5% and 80% of the detection image. */
  predicate Eligible(c: Contour, imageArea: real)
  {
    |c.approx| == 4 && imageArea != 0.0 && 0.05 < c.area / imageArea < 0.8
  }

  /** b is the first eligible candidate among cands[..n] of greatest confidence, and that confidence is positive. */
  predicate ChosenUpTo(cands: seq<Contour>, imageArea: real, b: nat, n: nat)
    requires n <= |cands|
  {
    && b < n && Eligible(cands[b], imageArea) && cands[b].confidence > 0.0
    && (forall j :: 0 <= j < n && Eligible(cands[j], imageArea) ==> cands[j].confidence <= cands[b].confidence)
    && (forall j :: 0 <= j < b && Eligible(cands[j], imageArea) ==> cands[j].confidence < cands[b].confidence)
  }

  predicate Chosen(cands: seq<Contour>, imageArea: real, b: nat)
  {
    ChosenUpTo(cands, imageArea, b, |cands|)
  }

  /** No eligible candidate has a positive confidence. */
  predicate NoneChosen(cands: seq<Contour>, imageArea: real)
  {
    forall j :: 0 <= j < |cands| && Eligible(cands[j], imageArea) ==> cands[j].confidence <= 0.0
  }

  /** When no eligible candidate has a positive confidence, none can be the chosen one. */
  lemma NoneChosenExcludesChosen(cands: seq<Contour>, imageArea: real, b: nat)
    requires NoneChosen(cands, imageArea)
    ensures !Chosen(cands, imageArea, b)
  {
  }

  /** At most one candidate is the chosen one. */
  lemma ChosenIsUnique(cands: seq<Contour>, imageArea: real, b1: nat, b2: nat)
    requires Chosen(cands, imageArea, b1) && Chosen(cands, imageArea, b2)
    ensures b1 == b2
  {
  }

  /** The candidate loop: a strictly greater confidence (starting from 0) replaces the best so far. */
  method SelectBest(cands: seq<Contour>, imageArea: real) returns (best: Option<nat>)
    ensures best.Some? ==> Chosen(cands, imageArea, best.value)
    ensures best.None? ==> NoneChosen(cands, imageArea)
  {
    best := None;
    var bestConf := 0.0;
    var i := 0;
    while i < |cands|
      invariant 0 <= i <= |cands|
      invariant best.None? ==> bestConf == 0.0
      invariant best.None? ==> forall j :: 0 <= j < i && Eligible(cands[j], imageArea) ==> cands[j].confidence <= 0.0
      invariant best.Some? ==> ChosenUpTo(cands, imageArea, best.value, i) && bestConf == cands[best.value].confidence
    {
      if Eligible(cands[i], imageArea) && cands[i].confidence > bestConf {
        best := Some(i);
        bestConf := cands[i].confidence;
      }
      i := i + 1;
    }
  }

  /** A contour point of the detection copy mapped back to the original size. */
  function ScalePoints(pts: seq<Point>, sx: real, sy: real): (r: seq<Point>)
    ensures |r| == |pts| && forall i :: 0 <= i < |pts| ==> r[i] == Point(pts[i].x * sx, pts[i].y * sy)
  {
    seq(|pts|, i requires 0 <= i < |pts| => Point(pts[i].x * sx, pts[i].y * sy))
  }

  /** What the except branch returns: the defaults for a 1920 x 1080 image, confidence 0, unclamped. */
  function Fallback(): Detection
  {
    Detection(Corners(SmartDefaults(FallbackWidth, FallbackHeight)), 0.0)
  }

  /** The at most ten largest contours (the list comes sorted by area, largest first). */
  function TopContours(contours: seq<Contour>): (r: seq<Contour>)
    ensures |r| <= MaxCandidates && r <= contours
    ensures |contours| <= MaxCandidates ==> r == contours
  {
    if |contours| <= MaxCandidates then contours else contours[..MaxCandidates]
  }

  /**
    Which corner ordering the detector applies to the chosen contour: order_points as the
    program writes it, or the corrected ordering that keeps all four points.
   */
  datatype Ordering = AsWritten | Corrected

  function OrderCandidate(o: Ordering, pts: seq<Point>): CropArea
    requires |pts| == 4
  {
    if o == AsWritten then OrderPointsAsWritten(pts) else OrderQuad(pts)
  }

  /**
    refine_corners_subpixel: corner i becomes what cornerSubPix finds in the window around it
    (subpix[i]), or stays where it is when the window is too small (None). The except branch
    returns the corners unchanged, which is the case of no sub-pixel results.
   */
  function RefineCorners(corners: seq<Point>, subpix: seq<Option<Point>>): (r: seq<Point>)
    ensures |r| == |corners|
    ensures forall i :: 0 <= i < |corners| ==>
      (r[i] == corners[i] || (i < |subpix| && subpix[i] == Some(r[i])))
  {
    seq(|corners|, i requires 0 <= i < |corners| =>
      if i < |subpix| && subpix[i].Some? then subpix[i].value else corners[i])
  }

  /** Without sub-pixel results (too small a window everywhere, or the except branch) nothing moves. */
  lemma RefineWithoutResultsKeepsCorners(corners: seq<Point>, subpix: seq<Option<Point>>)
    requires forall i :: 0 <= i < |subpix| ==> subpix[i].None?
    ensures RefineCorners(corners, subpix) == corners
  {
  }

  /**
    Step 3 of auto_detect_corners for the chosen contour: its points mapped back to the
    original size and ordered; above confidence 0.3 they are refined and the confidence is
    raised by 0.1, at most to 1.
   */
  function Candidate(o: Ordering, c: Contour, sx: real, sy: real, subpix: seq<Option<Point>>): (d: Detection)
    requires |c.approx| == 4
    ensures |d.corners| == 4
  {
    var corners := Corners(OrderCandidate(o, ScalePoints(c.approx, sx, sy)));
    if c.confidence > 0.3 then Detection(RefineCorners(corners, subpix), Min(c.confidence + 0.1, 1.0))
    else Detection(corners, c.confidence)
  }

  /** The contour (0,5), (5,0), (10,5), (5,10) of the findings, with a confidence that skips refinement. */
  const DiamondContour := Contour([Point(0.0, 5.0), Point(5.0, 0.0), Point(10.0, 5.0), Point(5.0, 10.0)], 50.0, 0.25)

  /** Scaling by 1 on both axes leaves a contour where it is. */
  lemma ScaleByOne(pts: seq<Point>)
    ensures ScalePoints(pts, 1.0, 1.0) == pts
  {
  }

  /** On that contour at scale 1 the detector as written returns (0,5) twice and drops (5,10). */
  lemma DetectionAsWrittenLosesCorner(subpix: seq<Option<Point>>)
    ensures var d := Candidate(AsWritten, DiamondContour, 1.0, 1.0, subpix);
      d.corners[0] == d.corners[3] && Point(5.0, 10.0) !in d.corners
  {
    var pts := DiamondContour.approx;
    assert ScalePoints(pts, 1.0, 1.0) == pts by { ScaleByOne(pts); }
    var r := OrderPointsAsWritten(pts);
    assert r.topLeft == r.bottomLeft && Point(5.0, 10.0) !in Corners(r) by { OrderPointsAsWrittenLosesPoint(); }
    assert Candidate(AsWritten, DiamondContour, 1.0, 1.0, subpix).corners == Corners(r);
  }

  /**
    The corrected detector returns the chosen contour's four points, mapped back to the original
    size, in some order: below the refinement threshold no point is lost or repeated.
   */
  lemma CorrectedCandidatePermutes(c: Contour, sx: real, sy: real, subpix: seq<Option<Point>>)
    requires |c.approx| == 4 && c.confidence <= 0.3
    ensures multiset(Candidate(Corrected, c, sx, sy, subpix).corners) == multiset(ScalePoints(c.approx, sx, sy))
  {
    var pts := ScalePoints(c.approx, sx, sy);
    assert multiset(Corners(OrderQuad(pts))) == multiset(pts) by { OrderQuadPermutes(pts); }
  }

  /** Steps 4 and 5: no candidate, or one below 0.2, gives the defaults at 0.1; the corners are then clamped. */
  function Finish(w: real, h: real, cand: Option<Detection>): Detection
  {
    var d := if cand.None? || cand.value.confidence < 0.2 then Detection(Corners(SmartDefaults(w, h)), 0.1) else cand.value;
    Detection(ValidateAndCorrect(d.corners, w, h), d.confidence)
  }

  /**
    The result lies in the image; its confidence is 0.1 exactly when the defaults were used,
    and otherwise the candidate's own, at least 0.2.
   */
  lemma FinishFacts(w: real, h: real, cand: Option<Detection>)
    requires w > 0.0 && h > 0.0
    ensures var r := Finish(w, h, cand);
      && (forall i :: 0 <= i < |r.corners| ==> InBox(r.corners[i], w, h))
      && (r.confidence == 0.1 <==> cand.None? || cand.value.confidence < 0.2)
      && (r.confidence == 0.1 ==> r.corners == Corners(SmartDefaults(w, h)))
      && (r.confidence != 0.1 ==> r == Detection(ValidateAndCorrect(cand.value.corners, w, h), cand.value.confidence))
      && r.confidence >= 0.1
  {
    if cand.None? || cand.value.confidence < 0.2 {
      SmartDefaultsAreValid(w, h);
      ValidateAndCorrectFacts(Corners(SmartDefaults(w, h)), w, h);
    } else {
      ValidateAndCorrectFacts(cand.value.corners, w, h);
    }
  }

  /** The candidate the chosen contour gives, its points scaled back by sx and sy; None when no contour was chosen. */
  function PickedCandidate(o: Ordering, top: seq<Contour>, area: real, pick: Option<nat>, sx: real, sy: real,
                           subpix: seq<Option<Point>>): Option<Detection>
    requires pick.Some? ==> Chosen(top, area, pick.value)
  {
    if pick.Some? then Some(Candidate(o, top[pick.value], sx, sy, subpix)) else None
  }

  /**
    What steps 3 to 5 make of the chosen contour: the defaults at 0.1 when none was chosen or
    its confidence is below 0.2, and otherwise its ordered (and above 0.3 refined) corners,
    clamped into the image.
   */
  lemma FinishPickedFacts(o: Ordering, w: real, h: real, sx: real, sy: real, top: seq<Contour>, area: real,
                          subpix: seq<Option<Point>>, pick: Option<nat>)
    requires w > 0.0 && h > 0.0
    requires pick.Some? ==> Chosen(top, area, pick.value)
    ensures var r := Finish(w, h, PickedCandidate(o, top, area, pick, sx, sy, subpix));
      && |r.corners| == 4
      && r != Fallback()
      && (forall i :: 0 <= i < |r.corners| ==> InBox(r.corners[i], w, h))
      && (r.confidence == 0.1 <==> pick.None? || top[pick.value].confidence < 0.2)
      && (r.confidence == 0.1 ==> r.corners == Corners(SmartDefaults(w, h)))
      && (r.confidence != 0.1 ==> r.confidence >= 0.2)
      && (pick.Some? && top[pick.value].confidence >= 0.2 ==>
            var ordered := Corners(OrderCandidate(o, ScalePoints(top[pick.value].approx, sx, sy)));
            r == if top[pick.value].confidence > 0.3
                 then Detection(ValidateAndCorrect(RefineCorners(ordered, subpix), w, h), Min(top[pick.value].confidence + 0.1, 1.0))
                 else Detection(ValidateAndCorrect(ordered, w, h), top[pick.value].confidence))
      && ((forall j :: 0 <= j < |top| ==> top[j].confidence <= 1.0) ==> r.confidence <= 1.0)
  {
    var cand := PickedCandidate(o, top, area, pick, sx, sy, subpix);
    var r := Finish(w, h, cand);
    FinishFacts(w, h, cand);
    PickedCandidateFacts(o, top, area, pick, sx, sy, subpix);
    assert r != Fallback() by { assert r.confidence != 0.0; }
  }

  /** The chosen contour's candidate keeps its confidence band, and at 0.2 or more is its ordered corners. */
  lemma PickedCandidateFacts(o: Ordering, top: seq<Contour>, area: real, pick: Option<nat>, sx: real, sy: real,
                             subpix: seq<Option<Point>>)
    requires pick.Some? ==> Chosen(top, area, pick.value)
    ensures var cand := PickedCandidate(o, top, area, pick, sx, sy, subpix);
      && cand.None? == pick.None?
      && (pick.Some? ==>
            var c := top[pick.value];
            var ordered := Corners(OrderCandidate(o, ScalePoints(c.approx, sx, sy)));
            && |cand.value.corners| == 4
            && (cand.value.confidence < 0.2 <==> c.confidence < 0.2)
            && (c.confidence <= 1.0 ==> cand.value.confidence <= 1.0)
            && cand.value == if c.confidence > 0.3 then Detection(RefineCorners(ordered, subpix), Min(c.confidence + 0.1, 1.0))
                             else Detection(ordered, c.confidence))
  {
  }

  /** The 400 px detection copy has two non-zero sides, so the scale factors can be computed. */
  predicate DetectionCopyUsable(image: Dim)
  {
    var small := FitWithin(image.width, image.height, MaxDetectionSize);
    small.width > 0 && small.height > 0
  }

  /**
    auto_detect_corners. `image` is None when the file cannot be read; `contours` are the
    contours of the 400 px copy, largest first; `subpix` is what cornerSubPix gives for each
    corner of the chosen contour. `pick` is the index of the winning contour. An unreadable
    image, and a detection copy with a zero side (the scale division fails), end in the except
    branch. With the AsWritten ordering this is the program's detector.
   */
  method AutoDetect(o: Ordering, image: Option<Dim>, contours: seq<Contour>, subpix: seq<Option<Point>>)
    returns (r: Detection, pick: Option<nat>)
    ensures |r.corners| == 4
    ensures r == Fallback() <==> image.None? || !DetectionCopyUsable(image.value)
    ensures image.None? || !DetectionCopyUsable(image.value) ==> pick.None?
    ensures image.Some? && DetectionCopyUsable(image.value) ==>
      var w := image.value.width as real;
      var h := image.value.height as real;
      var small := FitWithin(image.value.width, image.value.height, MaxDetectionSize);
      var top := TopContours(contours);
      var area := (small.width * small.height) as real;
      && (pick.Some? ==> Chosen(top, area, pick.value))
      && (pick.None? ==> NoneChosen(top, area))
      && (forall i :: 0 <= i < |r.corners| ==> InBox(r.corners[i], w, h))
      && (r.confidence == 0.1 <==> pick.None? || top[pick.value].confidence < 0.2)
      && (r.confidence == 0.1 ==> r.corners == Corners(SmartDefaults(w, h)))
      && (r.confidence != 0.1 ==> r.confidence >= 0.2)
      && (pick.Some? && top[pick.value].confidence >= 0.2 ==>
            var ordered := Corners(OrderCandidate(o, ScalePoints(top[pick.value].approx, w / small.width as real, h / small.height as real)));
            r == if top[pick.value].confidence > 0.3
                 then Detection(ValidateAndCorrect(RefineCorners(ordered, subpix), w, h), Min(top[pick.value].confidence + 0.1, 1.0))
                 else Detection(ValidateAndCorrect(ordered, w, h), top[pick.value].confidence))
      && ((forall j :: 0 <= j < |top| ==> top[j].confidence <= 1.0) ==> r.confidence <= 1.0)
  {
    if image.None? {
      return Fallback(), None;
    }
    var small := FitWithin(image.value.width, image.value.height, MaxDetectionSize);
    if small.width == 0 || small.height == 0 {
      return Fallback(), None;
    }
    var w := image.value.width as real;
    var h := image.value.height as real;
    var top := TopContours(contours);
    var area := (small.width * small.height) as real;
    pick := SelectBest(top, area);
    var sx, sy := w / small.width as real, h / small.height as real;
    assert w > 0.0 && h > 0.0 by { FitWithinBounds(image.value.width, image.value.height, MaxDetectionSize); }
    FinishPickedFacts(o, w, h, sx, sy, top, area, subpix, pick);
    r := Finish(w, h, PickedCandidate(o, top, area, pick, sx, sy, subpix));
  }

  /** An image of 1000 x 2 px falls back to the 1920 x 1080 defaults, which lie outside it. */
  method ElongatedImageFallsBack(contours: seq<Contour>, subpix: seq<Option<Point>>) returns (r: Detection)
    ensures r == Fallback()
    ensures !InBox(r.corners[2], 1000.0, 2.0)
  {
    DetectionSizeCanCollapse();
    var pick;
    r, pick := AutoDetect(AsWritten, Some(Dim(1000, 2)), contours, subpix);
  }
}
