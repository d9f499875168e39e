/**
  Geometry primitives of the crop editor: points, the four-corner crop area,
  distance tests, the screen/canvas maps, clamping and the default quadrilateral.
  All coordinates are exact reals; the source's floating-point rounding is not modelled.
 */
module Geometry {

  datatype Point = Point(x: real, y: real)

  /** The on-page origin of the canvas element (left/top of its bounding rectangle). */
  datatype Rect = Rect(left: real, top: real)

  /** The quadrilateral the user edits; corner order TL, TR, BR, BL is fixed. */
  datatype CropArea = CropArea(topLeft: Point, topRight: Point, bottomRight: Point, bottomLeft: Point)

  const Origin := Point(0.0, 0.0)

  function Min(a: real, b: real): real { if a <= b then a else b }
  function Max(a: real, b: real): real { if a >= b then a else b }

  function Add(p: Point, q: Point): Point { Point(p.x + q.x, p.y + q.y) }
  function Sub(p: Point, q: Point): Point { Point(p.x - q.x, p.y - q.y) }

  /** JavaScript's Math.round: round half towards positive infinity. */
  function Round(v: real): (r: int)
    ensures v - 0.5 < r as real <= v + 0.5
  {
    (v + 0.5).Floor
  }

  lemma RoundOfInteger(n: int)
    ensures Round(n as real) == n
  {
  }

  /** A value inside [0, n] for an integer n rounds to an integer inside [0, n]. */
  lemma RoundWithin(v: real, n: int)
    requires 0.0 <= v <= n as real
    ensures 0 <= Round(v) <= n
  {
  }

  /** clamp(value, min, max) = max(min, min(max, value)). */
  function Clamp(v: real, lo: real, hi: real): (r: real)
    ensures lo <= hi ==> lo <= r <= hi
    ensures lo > hi ==> r == lo
    ensures lo <= v <= hi ==> r == v
    ensures v < lo ==> r == lo
    ensures lo <= hi && v > hi ==> r == hi
  {
    Max(lo, Min(hi, v))
  }

  /** The squared Euclidean distance; the source takes its square root. */
  function SquaredDistance(p: Point, q: Point): (d: real)
    ensures d >= 0.0
  {
    var dx := q.x - p.x;
    var dy := q.y - p.y;
    SquareNonNegative(dx);
    SquareNonNegative(dy);
    dx * dx + dy * dy
  }

  lemma SquareNonNegative(a: real)
    ensures a * a >= 0.0
  {
    if a < 0.0 {
      calc {
        a * a;
      == (-a) * (-a);
      >= 0.0;
      }
    }
  }

  lemma SquaredDistanceSymmetric(p: Point, q: Point)
    ensures SquaredDistance(p, q) == SquaredDistance(q, p)
  {
    assert (q.x - p.x) * (q.x - p.x) == (p.x - q.x) * (p.x - q.x);
    assert (q.y - p.y) * (q.y - p.y) == (p.y - q.y) * (p.y - q.y);
  }

  /** Squaring is monotone on the non-negative reals, strictly and non-strictly. */
  lemma SquareMonotone(a: real, b: real)
    requires 0.0 <= a <= b
    ensures a * a <= b * b
    ensures a < b ==> a * a < b * b
  {
    calc {
      a * a;
    <= a * b;
    <= b * b;
    }
    if a < b {
      calc {
        a * a;
      <= a * b;
      < b * b;
      }
    }
  }

  /** Multiplying by a non-negative factor keeps the order. */
  lemma MulMonotone(a: real, b: real, c: real)
    requires a <= b && c >= 0.0
    ensures a * c <= b * c
  {
    calc {
      b * c - a * c;
    == (b - a) * c;
    >= 0.0;
    }
  }

  /** Dividing by a positive number and multiplying back cancel. */
  lemma DivCancel(a: real, b: real)
    requires b > 0.0
    ensures a * b / b == a && b / b == 1.0
  {
  }

  lemma MulStrict(a: real, b: real, c: real)
    requires a < b && c > 0.0
    ensures a * c < b * c
  {
    calc {
      b * c - a * c;
    == (b - a) * c;
    > 0.0;
    }
  }

  /**
    isPointNear: the distance between p and q is at most the threshold.
    sqrt(d2) <= t is written as t >= 0 && d2 <= t*t, which is the same test over the reals.
   */
  predicate IsPointNear(p: Point, q: Point, threshold: real)
  {
    threshold >= 0.0 && SquaredDistance(p, q) <= threshold * threshold
  }

  /** The squared form agrees with comparing the actual (non-negative) distance d to the threshold. */
  lemma NearMatchesDistance(p: Point, q: Point, threshold: real, d: real)
    requires d >= 0.0 && d * d == SquaredDistance(p, q)
    ensures IsPointNear(p, q, threshold) <==> d <= threshold
  {
    if d <= threshold {
      SquareMonotone(d, threshold);
    } else if threshold >= 0.0 {
      SquareMonotone(threshold, d);
    }
  }

  lemma NearIsSymmetricAndInclusive(p: Point, q: Point, t: real)
    ensures IsPointNear(p, q, t) <==> IsPointNear(q, p, t)
    ensures t >= 0.0 && SquaredDistance(p, q) == t * t ==> IsPointNear(p, q, t)
    ensures t < 0.0 ==> !IsPointNear(p, q, t)
  {
    SquaredDistanceSymmetric(p, q);
  }

  /** screenToCanvas: remove the canvas origin and the pan offset, then divide by zoom. */
  function ScreenToCanvas(s: Point, rect: Rect, zoom: real, offset: Point): Point
    requires zoom != 0.0
  {
    Point((s.x - rect.left - offset.x) / zoom, (s.y - rect.top - offset.y) / zoom)
  }

  /** canvasToScreen: multiply by zoom, add the pan offset and the canvas origin. */
  function CanvasToScreen(c: Point, rect: Rect, zoom: real, offset: Point): Point
  {
    Point(c.x * zoom + offset.x + rect.left, c.y * zoom + offset.y + rect.top)
  }

  lemma ScreenCanvasRoundTrip(s: Point, c: Point, rect: Rect, zoom: real, offset: Point)
    requires zoom != 0.0
    ensures CanvasToScreen(ScreenToCanvas(s, rect, zoom, offset), rect, zoom, offset) == s
    ensures ScreenToCanvas(CanvasToScreen(c, rect, zoom, offset), rect, zoom, offset) == c
  {
  }

  /** constrainPoint: clamp each coordinate into [0,width] x [0,height]. */
  function ConstrainPoint(p: Point, width: real, height: real): (r: Point)
    ensures width >= 0.0 ==> 0.0 <= r.x <= width
    ensures height >= 0.0 ==> 0.0 <= r.y <= height
    ensures InBox(p, width, height) ==> r == p
  {
    Point(Max(0.0, Min(width, p.x)), Max(0.0, Min(height, p.y)))
  }

  predicate InBox(p: Point, width: real, height: real)
  {
    0.0 <= p.x <= width && 0.0 <= p.y <= height
  }

  lemma ConstrainIdempotent(p: Point, width: real, height: real)
    requires width >= 0.0 && height >= 0.0
    ensures ConstrainPoint(ConstrainPoint(p, width, height), width, height) == ConstrainPoint(p, width, height)
  {
  }

  /** The four corners in the fixed order TL, TR, BR, BL. */
  function Corners(c: CropArea): (r: seq<Point>)
    ensures |r| == 4
  {
    [c.topLeft, c.topRight, c.bottomRight, c.bottomLeft]
  }

  function FromCorners(pts: seq<Point>): CropArea
    requires |pts| >= 4
  {
    CropArea(pts[0], pts[1], pts[2], pts[3])
  }

  lemma CornersRoundTrip(c: CropArea)
    ensures FromCorners(Corners(c)) == c
  {
  }

  /** Writing corner i (in TL, TR, BR, BL order) and keeping the other three. */
  function WithCorner(c: CropArea, i: nat, p: Point): (r: CropArea)
    requires i < 4
    ensures Corners(r)[i] == p
    ensures forall j :: 0 <= j < 4 && j != i ==> Corners(r)[j] == Corners(c)[j]
  {
    match i
    case 0 => c.(topLeft := p)
    case 1 => c.(topRight := p)
    case 2 => c.(bottomRight := p)
    case 3 => c.(bottomLeft := p)
  }

  function MapCorners(c: CropArea, f: Point -> Point): CropArea
  {
    CropArea(f(c.topLeft), f(c.topRight), f(c.bottomRight), f(c.bottomLeft))
  }

  /** getCropAreaCenter: the mean of the four corners. */
  function Center(c: CropArea): Point
  {
    Point((c.topLeft.x + c.topRight.x + c.bottomRight.x + c.bottomLeft.x) / 4.0,
          (c.topLeft.y + c.topRight.y + c.bottomRight.y + c.bottomLeft.y) / 4.0)
  }

  function Translate(c: CropArea, d: Point): CropArea
  {
    CropArea(Add(c.topLeft, d), Add(c.topRight, d), Add(c.bottomRight, d), Add(c.bottomLeft, d))
  }

  lemma CenterOfTranslate(c: CropArea, d: Point)
    ensures Center(Translate(c, d)) == Add(Center(c), d)
  {
  }

  /** The centre of an axis-aligned rectangle is the midpoint of its diagonal. */
  lemma CenterOfRectangle(l: real, t: real, r: real, b: real)
    ensures Center(CropArea(Point(l, t), Point(r, t), Point(r, b), Point(l, b))) == Point((l + r) / 2.0, (t + b) / 2.0)
  {
  }

  /** createDefaultCropArea: margin = min(w, h) / 10, corners inset by the margin. */
  function DefaultCropArea(width: real, height: real): (r: CropArea)
    ensures var m := Min(width, height) / 10.0;
      && r.topLeft == Point(m, m) && r.topRight == Point(width - m, m)
      && r.bottomRight == Point(width - m, height - m) && r.bottomLeft == Point(m, height - m)
  {
    var margin := Min(width, height) * 0.1;
    CropArea(Point(margin, margin), Point(width - margin, margin),
             Point(width - margin, height - margin), Point(margin, height - margin))
  }

  /** No two of the four corners coincide exactly (no convexity check). */
  predicate DistinctCorners(c: CropArea)
  {
    forall i, j :: 0 <= i < j < 4 ==> Corners(c)[i] != Corners(c)[j]
  }

  /** isValidCropArea: the nested pairwise comparison loop of the source. */
  method IsValidCropArea(c: CropArea) returns (ok: bool)
    ensures ok <==> DistinctCorners(c)
  {
    var points := Corners(c);
    var i := 0;
    while i < |points|
      invariant 0 <= i <= 4
      invariant forall a, b :: 0 <= a < i && a < b < 4 ==> points[a] != points[b]
    {
      var j := i + 1;
      while j < |points|
        invariant i + 1 <= j <= 4
        invariant forall b :: i < b < j ==> points[i] != points[b]
      {
        if points[i].x == points[j].x && points[i].y == points[j].y {
          return false;
        }
        j := j + 1;
      }
      i := i + 1;
    }
    return true;
  }

  predicate CropAreaInBox(c: CropArea, width: real, height: real)
  {
    forall i :: 0 <= i < 4 ==> InBox(Corners(c)[i], width, height)
  }

  lemma DefaultCropAreaIsValid(width: real, height: real)
    requires width > 0.0 && height > 0.0
    ensures DistinctCorners(DefaultCropArea(width, height))
    ensures CropAreaInBox(DefaultCropArea(width, height), width, height)
  {
    var m := Min(width, height) / 10.0;
    assert 0.0 < m && m < width - m && m < height - m;
  }

  lemma DefaultCropAreaScenario()
    ensures DefaultCropArea(800.0, 600.0)
      == CropArea(Point(60.0, 60.0), Point(740.0, 60.0), Point(740.0, 540.0), Point(60.0, 540.0))
  {
  }
}
