/**
  The geometry of the server-rendered edit page (the script that html_templates.py
  emits). Unlike the React client it keeps the four corners in absolute canvas
  pixels, so every change of zoom or pan must move the corners with the image.
  The image is drawn at `offset + imagePoint * scale`, with scale = baseScale * zoomFactor
  and the image centred on the canvas up to the pan offset.

  The script's globals are grouped by what changes together: the page layout (fixed once
  the image has loaded, apart from the zoom step slider), the view (zoom and pan), the
  shape (corners and edge handles) and the pointer (drag and pan gesture).
 */
module LegacyEditor {
  import opened Geometry
  import opened Wrappers

  const HitRadius: real := 15.0
  const MinZoomFactor: real := 0.2
  const MaxZoomFactor: real := 5.0
  const CanvasPadding: real := 40.0
  const DefaultZoomStep: real := 1.4
  const MinSliderStep: real := 1.1
  const MaxSliderStep: real := 2.0

  /** What a mouse press grabbed: nothing, corner `index`, or the midpoint of edge `index`. */
  datatype Drag = NoDrag | CornerDrag(index: int) | EdgeDrag(index: int)

  datatype Layout = Layout(imageW: real, imageH: real, canvasW: real, canvasH: real, baseScale: real, zoomStep: real)

  datatype View = View(zoomFactor: real, scale: real, offset: Point, pan: Point)

  /**
    `corners` is None until the first detection or reset fills the (initially empty) corner
    list; `edges` are the stored edge midpoints.
   */
  datatype Shape = Shape(corners: Option<CropArea>, edges: seq<Point>)

  datatype Pointer = Pointer(drag: Drag, panning: bool, panStart: Point)

  datatype Editor = Editor(layout: Layout, view: View, shape: Shape, pointer: Pointer)

  /** Image pixels to canvas pixels, and back, under a scale and an offset. */
  function ToCanvas(q: Point, scale: real, offset: Point): Point
  {
    CanvasToScreen(q, Rect(0.0, 0.0), scale, offset)
  }

  function ToImage(p: Point, scale: real, offset: Point): Point
    requires scale != 0.0
  {
    ScreenToCanvas(p, Rect(0.0, 0.0), scale, offset)
  }

  /** The offset that centres an image drawn at scale s on the canvas, shifted by `pan`. */
  function CentredOffset(l: Layout, pan: Point, s: real): Point
  {
    Point(l.canvasW / 2.0 - (l.imageW * s) / 2.0 + pan.x,
          l.canvasH / 2.0 - (l.imageH * s) / 2.0 + pan.y)
  }

  /**
    updateScale: scale = baseScale * zoomFactor, and the offset that puts the scaled image's
    centre on the canvas centre shifted by the pan offset.
   */
  function UpdateScale(l: Layout, v: View): (r: View)
    ensures r.scale == l.baseScale * v.zoomFactor
    ensures r.offset.x + l.imageW * r.scale / 2.0 == l.canvasW / 2.0 + v.pan.x
    ensures r.offset.y + l.imageH * r.scale / 2.0 == l.canvasH / 2.0 + v.pan.y
    ensures r.zoomFactor == v.zoomFactor && r.pan == v.pan
    ensures ScaleFresh(l, r)
  {
    var s := l.baseScale * v.zoomFactor;
    v.(scale := s, offset := CentredOffset(l, v.pan, s))
  }

  /** The scale and offset are what updateScale would compute from the current factor and pan. */
  predicate ScaleFresh(l: Layout, v: View)
  {
    v.scale == l.baseScale * v.zoomFactor && v.offset == CentredOffset(l, v.pan, v.scale)
  }

  /** updateScale changes nothing in a view that is already fresh. */
  lemma UpdateScaleIdempotent(l: Layout, v: View)
    requires ScaleFresh(l, v)
    ensures UpdateScale(l, v) == v
  {
  }

  /** The pan offset that makes updateScale land on offset o at scale s. */
  function PanFor(l: Layout, s: real, o: Point): Point
  {
    Sub(o, Point((l.canvasW - l.imageW * s) / 2.0, (l.canvasH - l.imageH * s) / 2.0))
  }

  lemma PanFromOffset(l: Layout, s: real, o: Point)
    ensures CentredOffset(l, PanFor(l, s, o), s) == o
  {
    HalvesCancel(l.canvasW, l.imageW * s, o.x);
    HalvesCancel(l.canvasH, l.imageH * s, o.y);
  }

  lemma HalvesCancel(c: real, k: real, o: real)
    ensures c / 2.0 - k / 2.0 + (o - (c - k) / 2.0) == o
  {
  }

  function Midpoint(p: Point, q: Point): Point
  {
    Point((p.x + q.x) / 2.0, (p.y + q.y) / 2.0)
  }

  /** updateEdgePoints: edge i is the midpoint of corners i and (i + 1) mod 4. */
  function Midpoints(c: CropArea): (r: seq<Point>)
    ensures |r| == 4
  {
    var p := Corners(c);
    [Midpoint(p[0], p[1]), Midpoint(p[1], p[2]), Midpoint(p[2], p[3]), Midpoint(p[3], p[0])]
  }

  /**
    Each edge handle is the midpoint of its edge's two corners, equally far from both, and it
    moves with a translated quadrilateral.
   */
  lemma MidpointFacts(c: CropArea, d: Point)
    ensures forall i :: 0 <= i < 4 ==> Midpoints(c)[i] == Midpoint(Corners(c)[i], Corners(c)[(i + 1) % 4])
    ensures forall i :: 0 <= i < 4 ==>
      SquaredDistance(Midpoints(c)[i], Corners(c)[i]) == SquaredDistance(Midpoints(c)[i], Corners(c)[(i + 1) % 4])
    ensures forall i :: 0 <= i < 4 ==> Midpoints(Translate(c, d))[i] == Add(Midpoints(c)[i], d)
  {
    MidpointEquidistant(c.topLeft, c.topRight);
    MidpointEquidistant(c.topRight, c.bottomRight);
    MidpointEquidistant(c.bottomRight, c.bottomLeft);
    MidpointEquidistant(c.bottomLeft, c.topLeft);
  }

  lemma MidpointEquidistant(a: Point, b: Point)
    ensures SquaredDistance(Midpoint(a, b), a) == SquaredDistance(Midpoint(a, b), b)
  {
    var m := Midpoint(a, b);
    assert a.x - m.x == -(b.x - m.x) && a.y - m.y == -(b.y - m.y);
    assert (a.x - m.x) * (a.x - m.x) == (b.x - m.x) * (b.x - m.x);
    assert (a.y - m.y) * (a.y - m.y) == (b.y - m.y) * (b.y - m.y);
  }

  /** Recompute the stored midpoints; with no corners the script throws there and the midpoints stay. */
  function RefreshEdges(q: Shape): (r: Shape)
    ensures r.corners == q.corners
    ensures q.corners.Some? ==> r.edges == Midpoints(q.corners.value)
    ensures q.corners.None? ==> r.edges == q.edges
  {
    if q.corners.Some? then q.(edges := Midpoints(q.corners.value)) else q
  }

  /** One corner carried from the old scale and offset to the new ones through its image position. */
  function RemapPoint(p: Point, s0: real, o0: Point, s1: real, o1: Point): Point
    requires s0 != 0.0
  {
    ToCanvas(ToImage(p, s0, o0), s1, o1)
  }

  /** The loops in the zoom handlers (and adjustPointsForScale): every corner keeps its image position. */
  function Remap(c: CropArea, s0: real, o0: Point, s1: real, o1: Point): (r: CropArea)
    requires s0 != 0.0
    ensures s1 != 0.0 ==> forall i :: 0 <= i < 4 ==> ToImage(Corners(r)[i], s1, o1) == ToImage(Corners(c)[i], s0, o0)
  {
    var r := CropArea(RemapPoint(c.topLeft, s0, o0, s1, o1), RemapPoint(c.topRight, s0, o0, s1, o1),
                      RemapPoint(c.bottomRight, s0, o0, s1, o1), RemapPoint(c.bottomLeft, s0, o0, s1, o1));
    if s1 != 0.0 then
      RemapKeepsImagePosition(c.topLeft, s0, o0, s1, o1);
      RemapKeepsImagePosition(c.topRight, s0, o0, s1, o1);
      RemapKeepsImagePosition(c.bottomRight, s0, o0, s1, o1);
      RemapKeepsImagePosition(c.bottomLeft, s0, o0, s1, o1);
      r
    else r
  }

  lemma RemapKeepsImagePosition(p: Point, s0: real, o0: Point, s1: real, o1: Point)
    requires s0 != 0.0 && s1 != 0.0
    ensures ToImage(RemapPoint(p, s0, o0, s1, o1), s1, o1) == ToImage(p, s0, o0)
  {
    ScreenCanvasRoundTrip(p, ToImage(p, s0, o0), Rect(0.0, 0.0), s1, o1);
  }

  /** Remapping with the scale and offset unchanged leaves every corner where it is. */
  lemma RemapIdentity(c: CropArea, s: real, o: Point)
    requires s != 0.0
    ensures Remap(c, s, o, s, o) == c
  {
    ScreenCanvasRoundTrip(c.topLeft, Origin, Rect(0.0, 0.0), s, o);
    ScreenCanvasRoundTrip(c.topRight, Origin, Rect(0.0, 0.0), s, o);
    ScreenCanvasRoundTrip(c.bottomRight, Origin, Rect(0.0, 0.0), s, o);
    ScreenCanvasRoundTrip(c.bottomLeft, Origin, Rect(0.0, 0.0), s, o);
  }

  /**
    The guarded loop `if (cornerPoints.length === 4 && oldScale !== 0)`: remap the corners when there
    are any and the old scale is not 0, otherwise leave them.
   */
  function CarryCorners(c: Option<CropArea>, s0: real, o0: Point, s1: real, o1: Point): (r: Option<CropArea>)
    ensures r.Some? == c.Some?
    ensures s0 == 0.0 ==> r == c
    ensures r.Some? && s0 != 0.0 && s1 != 0.0 ==> forall i :: 0 <= i < 4 ==>
      ToImage(Corners(r.value)[i], s1, o1) == ToImage(Corners(c.value)[i], s0, o0)
  {
    if c.Some? && s0 != 0.0 then Some(Remap(c.value, s0, o0, s1, o1)) else c
  }

  /** The offset at scale s1 that puts the image point now under `anchor` back under it. */
  function AnchoredOffset(v: View, anchor: Point, s1: real): Point
    requires v.scale != 0.0
  {
    var q := ToImage(anchor, v.scale, v.offset);
    Point(anchor.x - q.x * s1, anchor.y - q.y * s1)
  }

  /** The anchored offset maps the anchor back to the image point it showed before. */
  lemma AnchoredOffsetFixesAnchor(v: View, anchor: Point, s1: real)
    requires v.scale != 0.0 && s1 != 0.0
    ensures ToImage(anchor, s1, AnchoredOffset(v, anchor, s1)) == ToImage(anchor, v.scale, v.offset)
  {
    var q := ToImage(anchor, v.scale, v.offset);
    var o1 := AnchoredOffset(v, anchor, s1);
    calc {
      (anchor.x - o1.x) / s1;
    == (q.x * s1) / s1;
    == q.x;
    }
    calc {
      (anchor.y - o1.y) / s1;
    == (q.y * s1) / s1;
    == q.y;
    }
  }

  /**
    The view part of the body shared by the wheel handler and zoomAtCenter: the new factor, the
    pan offset stored relative to the centred position so that updateScale lands on the anchored
    offset.
   */
  function ZoomView(l: Layout, v: View, anchor: Point, z: real): (r: View)
    requires v.scale != 0.0
    ensures r.zoomFactor == z && r.scale == l.baseScale * z
    ensures r.offset == AnchoredOffset(v, anchor, l.baseScale * z)
    ensures ScaleFresh(l, r)
  {
    var s1 := l.baseScale * z;
    var o1 := AnchoredOffset(v, anchor, s1);
    PanFromOffset(l, s1, o1);
    UpdateScale(l, v.(zoomFactor := z, pan := PanFor(l, s1, o1)))
  }

  /** The shape part: the corners carried to the anchored offset, then updateEdgePoints. */
  function ZoomShape(l: Layout, v: View, q: Shape, anchor: Point, z: real): Shape
    requires v.scale != 0.0
  {
    var s1 := l.baseScale * z;
    RefreshEdges(q.(corners := CarryCorners(q.corners, v.scale, v.offset, s1, AnchoredOffset(v, anchor, s1))))
  }

  /** Zoom about an anchor: the pointer state and the layout are left alone. */
  function ZoomAbout(e: Editor, anchor: Point, z: real): (r: Editor)
    requires e.view.scale != 0.0
    ensures r.layout == e.layout && r.pointer == e.pointer
  {
    e.(view := ZoomView(e.layout, e.view, anchor, z), shape := ZoomShape(e.layout, e.view, e.shape, anchor, z))
  }

  /**
    After zooming about an anchor the anchor shows the same image point as before and the
    corners keep their image positions.
   */
  lemma {:induction false} ZoomAboutKeepsAnchor(e: Editor, anchor: Point, z: real)
    requires e.view.scale != 0.0 && e.layout.baseScale * z != 0.0
    ensures var r := ZoomAbout(e, anchor, z);
      && ToImage(anchor, r.view.scale, r.view.offset) == ToImage(anchor, e.view.scale, e.view.offset)
      && r.shape.corners.Some? == e.shape.corners.Some?
      && (r.shape.corners.Some? ==> forall i :: 0 <= i < 4 ==>
            ToImage(Corners(r.shape.corners.value)[i], r.view.scale, r.view.offset)
              == ToImage(Corners(e.shape.corners.value)[i], e.view.scale, e.view.offset))
  {
    AnchoredOffsetFixesAnchor(e.view, anchor, e.layout.baseScale * z);
  }

  /** The wheel's target factor: zoom in by zoomStep (at most 5) for deltaY < 0, else out (at least 0.2). */
  function WheelFactor(z: real, step: real, deltaY: real): (r: real)
    requires step != 0.0
    ensures deltaY < 0.0 ==> r <= MaxZoomFactor
    ensures deltaY >= 0.0 ==> r >= MinZoomFactor
  {
    if deltaY < 0.0 then Min(z * step, MaxZoomFactor) else Max(z / step, MinZoomFactor)
  }

  /** For a step of at least 1 the wheel keeps the factor in [0.2, 5] and moves it the right way. */
  lemma WheelFactorInRange(z: real, step: real, deltaY: real)
    requires MinZoomFactor <= z <= MaxZoomFactor && step >= 1.0
    ensures MinZoomFactor <= WheelFactor(z, step, deltaY) <= MaxZoomFactor
    ensures deltaY < 0.0 ==> WheelFactor(z, step, deltaY) >= z
    ensures deltaY >= 0.0 ==> WheelFactor(z, step, deltaY) <= z
  {
    MulMonotone(1.0, step, z);
    if deltaY >= 0.0 {
      assert z / step <= z by {
        MulMonotone(1.0, step, z / step);
        assert (z / step) * step == z;
      }
    }
  }

  /** The wheel handler: an unchanged factor returns at once; otherwise zoom about the pointer. */
  function Wheel(e: Editor, mouse: Point, deltaY: real): (r: Editor)
    requires e.view.scale != 0.0 && e.layout.zoomStep != 0.0
    ensures WheelFactor(e.view.zoomFactor, e.layout.zoomStep, deltaY) == e.view.zoomFactor ==> r == e
    ensures WheelFactor(e.view.zoomFactor, e.layout.zoomStep, deltaY) != e.view.zoomFactor ==>
      r.view.zoomFactor == WheelFactor(e.view.zoomFactor, e.layout.zoomStep, deltaY)
  {
    var z := WheelFactor(e.view.zoomFactor, e.layout.zoomStep, deltaY);
    if z == e.view.zoomFactor then e else ZoomAbout(e, mouse, z)
  }

  function CanvasCentre(l: Layout): Point
  {
    Point(l.canvasW / 2.0, l.canvasH / 2.0)
  }

  /** zoomAtCenter: targets outside [0.2, 5] are ignored; otherwise zoom about the canvas centre. */
  function ZoomAtCenter(e: Editor, target: real): (r: Editor)
    requires e.view.scale != 0.0
    ensures target < MinZoomFactor || target > MaxZoomFactor ==> r == e
    ensures MinZoomFactor <= target <= MaxZoomFactor ==> r.view.zoomFactor == target
  {
    if target < MinZoomFactor || target > MaxZoomFactor then e else ZoomAbout(e, CanvasCentre(e.layout), target)
  }

  /** The zoom buttons: multiply or divide the factor by zoomStep about the canvas centre. */
  function ZoomIn(e: Editor): Editor
    requires e.view.scale != 0.0
  {
    ZoomAtCenter(e, e.view.zoomFactor * e.layout.zoomStep)
  }

  function ZoomOut(e: Editor): Editor
    requires e.view.scale != 0.0 && e.layout.zoomStep != 0.0
  {
    ZoomAtCenter(e, e.view.zoomFactor / e.layout.zoomStep)
  }

  /**
    Unlike the wheel, which caps the factor at 5, a button press whose target leaves [0.2, 5]
    does nothing at all: at factor 4 with step 1.4 zoom-in is ignored.
   */
  lemma ButtonsIgnoreOutOfRange(e: Editor)
    requires e.view.scale != 0.0 && e.view.zoomFactor == 4.0 && e.layout.zoomStep == DefaultZoomStep
    ensures ZoomIn(e) == e
    ensures WheelFactor(e.view.zoomFactor, e.layout.zoomStep, -1.0) == MaxZoomFactor
  {
  }

  /** The view resetZoom moves to: factor 1, no pan, the centred offset. */
  function ResetView(l: Layout, v: View): (r: View)
    ensures r.zoomFactor == 1.0 && r.pan == Origin && ScaleFresh(l, r)
  {
    UpdateScale(l, v.(zoomFactor := 1.0, pan := Origin))
  }

  /**
    resetZoom: the corners carried to the centred view at factor 1 (skipped when the old scale
    is 0), then updateScale and updateEdgePoints.
   */
  function ResetZoom(e: Editor): (r: Editor)
    ensures r.view == ResetView(e.layout, e.view)
    ensures r.shape.corners.Some? == e.shape.corners.Some?
    ensures r.layout == e.layout && r.pointer == e.pointer
  {
    var v1 := ResetView(e.layout, e.view);
    var s1 := e.layout.baseScale * 1.0;
    var o1 := Point(e.layout.canvasW / 2.0 - (e.layout.imageW * s1) / 2.0,
                    e.layout.canvasH / 2.0 - (e.layout.imageH * s1) / 2.0);
    assert v1.scale == s1 && v1.offset == o1;
    e.(view := v1,
       shape := RefreshEdges(e.shape.(corners := CarryCorners(e.shape.corners, e.view.scale, e.view.offset, v1.scale, v1.offset))))
  }

  /** After a reset the corners keep their image positions. */
  lemma ResetZoomKeepsImagePositions(e: Editor)
    requires e.view.scale != 0.0 && e.layout.baseScale != 0.0
    ensures var r := ResetZoom(e);
      r.shape.corners.Some? ==> forall i :: 0 <= i < 4 ==>
        ToImage(Corners(r.shape.corners.value)[i], r.view.scale, r.view.offset)
          == ToImage(Corners(e.shape.corners.value)[i], e.view.scale, e.view.offset)
  {
  }

  /** A second reset changes nothing. */
  lemma {:induction false} ResetZoomIdempotent(e: Editor)
    requires e.layout.baseScale != 0.0
    ensures ResetZoom(ResetZoom(e)) == ResetZoom(e)
  {
    var r := ResetZoom(e);
    var r2 := ResetZoom(r);
    assert r2.view == r.view;
    if r.shape.corners.Some? {
      RemapIdentity(r.shape.corners.value, r.view.scale, r.view.offset);
    }
  }

  /** The reset quadrilateral: the image rectangle at scale s and offset o, inset by 10%. */
  function InsetCorners(l: Layout, v: View): CropArea
  {
    var w := l.imageW * v.scale;
    var h := l.imageH * v.scale;
    var o := v.offset;
    CropArea(Point(o.x + w * 0.1, o.y + h * 0.1), Point(o.x + w * 0.9, o.y + h * 0.1),
             Point(o.x + w * 0.9, o.y + h * 0.9), Point(o.x + w * 0.1, o.y + h * 0.9))
  }

  /**
    resetPoints: nothing unless the image is loaded with a non-zero size; a non-positive scale is
    recomputed first; then the corners are the image rectangle inset by 10% on every side.
   */
  function ResetPoints(e: Editor, loaded: bool): (r: Editor)
    ensures !loaded || e.layout.imageW == 0.0 || e.layout.imageH == 0.0 ==> r == e
    ensures loaded && e.layout.imageW != 0.0 && e.layout.imageH != 0.0 ==>
      r.shape.corners.Some? && r.shape.edges == Midpoints(r.shape.corners.value)
    ensures r.view.zoomFactor == e.view.zoomFactor && r.view.pan == e.view.pan
    ensures e.view.scale > 0.0 ==> r.view == e.view
    ensures r.layout == e.layout && r.pointer == e.pointer
  {
    if !loaded || e.layout.imageW == 0.0 || e.layout.imageH == 0.0 then e
    else
      var v := if e.view.scale <= 0.0 then UpdateScale(e.layout, e.view) else e.view;
      e.(view := v, shape := RefreshEdges(e.shape.(corners := Some(InsetCorners(e.layout, v)))))
  }

  /** In image pixels the reset corners are (0.1w, 0.1h), (0.9w, 0.1h), (0.9w, 0.9h), (0.1w, 0.9h). */
  lemma {:induction false} ResetPointsInsetTenPercent(e: Editor)
    requires e.layout.imageW != 0.0 && e.layout.imageH != 0.0 && e.view.scale > 0.0
    ensures var r := ResetPoints(e, true);
      var w := e.layout.imageW;
      var h := e.layout.imageH;
      var c := r.shape.corners.value;
      && c.topLeft == ToCanvas(Point(0.1 * w, 0.1 * h), e.view.scale, e.view.offset)
      && c.topRight == ToCanvas(Point(0.9 * w, 0.1 * h), e.view.scale, e.view.offset)
      && c.bottomRight == ToCanvas(Point(0.9 * w, 0.9 * h), e.view.scale, e.view.offset)
      && c.bottomLeft == ToCanvas(Point(0.1 * w, 0.9 * h), e.view.scale, e.view.offset)
  {
    var w := e.layout.imageW;
    var h := e.layout.imageH;
    var s := e.view.scale;
    assert ResetPoints(e, true).shape.corners.value == InsetCorners(e.layout, e.view);
    assert (w * s) * 0.1 == (0.1 * w) * s && (w * s) * 0.9 == (0.9 * w) * s;
    assert (h * s) * 0.1 == (0.1 * h) * s && (h * s) * 0.9 == (0.9 * h) * s;
  }

  /** A successful detection places the detected image corners on the canvas; a failure resets them. */
  function ApplyDetection(e: Editor, detected: Option<CropArea>): (r: Editor)
    ensures detected.None? ==> r == ResetPoints(e, true)
    ensures detected.Some? ==> r.shape.corners.Some? && r.shape.edges == Midpoints(r.shape.corners.value)
    ensures detected.Some? ==> r.view == e.view && r.layout == e.layout && r.pointer == e.pointer
    ensures detected.Some? && e.view.scale != 0.0 ==> forall i :: 0 <= i < 4 ==>
      ToImage(Corners(r.shape.corners.value)[i], e.view.scale, e.view.offset) == Corners(detected.value)[i]
  {
    if detected.Some? then
      var d := detected.value;
      var s := e.view.scale;
      var o := e.view.offset;
      var c := CropArea(ToCanvas(d.topLeft, s, o), ToCanvas(d.topRight, s, o),
                        ToCanvas(d.bottomRight, s, o), ToCanvas(d.bottomLeft, s, o));
      if s != 0.0 then
        ScreenCanvasRoundTrip(Origin, d.topLeft, Rect(0.0, 0.0), s, o);
        ScreenCanvasRoundTrip(Origin, d.topRight, Rect(0.0, 0.0), s, o);
        ScreenCanvasRoundTrip(Origin, d.bottomRight, Rect(0.0, 0.0), s, o);
        ScreenCanvasRoundTrip(Origin, d.bottomLeft, Rect(0.0, 0.0), s, o);
        e.(shape := RefreshEdges(e.shape.(corners := Some(c))))
      else e.(shape := RefreshEdges(e.shape.(corners := Some(c))))
    else ResetPoints(e, true)
  }

  /** The hit test `sqrt(dx*dx + dy*dy) < 15`, without the square root. */
  predicate StrictlyNear(p: Point, q: Point)
  {
    SquaredDistance(p, q) < HitRadius * HitRadius
  }

  /** For the true distance d (d >= 0, d*d the squared distance), StrictlyNear is d < 15. */
  lemma StrictlyNearMatchesDistance(p: Point, q: Point, d: real)
    requires d >= 0.0 && d * d == SquaredDistance(p, q)
    ensures StrictlyNear(p, q) <==> d < HitRadius
  {
    if d < HitRadius {
      SquareMonotone(d, HitRadius);
    } else {
      SquareMonotone(HitRadius, d);
    }
  }

  /** The first index from k on whose point is strictly within 15 px of `at`. */
  function StrictHitFrom(pts: seq<Point>, at: Point, k: nat): (r: Option<int>)
    requires k <= |pts|
    ensures r.Some? ==> k <= r.value < |pts| && StrictlyNear(at, pts[r.value])
    ensures r.Some? ==> forall j :: k <= j < r.value ==> !StrictlyNear(at, pts[j])
    ensures r.None? ==> forall j :: k <= j < |pts| ==> !StrictlyNear(at, pts[j])
    decreases |pts| - k
  {
    if k == |pts| then None
    else if StrictlyNear(at, pts[k]) then Some(k)
    else StrictHitFrom(pts, at, k + 1)
  }

  /**
    mousedown on the shape: corners are checked first, then edge midpoints, each in index order;
    a miss starts panning from the press point.
   */
  function PressShape(q: Shape, p: Pointer, at: Point): (r: Pointer)
    requires q.corners.Some?
    ensures (exists j :: 0 <= j < 4 && StrictlyNear(at, Corners(q.corners.value)[j])) ==>
      && r == p.(drag := r.drag) && r.drag.CornerDrag? && 0 <= r.drag.index < 4
      && StrictlyNear(at, Corners(q.corners.value)[r.drag.index])
      && forall j :: 0 <= j < r.drag.index ==> !StrictlyNear(at, Corners(q.corners.value)[j])
    ensures (forall j :: 0 <= j < 4 ==> !StrictlyNear(at, Corners(q.corners.value)[j]))
            && (exists j :: 0 <= j < |q.edges| && StrictlyNear(at, q.edges[j])) ==>
      && r == p.(drag := r.drag) && r.drag.EdgeDrag? && 0 <= r.drag.index < |q.edges|
      && StrictlyNear(at, q.edges[r.drag.index])
      && forall j :: 0 <= j < r.drag.index ==> !StrictlyNear(at, q.edges[j])
    ensures (forall j :: 0 <= j < 4 ==> !StrictlyNear(at, Corners(q.corners.value)[j]))
            && (forall j :: 0 <= j < |q.edges| ==> !StrictlyNear(at, q.edges[j])) ==>
      r == p.(panning := true, panStart := at)
  {
    var corner := StrictHitFrom(Corners(q.corners.value), at, 0);
    if corner.Some? then p.(drag := CornerDrag(corner.value))
    else
      var edge := StrictHitFrom(q.edges, at, 0);
      if edge.Some? then p.(drag := EdgeDrag(edge.value))
      else p.(panning := true, panStart := at)
  }

  /** mousedown: with no corner list yet the handler throws and nothing changes. */
  function MouseDown(e: Editor, at: Point): (r: Editor)
    ensures e.shape.corners.None? ==> r == e
    ensures e.shape.corners.Some? ==> r == e.(pointer := PressShape(e.shape, e.pointer, at))
  {
    if e.shape.corners.None? then e else e.(pointer := PressShape(e.shape, e.pointer, at))
  }

  function Dot(p: Point, q: Point): real
  {
    p.x * q.x + p.y * q.y
  }

  /** The edge vector of edge i: from corner i to corner (i + 1) mod 4. */
  function EdgeVector(c: CropArea, i: int): Point
    requires 0 <= i < 4
  {
    Sub(Corners(c)[(i + 1) % 4], Corners(c)[i])
  }

  /**
    The move applied by moveEdgePoint: the pointer's offset from the edge handle projected on
    the edge normal. With n = m / |e| and m = (-e.y, e.x) the script's (offset . n) n equals
    ((offset . m) / (e . e)) m, which needs no square root.
   */
  function EdgeShift(c: CropArea, i: int, mid: Point, at: Point): Point
    requires 0 <= i < 4 && Dot(EdgeVector(c, i), EdgeVector(c, i)) != 0.0
  {
    var ed := EdgeVector(c, i);
    var m := Point(-ed.y, ed.x);
    var k := Dot(Sub(at, mid), m) / Dot(ed, ed);
    Point(k * m.x, k * m.y)
  }

  /** moveEdgePoint: both corners of edge i move by the same shift; the other two stay. */
  function MoveEdge(c: CropArea, i: int, mid: Point, at: Point): (r: CropArea)
    requires 0 <= i < 4 && Dot(EdgeVector(c, i), EdgeVector(c, i)) != 0.0
    ensures Corners(r)[i] == Add(Corners(c)[i], EdgeShift(c, i, mid, at))
    ensures Corners(r)[(i + 1) % 4] == Add(Corners(c)[(i + 1) % 4], EdgeShift(c, i, mid, at))
    ensures forall j :: 0 <= j < 4 && j != i && j != (i + 1) % 4 ==> Corners(r)[j] == Corners(c)[j]
  {
    var v := EdgeShift(c, i, mid, at);
    var j := (i + 1) % 4;
    WithCorner(WithCorner(c, i, Add(Corners(c)[i], v)), j, Add(Corners(c)[j], v))
  }

  /**
    The moved edge keeps its vector (so its direction), the shift is perpendicular to it, and the
    pointer lies on the line through the shifted handle parallel to the edge.
   */
  lemma {:induction false} MoveEdgeIsParallel(c: CropArea, i: int, mid: Point, at: Point)
    requires 0 <= i < 4 && Dot(EdgeVector(c, i), EdgeVector(c, i)) != 0.0
    ensures EdgeVector(MoveEdge(c, i, mid, at), i) == EdgeVector(c, i)
    ensures Dot(EdgeShift(c, i, mid, at), EdgeVector(c, i)) == 0.0
    ensures var ed := EdgeVector(c, i);
      Dot(Sub(at, Add(mid, EdgeShift(c, i, mid, at))), Point(-ed.y, ed.x)) == 0.0
  {
    var ed := EdgeVector(c, i);
    var m := Point(-ed.y, ed.x);
    var off := Sub(at, mid);
    var k := Dot(off, m) / Dot(ed, ed);
    var v := EdgeShift(c, i, mid, at);
    assert v == Point(k * m.x, k * m.y);
    assert Dot(m, m) == Dot(ed, ed);
    calc {
      Dot(v, ed);
    == k * m.x * ed.x + k * m.y * ed.y;
    == k * (m.x * ed.x + m.y * ed.y);
    == k * 0.0;
    }
    calc {
      Dot(Sub(at, Add(mid, v)), m);
    == Dot(off, m) - (k * m.x * m.x + k * m.y * m.y);
    == Dot(off, m) - k * Dot(m, m);
    == Dot(off, m) - k * Dot(ed, ed);
    == 0.0;
    }
  }

  /**
    A pan move: the pointer delta is added to the pan offset, the scale and offset are recomputed,
    every corner shifts by the same delta and the pan start is re-anchored.
   */
  function PanMove(e: Editor, at: Point): (r: Editor)
    ensures r.view.pan == Add(e.view.pan, Sub(at, e.pointer.panStart)) && r.pointer == e.pointer.(panStart := at)
    ensures r.view.zoomFactor == e.view.zoomFactor && r.layout == e.layout
    ensures ScaleFresh(r.layout, r.view)
    ensures r.shape.corners.Some? == e.shape.corners.Some?
    ensures e.shape.corners.Some? ==> r.shape.corners == Some(Translate(e.shape.corners.value, Sub(at, e.pointer.panStart)))
  {
    var d := Sub(at, e.pointer.panStart);
    var c := if e.shape.corners.Some? then Some(Translate(e.shape.corners.value, d)) else None;
    e.(view := UpdateScale(e.layout, e.view.(pan := Add(e.view.pan, d))),
       shape := RefreshEdges(e.shape.(corners := c)),
       pointer := e.pointer.(panStart := at))
  }

  /**
    A drag move: a corner drag writes the pointer into that corner unclamped; an edge drag moves
    that edge. Degenerate cases (no corners, an index outside 0..3, a zero-length edge) leave the
    shape unchanged.
   */
  function DragShape(q: Shape, drag: Drag, at: Point): (r: Shape)
    ensures q.corners.None? ==> r == q
    ensures drag.CornerDrag? && q.corners.Some? && 0 <= drag.index < 4 ==>
      r.corners == Some(WithCorner(q.corners.value, drag.index, at))
    ensures drag.EdgeDrag? && q.corners.Some? && 0 <= drag.index < 4 && drag.index < |q.edges|
            && Dot(EdgeVector(q.corners.value, drag.index), EdgeVector(q.corners.value, drag.index)) != 0.0 ==>
      r.corners == Some(MoveEdge(q.corners.value, drag.index, q.edges[drag.index], at))
    ensures r.corners.Some? == q.corners.Some?
    ensures r.corners.Some? && r != q ==> r.edges == Midpoints(r.corners.value)
  {
    if q.corners.None? then q
    else
      var c := q.corners.value;
      match drag
      case CornerDrag(i) =>
        if 0 <= i < 4 then RefreshEdges(q.(corners := Some(WithCorner(c, i, at)))) else q
      case EdgeDrag(i) =>
        if 0 <= i < 4 && i < |q.edges| && Dot(EdgeVector(c, i), EdgeVector(c, i)) != 0.0
        then RefreshEdges(q.(corners := Some(MoveEdge(c, i, q.edges[i], at))))
        else q
      case NoDrag => q
  }

  /** mousemove: idle moves (only the cursor changes) leave the state; panning wins over a drag. */
  function MouseMove(e: Editor, at: Point): (r: Editor)
    ensures e.pointer.drag.NoDrag? && !e.pointer.panning ==> r == e
    ensures e.pointer.panning ==> r == PanMove(e, at)
    ensures !e.pointer.panning ==> r == e.(shape := DragShape(e.shape, e.pointer.drag, at))
  {
    if e.pointer.drag.NoDrag? && !e.pointer.panning then e
    else if e.pointer.panning then PanMove(e, at)
    else e.(shape := DragShape(e.shape, e.pointer.drag, at))
  }

  /**
    In a fresh view a pan move shifts the image offset by the pointer delta, so every corner
    keeps its image position.
   */
  lemma {:induction false} PanKeepsImagePositions(e: Editor, at: Point)
    requires ScaleFresh(e.layout, e.view) && e.view.scale != 0.0 && e.shape.corners.Some?
    ensures var r := PanMove(e, at);
      && r.view.scale == e.view.scale && r.view.offset == Add(e.view.offset, Sub(at, e.pointer.panStart))
      && forall i :: 0 <= i < 4 ==>
           ToImage(Corners(r.shape.corners.value)[i], r.view.scale, r.view.offset)
             == ToImage(Corners(e.shape.corners.value)[i], e.view.scale, e.view.offset)
  {
    var r := PanMove(e, at);
    var d := Sub(at, e.pointer.panStart);
    var o := e.view.offset;
    assert r.view.offset == Add(o, d);
    forall i | 0 <= i < 4
      ensures ToImage(Corners(r.shape.corners.value)[i], r.view.scale, r.view.offset)
                == ToImage(Corners(e.shape.corners.value)[i], e.view.scale, e.view.offset)
    {
      var p := Corners(e.shape.corners.value)[i];
      assert Corners(r.shape.corners.value)[i] == Add(p, d);
      ShiftKeepsImagePosition(p, d, e.view.scale, o);
    }
  }

  lemma ShiftKeepsImagePosition(p: Point, d: Point, s: real, o: Point)
    requires s != 0.0
    ensures ToImage(Add(p, d), s, Add(o, d)) == ToImage(p, s, o)
  {
    assert (p.x + d.x) - (o.x + d.x) == p.x - o.x;
    assert (p.y + d.y) - (o.y + d.y) == p.y - o.y;
  }

  /** Two pan moves in a row end where one move to the second point ends. */
  lemma {:induction false} PanForgetsIntermediateMoves(e: Editor, a: Point, b: Point)
    ensures PanMove(PanMove(e, a), b) == PanMove(e, b)
  {
    var r1 := PanMove(e, a);
    var d1 := Sub(a, e.pointer.panStart);
    var d2 := Sub(b, a);
    var d := Sub(b, e.pointer.panStart);
    assert Add(Add(e.view.pan, d1), d2) == Add(e.view.pan, d);
    assert PanMove(r1, b).view == PanMove(e, b).view;
    if e.shape.corners.Some? {
      var c := e.shape.corners.value;
      assert Translate(Translate(c, d1), d2) == Translate(c, d);
    }
    assert PanMove(r1, b).shape == PanMove(e, b).shape;
  }

  /** mouseup (on the canvas or anywhere in the document): no drag and no pan afterwards. */
  function MouseUp(e: Editor): (r: Editor)
    ensures r.pointer.drag.NoDrag? && !r.pointer.panning && r.pointer.panStart == e.pointer.panStart
    ensures r.layout == e.layout && r.view == e.view && r.shape == e.shape
  {
    var p := if e.pointer.drag != NoDrag then e.pointer.(drag := NoDrag) else e.pointer;
    e.(pointer := if p.panning then p.(panning := false) else p)
  }

  /** Every corner is the clamped image position, in [0, w] x [0, h]. */
  predicate AllPointsValid(pts: seq<Point>, w: real, h: real)
  {
    forall i :: 0 <= i < |pts| ==> InBox(pts[i], w, h)
  }

  /**
    The corner conversion of cropImage (and showPreview): image position, each coordinate clamped
    into the image. None when there is no corner list.
   */
  function CropPoints(e: Editor): (r: Option<seq<Point>>)
    requires e.view.scale != 0.0
    ensures r.Some? <==> e.shape.corners.Some?
    ensures r.Some? ==> |r.value| == 4
    ensures r.Some? ==> forall i :: 0 <= i < 4 ==>
      var q := ToImage(Corners(e.shape.corners.value)[i], e.view.scale, e.view.offset);
      r.value[i] == Point(Clamp(q.x, 0.0, e.layout.imageW), Clamp(q.y, 0.0, e.layout.imageH))
  {
    if e.shape.corners.None? then None
    else
      var p := Corners(e.shape.corners.value);
      Some(seq(4, i requires 0 <= i < 4 =>
        var q := ToImage(p[i], e.view.scale, e.view.offset);
        Point(Clamp(q.x, 0.0, e.layout.imageW), Clamp(q.y, 0.0, e.layout.imageH))))
  }

  /**
    The validity check after the conversion never rejects, because the points were just clamped;
    corners already inside the image are sent at their exact image positions.
   */
  lemma CropCheckNeverRejects(e: Editor)
    requires e.view.scale != 0.0 && e.layout.imageW >= 0.0 && e.layout.imageH >= 0.0 && e.shape.corners.Some?
    ensures AllPointsValid(CropPoints(e).value, e.layout.imageW, e.layout.imageH)
    ensures forall i :: 0 <= i < 4 && InBox(ToImage(Corners(e.shape.corners.value)[i], e.view.scale, e.view.offset), e.layout.imageW, e.layout.imageH) ==>
      CropPoints(e).value[i] == ToImage(Corners(e.shape.corners.value)[i], e.view.scale, e.view.offset)
  {
  }

  /** The state right after the image loads: fit into the canvas minus 40 px, factor 1, no corners yet. */
  function Loaded(imageW: real, imageH: real, canvasW: real, canvasH: real, zoomStep: real): (r: Editor)
    requires imageW > 0.0 && imageH > 0.0
    ensures r.layout.baseScale * imageW <= canvasW - CanvasPadding && r.layout.baseScale * imageH <= canvasH - CanvasPadding
    ensures r.layout.baseScale * imageW == canvasW - CanvasPadding || r.layout.baseScale * imageH == canvasH - CanvasPadding
    ensures r.view.zoomFactor == 1.0 && r.view.scale == r.layout.baseScale && r.view.pan == Origin
    ensures ScaleFresh(r.layout, r.view)
    ensures r.shape.corners.None? && r.shape.edges == [] && r.pointer.drag.NoDrag? && !r.pointer.panning
  {
    var bs := Min((canvasW - CanvasPadding) / imageW, (canvasH - CanvasPadding) / imageH);
    MulMonotone(bs, (canvasW - CanvasPadding) / imageW, imageW);
    MulMonotone(bs, (canvasH - CanvasPadding) / imageH, imageH);
    var l := Layout(imageW, imageH, canvasW, canvasH, bs, zoomStep);
    Editor(l, UpdateScale(l, View(1.0, 1.0, Origin, Origin)), Shape(None, []), Pointer(NoDrag, false, Origin))
  }

  /** The user-visible events of the edit page. */
  datatype Event =
    | Press(at: Point)
    | Move(at: Point)
    | Release
    | Scroll(at: Point, deltaY: real)
    | ZoomInPressed
    | ZoomOutPressed
    | ResetZoomPressed
    | ResetPointsPressed
    | Detected(corners: Option<CropArea>)
    | StepChosen(step: real)

  /** One event; the zoom step slider only stores the chosen step. */
  function Step(e: Editor, ev: Event): Editor
    requires e.view.scale != 0.0 && e.layout.zoomStep != 0.0
  {
    match ev
    case Press(at) => MouseDown(e, at)
    case Move(at) => MouseMove(e, at)
    case Release => MouseUp(e)
    case Scroll(at, deltaY) => Wheel(e, at, deltaY)
    case ZoomInPressed => ZoomIn(e)
    case ZoomOutPressed => ZoomOut(e)
    case ResetZoomPressed => ResetZoom(e)
    case ResetPointsPressed => ResetPoints(e, true)
    case Detected(c) => ApplyDetection(e, c)
    case StepChosen(s) => e.(layout := e.layout.(zoomStep := s))
  }

  /** Positive image size and fit scale, and a zoom step of at least 1 (the slider offers 1.1 to 2.0). */
  predicate LayoutValid(l: Layout)
  {
    l.imageW > 0.0 && l.imageH > 0.0 && l.baseScale > 0.0 && l.zoomStep >= 1.0
  }

  /** A factor in [0.2, 5] and a fresh scale and offset. */
  predicate ViewValid(l: Layout, v: View)
  {
    MinZoomFactor <= v.zoomFactor <= MaxZoomFactor && ScaleFresh(l, v)
  }

  /** Midpoints that match the corners; before there are corners, no midpoints and no drag. */
  predicate ShapeValid(q: Shape, p: Pointer)
  {
    && (q.corners.Some? ==> q.edges == Midpoints(q.corners.value))
    && (q.corners.None? ==> q.edges == [] && p.drag.NoDrag?)
    && (p.drag.CornerDrag? || p.drag.EdgeDrag? ==> 0 <= p.drag.index < 4)
  }

  /** The editor invariant. */
  predicate Valid(e: Editor)
  {
    LayoutValid(e.layout) && ViewValid(e.layout, e.view) && ShapeValid(e.shape, e.pointer)
  }

  lemma ValidScalePositive(e: Editor)
    requires Valid(e)
    ensures e.view.scale > 0.0
  {
    MulStrict(0.0, e.view.zoomFactor, e.layout.baseScale);
  }

  /** A canvas larger than the 40 px padding and a step of at least 1 give a valid start. */
  lemma LoadedIsValid(imageW: real, imageH: real, canvasW: real, canvasH: real, zoomStep: real)
    requires imageW > 0.0 && imageH > 0.0 && canvasW > CanvasPadding && canvasH > CanvasPadding && zoomStep >= 1.0
    ensures Valid(Loaded(imageW, imageH, canvasW, canvasH, zoomStep))
  {
  }

  /** Zooming about any anchor to a factor in range keeps the invariant. */
  lemma ZoomAboutPreservesValid(e: Editor, anchor: Point, z: real)
    requires Valid(e) && MinZoomFactor <= z <= MaxZoomFactor
    ensures e.view.scale != 0.0
    ensures Valid(ZoomAbout(e, anchor, z))
  {
    ValidScalePositive(e);
  }

  /** Every event keeps the invariant, the slider's step taken from its range. */
  lemma {:induction false} StepPreservesValid(e: Editor, ev: Event)
    requires Valid(e)
    requires ev.StepChosen? ==> MinSliderStep <= ev.step <= MaxSliderStep
    ensures e.view.scale != 0.0 && e.layout.zoomStep != 0.0
    ensures Valid(Step(e, ev))
  {
    ValidScalePositive(e);
    match ev
    case Press(at) =>
    case Move(at) =>
    case Release =>
    case Scroll(at, deltaY) =>
      WheelFactorInRange(e.view.zoomFactor, e.layout.zoomStep, deltaY);
      var z := WheelFactor(e.view.zoomFactor, e.layout.zoomStep, deltaY);
      if z != e.view.zoomFactor {
        ZoomAboutPreservesValid(e, at, z);
      }
    case ZoomInPressed =>
      var z := e.view.zoomFactor * e.layout.zoomStep;
      if MinZoomFactor <= z <= MaxZoomFactor {
        ZoomAboutPreservesValid(e, CanvasCentre(e.layout), z);
      }
    case ZoomOutPressed =>
      var z := e.view.zoomFactor / e.layout.zoomStep;
      if MinZoomFactor <= z <= MaxZoomFactor {
        ZoomAboutPreservesValid(e, CanvasCentre(e.layout), z);
      }
    case ResetZoomPressed =>
    case ResetPointsPressed =>
    case Detected(c) =>
    case StepChosen(s) =>
  }
}
