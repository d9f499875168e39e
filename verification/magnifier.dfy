/**
  The corner magnifier of frontend/src/components/Magnifier.tsx: where the
  200x200 loupe sits next to the pointer, which window of the original image it
  shows at 4x, and where the selected corner's marker lands inside it.
 */
module Magnifier {
  import opened Geometry
  import opened Wrappers
  import CanvasView

  const LoupeSize: real := 200.0
  const LoupeZoom: real := 4.0
  const LoupeGap: real := 30.0

  /**
    The loupe's top-left corner: right of and above the pointer by default; flipped to the
    left when it would pass the window's right edge, and below when it would pass the top.
   */
  function LoupePosition(mouse: Point, innerWidth: real): (r: Point)
    ensures r.x == (if mouse.x + LoupeGap + LoupeSize > innerWidth then mouse.x - LoupeSize - LoupeGap else mouse.x + LoupeGap)
    ensures r.y == (if mouse.y - LoupeSize - LoupeGap < 0.0 then mouse.y + LoupeGap else mouse.y - LoupeSize - LoupeGap)
  {
    var x := mouse.x + LoupeGap;
    var y := mouse.y - LoupeSize - LoupeGap;
    var x' := if x + LoupeSize > innerWidth then mouse.x - LoupeSize - LoupeGap else x;
    var y' := if y < 0.0 then mouse.y + LoupeGap else y;
    Point(x', y')
  }

  /** The loupe never covers the pointer: it lies 30 px clear of it on both axes. */
  lemma LoupeClearsPointer(mouse: Point, innerWidth: real)
    ensures var p := LoupePosition(mouse, innerWidth);
      && (p.x >= mouse.x + LoupeGap || p.x + LoupeSize <= mouse.x - LoupeGap)
      && (p.y >= mouse.y + LoupeGap || p.y + LoupeSize <= mouse.y - LoupeGap)
  {
  }

  /** The x choice depends only on the window width and the y choice only on the pointer's height. */
  lemma LoupeAxesIndependent(m1: Point, m2: Point, w1: real, w2: real)
    ensures m1.x == m2.x ==> LoupePosition(m1, w1).x == LoupePosition(m2, w1).x
    ensures m1.y == m2.y ==> LoupePosition(m1, w1).y == LoupePosition(m2, w2).y
  {
  }

  /** The main canvas's aspect-fit scale for the image. */
  function BaseScale(cw: real, ch: real, iw: real, ih: real): (s: real)
    requires cw > 0.0 && ch > 0.0 && iw > 0.0 && ih > 0.0
    ensures s > 0.0
  {
    Min(cw / iw, ch / ih)
  }

  /** Where the fitted image's top-left corner sits on the main canvas before zoom and pan. */
  function BaseOrigin(cw: real, ch: real, iw: real, ih: real): Point
    requires cw > 0.0 && ch > 0.0 && iw > 0.0 && ih > 0.0
  {
    var s := BaseScale(cw, ch, iw, ih);
    Point((cw - iw * s) / 2.0, (ch - ih * s) / 2.0)
  }

  /**
    A canvas-space point in original-image pixels, computed as the component does: push the point
    and the image origin through zoom and offset, subtract, and divide by baseScale * zoom.
   */
  function ImagePosition(p: Point, cw: real, ch: real, iw: real, ih: real, zoom: real, offset: Point): Point
    requires cw > 0.0 && ch > 0.0 && iw > 0.0 && ih > 0.0 && zoom != 0.0
  {
    var s := BaseScale(cw, ch, iw, ih);
    var o := BaseOrigin(cw, ch, iw, ih);
    var actual := s * zoom;
    Point(((p.x * zoom + offset.x) - (o.x * zoom + offset.x)) / actual,
          ((p.y * zoom + offset.y) - (o.y * zoom + offset.y)) / actual)
  }

  /** Zoom and offset cancel: the image position only depends on the canvas point and the fit. */
  lemma {:induction false} ImagePositionIgnoresView(p: Point, cw: real, ch: real, iw: real, ih: real, zoom: real, offset: Point)
    requires cw > 0.0 && ch > 0.0 && iw > 0.0 && ih > 0.0 && zoom != 0.0
    ensures var s := BaseScale(cw, ch, iw, ih);
      var o := BaseOrigin(cw, ch, iw, ih);
      ImagePosition(p, cw, ch, iw, ih, zoom, offset) == Point((p.x - o.x) / s, (p.y - o.y) / s)
  {
    var s := BaseScale(cw, ch, iw, ih);
    var o := BaseOrigin(cw, ch, iw, ih);
    ZoomCancels(p.x, o.x, offset.x, s, zoom);
    ZoomCancels(p.y, o.y, offset.y, s, zoom);
  }

  /** On one axis, the difference of two zoomed and shifted positions divided by s * zoom. */
  lemma ZoomCancels(a: real, b: real, c: real, s: real, zoom: real)
    requires s != 0.0 && zoom != 0.0
    ensures ((a * zoom + c) - (b * zoom + c)) / (s * zoom) == (a - b) / s
  {
    calc {
      ((a * zoom + c) - (b * zoom + c)) / (s * zoom);
    == ((a - b) * zoom) / (s * zoom);
    == (a - b) / s;
    }
  }

  /** Half the side of the image window the loupe shows: 200 / (2 * 4 * baseScale). */
  function ZoomRadius(baseScale: real): (r: real)
    requires baseScale > 0.0
    ensures r > 0.0 && r * baseScale == 25.0
  {
    LoupeSize / (2.0 * LoupeZoom * baseScale)
  }

  /** The source window on one axis: start max(0, min(size - 2r, centre - r)), length min(size - start, 2r). */
  datatype Window = Window(x: real, y: real, width: real, height: real)

  function SourceStart(centre: real, size: real, radius: real): real
  {
    Max(0.0, Min(size - 2.0 * radius, centre - radius))
  }

  function SourceLength(start: real, size: real, radius: real): real
  {
    Min(size - start, 2.0 * radius)
  }

  function SourceWindow(centre: Point, iw: real, ih: real, radius: real): Window
  {
    var sx := SourceStart(centre.x, iw, radius);
    var sy := SourceStart(centre.y, ih, radius);
    Window(sx, sy, SourceLength(sx, iw, radius), SourceLength(sy, ih, radius))
  }

  /**
    The window starts inside the image, is at most 2r long and ends inside the image; it is exactly
    2r long when the image is at least that large, and never empty for a non-empty image.
   */
  lemma SourceWindowBounds(centre: Point, iw: real, ih: real, radius: real)
    requires iw > 0.0 && ih > 0.0 && radius > 0.0
    ensures var w := SourceWindow(centre, iw, ih, radius);
      && w.x >= 0.0 && w.y >= 0.0
      && w.width <= 2.0 * radius && w.height <= 2.0 * radius
      && w.x + w.width <= iw && w.y + w.height <= ih
      && (iw >= 2.0 * radius ==> w.width == 2.0 * radius)
      && (ih >= 2.0 * radius ==> w.height == 2.0 * radius)
      && w.width > 0.0 && w.height > 0.0
  {
  }

  /** The marker: a red dot at `at` inside the loupe, labelled with the corner number. */
  datatype Marker = Marker(at: Point, cornerNumber: int)

  /** What one render pass draws into the loupe after clearing it. */
  datatype Frame = Frame(source: Option<Window>, marker: Option<Marker>)

  predicate InWindow(p: Point, w: Window)
  {
    w.x <= p.x <= w.x + w.width && w.y <= p.y <= w.y + w.height
  }

  /** The selected corner's marker, when the corner exists and its image position lies in the window. */
  function CornerMarker(selected: Option<int>, crop: Option<CropArea>, w: Window,
                        cw: real, ch: real, iw: real, ih: real, zoom: real, offset: Point): (r: Option<Marker>)
    requires cw > 0.0 && ch > 0.0 && iw > 0.0 && ih > 0.0 && zoom != 0.0
    requires w.width > 0.0 && w.height > 0.0
    ensures r.Some? ==> selected.Some? && crop.Some? && 0 <= selected.value < 4
    ensures r.Some? ==> r.value.cornerNumber == selected.value + 1
    ensures r.Some? ==> 0.0 <= r.value.at.x <= LoupeSize && 0.0 <= r.value.at.y <= LoupeSize
    ensures selected.Some? && crop.Some? && 0 <= selected.value < 4 ==>
      (r.Some? <==> InWindow(ImagePosition(Corners(crop.value)[selected.value], cw, ch, iw, ih, zoom, offset), w))
  {
    if selected.None? || crop.None? || !(0 <= selected.value < 4) then None
    else
      var q := ImagePosition(Corners(crop.value)[selected.value], cw, ch, iw, ih, zoom, offset);
      if InWindow(q, w) then
        var at := Point((q.x - w.x) / w.width * LoupeSize, (q.y - w.y) / w.height * LoupeSize);
        MarkerInLoupe(q.x - w.x, w.width);
        MarkerInLoupe(q.y - w.y, w.height);
        Some(Marker(at, selected.value + 1))
      else None
  }

  /** A position inside a window of positive length maps into [0, 200]. */
  lemma MarkerInLoupe(d: real, len: real)
    requires len > 0.0 && 0.0 <= d <= len
    ensures 0.0 <= d / len * LoupeSize <= LoupeSize
  {
    var f := d / len;
    assert f * len == d;
    assert 0.0 <= f <= 1.0 by {
      if f > 1.0 { MulStrict(1.0, f, len); }
      if f < 0.0 { MulStrict(f, 0.0, len); }
    }
    MulMonotone(f, 1.0, LoupeSize);
    MulMonotone(0.0, f, LoupeSize);
  }

  /**
    The render effect. None: the loupe is hidden and draws nothing. Otherwise it is cleared and,
    when the main canvas and the image are available, shows the window around the pointer's
    image position and the marker of the selected corner. A missing main canvas or a failed
    load leaves it cleared. An out-of-range corner index throws inside the source's try block
    after the window is drawn, so no marker is drawn.
   */
  function RenderMagnifier(visible: bool, canvasPos: Point, mainCanvas: Option<(real, real)>,
                           load: CanvasView.LoadResult, selected: Option<int>, crop: Option<CropArea>,
                           zoom: real, offset: Point): (r: Option<Frame>)
    requires CanvasView.WellFormedLoad(load) && zoom != 0.0
    requires mainCanvas.Some? ==> mainCanvas.value.0 > 0.0 && mainCanvas.value.1 > 0.0
    ensures !visible <==> r.None?
    ensures visible && (load.LoadFailed? || mainCanvas.None?) ==> r == Some(Frame(None, None))
    ensures visible && load.Loaded? && mainCanvas.Some? ==>
      var cw := mainCanvas.value.0;
      var ch := mainCanvas.value.1;
      var centre := ImagePosition(canvasPos, cw, ch, load.width, load.height, zoom, offset);
      var w := SourceWindow(centre, load.width, load.height, ZoomRadius(BaseScale(cw, ch, load.width, load.height)));
      && r.Some? && r.value.source == Some(w)
      && r.value.marker == CornerMarker(selected, crop, w, cw, ch, load.width, load.height, zoom, offset)
  {
    if !visible then None
    else if load.LoadFailed? || mainCanvas.None? then Some(Frame(None, None))
    else
      var (cw, ch) := mainCanvas.value;
      var iw := load.width;
      var ih := load.height;
      var radius := ZoomRadius(BaseScale(cw, ch, iw, ih));
      var centre := ImagePosition(canvasPos, cw, ch, iw, ih, zoom, offset);
      var w := SourceWindow(centre, iw, ih, radius);
      SourceWindowBounds(centre, iw, ih, radius);
      // the image is drawn only when both sizes are positive, which the bounds lemma guarantees
      var source := if w.width > 0.0 && w.height > 0.0 then Some(w) else None;
      Some(Frame(source, CornerMarker(selected, crop, w, cw, ch, iw, ih, zoom, offset)))
  }

  /** Whatever zoom and pan the main canvas shows, the loupe shows the same frame. */
  lemma MagnifierIgnoresView(visible: bool, canvasPos: Point, mainCanvas: Option<(real, real)>,
                             load: CanvasView.LoadResult, selected: Option<int>, crop: Option<CropArea>,
                             z1: real, o1: Point, z2: real, o2: Point)
    requires CanvasView.WellFormedLoad(load) && z1 != 0.0 && z2 != 0.0
    requires mainCanvas.Some? ==> mainCanvas.value.0 > 0.0 && mainCanvas.value.1 > 0.0
    ensures RenderMagnifier(visible, canvasPos, mainCanvas, load, selected, crop, z1, o1)
         == RenderMagnifier(visible, canvasPos, mainCanvas, load, selected, crop, z2, o2)
  {
    if visible && load.Loaded? && mainCanvas.Some? {
      var (cw, ch) := mainCanvas.value;
      ImagePositionIgnoresView(canvasPos, cw, ch, load.width, load.height, z1, o1);
      ImagePositionIgnoresView(canvasPos, cw, ch, load.width, load.height, z2, o2);
      if selected.Some? && crop.Some? && 0 <= selected.value < 4 {
        var c := Corners(crop.value)[selected.value];
        ImagePositionIgnoresView(c, cw, ch, load.width, load.height, z1, o1);
        ImagePositionIgnoresView(c, cw, ch, load.width, load.height, z2, o2);
      }
    }
  }
}
