/**
  The pointer and wheel handling of frontend/src/hooks/useCanvasInteraction.ts
  as one state machine: Step(machine, event) -> machine. The machine holds the
  store state, the canvas element (size and page origin, absent when it is not
  mounted) and the hook's three refs. The zoom buttons of the toolbar and of the
  canvas are further events of the same machine. Each event is assumed to see
  the store state left by the previous one.
 */
module Interaction {
  import opened Geometry
  import opened Wrappers
  import opened Store
  import Toolbar
  import CanvasView

  /** The canvas element: its drawing size and its bounding rectangle's origin on the page. */
  datatype CanvasElement = CanvasElement(width: real, height: real, rect: Rect)

  datatype Machine = Machine(
    app: AppState,
    canvas: Option<CanvasElement>,
    dragging: bool,        // isDraggingRef
    lastMouse: Point,      // lastMousePosRef
    dragStartOffset: Point) // dragStartOffsetRef

  datatype Event =
    | MouseDown(at: Point)
    | MouseMove(at: Point)
    | MouseUp
    | Wheel(at: Point, deltaY: real)
    | ToolbarZoomIn
    | ToolbarZoomOut
    | ButtonZoomIn
    | ButtonZoomOut
    | ResetViewPressed

  function Initial(app: AppState, canvas: Option<CanvasElement>): Machine
  {
    Machine(app, canvas, false, Origin, Origin)
  }

  /** The hit radius in screen pixels; the hook divides it by zoom to get canvas units. */
  const HitRadius: real := 15.0

  /** getCropAreaPoints: the four corners of the current crop area, or none. */
  function CropAreaPoints(s: AppState): (r: seq<Point>)
    ensures s.currentImage.None? || s.currentImage.value.cropArea.None? ==> r == []
    ensures s.currentImage.Some? && s.currentImage.value.cropArea.Some? ==> r == Corners(s.currentImage.value.cropArea.value)
  {
    if s.currentImage.None? || s.currentImage.value.cropArea.None? then []
    else Corners(s.currentImage.value.cropArea.value)
  }

  /** The first index from k on whose point is within the threshold of pos (the loop with `break`). */
  function FirstHitFrom(pos: Point, pts: seq<Point>, threshold: real, k: nat): (r: Option<nat>)
    requires k <= |pts|
    ensures r.Some? ==> k <= r.value < |pts| && IsPointNear(pos, pts[r.value], threshold)
    ensures r.Some? ==> forall j :: k <= j < r.value ==> !IsPointNear(pos, pts[j], threshold)
    ensures r.None? ==> forall j :: k <= j < |pts| ==> !IsPointNear(pos, pts[j], threshold)
    decreases |pts| - k
  {
    if k == |pts| then None
    else if IsPointNear(pos, pts[k], threshold) then Some(k)
    else FirstHitFrom(pos, pts, threshold, k + 1)
  }

  function FirstHit(pos: Point, pts: seq<Point>, threshold: real): (r: Option<nat>)
    ensures r.Some? ==> r.value < |pts| && IsPointNear(pos, pts[r.value], threshold)
    ensures r.Some? ==> forall j :: 0 <= j < r.value ==> !IsPointNear(pos, pts[j], threshold)
    ensures r.None? <==> forall j :: 0 <= j < |pts| ==> !IsPointNear(pos, pts[j], threshold)
  {
    FirstHitFrom(pos, pts, threshold, 0)
  }

  /** canvasToScreen scales squared distances by zoom^2. */
  lemma {:induction false} ScreenDistanceScales(a: Point, b: Point, rect: Rect, zoom: real, offset: Point)
    ensures SquaredDistance(CanvasToScreen(a, rect, zoom, offset), CanvasToScreen(b, rect, zoom, offset))
      == zoom * zoom * SquaredDistance(a, b)
  {
    var dx := b.x - a.x;
    var dy := b.y - a.y;
    var sa := CanvasToScreen(a, rect, zoom, offset);
    var sb := CanvasToScreen(b, rect, zoom, offset);
    assert sb.x - sa.x == dx * zoom;
    assert sb.y - sa.y == dy * zoom;
    calc {
      SquaredDistance(sa, sb);
    == (dx * zoom) * (dx * zoom) + (dy * zoom) * (dy * zoom);
    == zoom * zoom * (dx * dx) + zoom * zoom * (dy * dy);
    == zoom * zoom * (dx * dx + dy * dy);
    }
  }

  /**
    The hit radius is constant on screen: for zoom > 0 the canvas-space test against 15/zoom
    accepts a corner iff the pointer is within 15 screen pixels of where the corner is drawn.
   */
  lemma {:induction false} HitRadiusIsScreenConstant(s: Point, corner: Point, rect: Rect, zoom: real, offset: Point)
    requires zoom > 0.0
    ensures IsPointNear(ScreenToCanvas(s, rect, zoom, offset), corner, HitRadius / zoom)
        <==> IsPointNear(s, CanvasToScreen(corner, rect, zoom, offset), HitRadius)
  {
    var a := ScreenToCanvas(s, rect, zoom, offset);
    ScreenCanvasRoundTrip(s, corner, rect, zoom, offset);
    ScreenDistanceScales(a, corner, rect, zoom, offset);
    var t := HitRadius / zoom;
    var z2 := zoom * zoom;
    assert z2 > 0.0 by { MulStrict(0.0, zoom, zoom); }
    assert t * zoom == HitRadius;
    assert t * t * z2 == HitRadius * HitRadius by {
      calc {
        t * t * z2;
      == (t * zoom) * (t * zoom);
      == HitRadius * HitRadius;
      }
    }
    ScaledThreshold(SquaredDistance(a, corner), t * t, z2, HitRadius * HitRadius);
  }

  /** Scaling both sides of d <= u by the same positive factor keeps the comparison. */
  lemma ScaledThreshold(d: real, u: real, k: real, v: real)
    requires k > 0.0 && u * k == v
    ensures d <= u <==> k * d <= v
  {
    if d <= u {
      MulMonotone(d, u, k);
    } else {
      MulStrict(u, d, k);
    }
  }

  /** handleMouseDown: hit-test the corners, then start a corner drag or a pan. */
  function MouseDownStep(m: Machine, at: Point): (r: Machine)
    requires m.app.viewState.zoom != 0.0
    ensures m.canvas.None? || m.app.currentImage.None? ==> r == m
    ensures m.canvas.Some? && m.app.currentImage.Some? ==>
      var v := m.app.viewState;
      var pos := ScreenToCanvas(at, m.canvas.value.rect, v.zoom, v.offset);
      var hit := FirstHit(pos, CropAreaPoints(m.app), HitRadius / v.zoom);
      && r.dragging && r.app.viewState.isDragging
      && OnlyViewChanged(m.app, r.app)
      && r.app.viewState.zoom == v.zoom && r.app.viewState.offset == v.offset
      && r.app.viewState.isEditing == v.isEditing
      && (hit.Some? ==> r.app.viewState.selectedCorner == Some(hit.value as int)
                        && r.lastMouse == pos && r.dragStartOffset == m.dragStartOffset)
      && (hit.None? ==> r.app.viewState.selectedCorner.None?
                        && r.lastMouse == at && r.dragStartOffset == v.offset)
  {
    if m.canvas.None? || m.app.currentImage.None? then m
    else
      var v := m.app.viewState;
      var pos := ScreenToCanvas(at, m.canvas.value.rect, v.zoom, v.offset);
      match FirstHit(pos, CropAreaPoints(m.app), HitRadius / v.zoom)
      case Some(i) =>
        m.(app := SetIsDragging(SetSelectedCorner(m.app, Some(i as int)), true), dragging := true, lastMouse := pos)
      case None =>
        m.(app := SetIsDragging(SetSelectedCorner(m.app, None), true), dragging := true,
           lastMouse := at, dragStartOffset := v.offset)
  }

  /**
    updateCropAreaPoint: clamp the point to the canvas, write it into corner `index` of the
    current crop area (or of the default one when there is none) and store it with updateImage.
    An index outside 0..3 writes no corner, but the crop area is still stored.
   */
  function UpdateCropAreaPoint(s: AppState, canvas: CanvasElement, index: int, p: Point): (r: AppState)
    ensures s.currentImage.None? ==> r == s
    ensures s.currentImage.Some? ==>
      var base := if s.currentImage.value.cropArea.Some? then s.currentImage.value.cropArea.value
                  else DefaultCropArea(canvas.width, canvas.height);
      var q := ConstrainPoint(p, canvas.width, canvas.height);
      var crop := if 0 <= index < 4 then WithCorner(base, index, q) else base;
      r == UpdateImage(s, s.currentImage.value.id, NoUpdate.(cropArea := Some(Some(crop))))
  {
    if s.currentImage.None? then s
    else
      var img := s.currentImage.value;
      var q := ConstrainPoint(p, canvas.width, canvas.height);
      var base := if img.cropArea.Some? then img.cropArea.value else DefaultCropArea(canvas.width, canvas.height);
      var crop := if 0 <= index < 4 then WithCorner(base, index, q) else base;
      UpdateImage(s, img.id, NoUpdate.(cropArea := Some(Some(crop))))
  }

  /** handleMouseMove: drag the selected corner, or pan by the pointer's travel since mouse-down. */
  function MouseMoveStep(m: Machine, at: Point): (r: Machine)
    requires m.app.viewState.zoom != 0.0
    ensures !m.dragging || m.canvas.None? ==> r == m
    ensures m.dragging && m.canvas.Some? && m.app.viewState.selectedCorner.None? ==>
      r == m.(app := SetOffset(m.app, Add(m.dragStartOffset, Sub(at, m.lastMouse))))
    ensures m.dragging && m.canvas.Some? && m.app.viewState.selectedCorner.Some? ==>
      var v := m.app.viewState;
      r == m.(app := UpdateCropAreaPoint(m.app, m.canvas.value, v.selectedCorner.value,
                                         ScreenToCanvas(at, m.canvas.value.rect, v.zoom, v.offset)))
  {
    if !m.dragging || m.canvas.None? then m
    else
      var v := m.app.viewState;
      if v.selectedCorner.Some? then
        var pos := ScreenToCanvas(at, m.canvas.value.rect, v.zoom, v.offset);
        m.(app := UpdateCropAreaPoint(m.app, m.canvas.value, v.selectedCorner.value, pos))
      else
        var delta := Point(at.x - m.lastMouse.x, at.y - m.lastMouse.y);
        m.(app := SetOffset(m.app, Point(m.dragStartOffset.x + delta.x, m.dragStartOffset.y + delta.y)))
  }

  /** handleMouseUp: end any drag or pan; nothing happens when none is active. */
  function MouseUpStep(m: Machine): (r: Machine)
    ensures !m.dragging ==> r == m
    ensures m.dragging ==> !r.dragging && !r.app.viewState.isDragging && r.app.viewState.selectedCorner.None?
    ensures m.dragging ==> (OnlyViewChanged(m.app, r.app) && r.app.viewState.zoom == m.app.viewState.zoom
                            && r.app.viewState.offset == m.app.viewState.offset)
  {
    if m.dragging then m.(app := SetSelectedCorner(SetIsDragging(m.app, false), None), dragging := false)
    else m
  }

  /** The wheel's zoom factor: out (0.9) for deltaY > 0, in (1.1) otherwise, including deltaY = 0. */
  function WheelFactor(deltaY: real): real
  {
    if deltaY > 0.0 then 0.9 else 1.1
  }

  /** clamp(zoom * factor) into [0.1, 5] */
  function WheelZoom(zoom: real, deltaY: real): (z: real)
    ensures Toolbar.ZoomInRange(z)
  {
    Max(Toolbar.MinZoom, Min(Toolbar.MaxZoom, zoom * WheelFactor(deltaY)))
  }

  /** The offset that keeps the screen point under the cursor fixed when zoom goes to newZoom. */
  function WheelOffset(at: Point, rect: Rect, zoom: real, newZoom: real, offset: Point): Point
    requires zoom != 0.0
  {
    var ratio := newZoom / zoom;
    Point(at.x - rect.left - (at.x - rect.left - offset.x) * ratio,
          at.y - rect.top - (at.y - rect.top - offset.y) * ratio)
  }

  /** handleWheel: set the clamped zoom, then the cursor-anchored offset. */
  function WheelStep(m: Machine, at: Point, deltaY: real): (r: Machine)
    requires m.app.viewState.zoom != 0.0
    ensures m.canvas.None? ==> r == m
    ensures m.canvas.Some? ==>
      var v := m.app.viewState;
      var z := WheelZoom(v.zoom, deltaY);
      && r == m.(app := SetOffset(SetZoom(m.app, z), WheelOffset(at, m.canvas.value.rect, v.zoom, z, v.offset)))
      && Toolbar.ZoomInRange(r.app.viewState.zoom)
  {
    if m.canvas.None? then m
    else
      var v := m.app.viewState;
      var z := WheelZoom(v.zoom, deltaY);
      m.(app := SetOffset(SetZoom(m.app, z), WheelOffset(at, m.canvas.value.rect, v.zoom, z, v.offset)))
  }

  /** The canvas point under the cursor before the wheel event is under the cursor afterwards. */
  lemma {:induction false} WheelKeepsCursorFixed(at: Point, rect: Rect, zoom: real, offset: Point, deltaY: real)
    requires zoom != 0.0
    ensures var z := WheelZoom(zoom, deltaY);
      CanvasToScreen(ScreenToCanvas(at, rect, zoom, offset), rect, z, WheelOffset(at, rect, zoom, z, offset)) == at
  {
    var z := WheelZoom(zoom, deltaY);
    var ratio := z / zoom;
    var c := ScreenToCanvas(at, rect, zoom, offset);
    var ax := at.x - rect.left - offset.x;
    var ay := at.y - rect.top - offset.y;
    assert c.x * z == ax * ratio by {
      calc {
        c.x * z;
      == ax / zoom * z;
      == ax * (z / zoom);
      }
    }
    assert c.y * z == ay * ratio by {
      calc {
        c.y * z;
      == ay / zoom * z;
      == ay * (z / zoom);
      }
    }
  }

  /** A wheel event with deltaY = 0 zooms in; any wheel event leaves zoom in [0.1, 5]. */
  lemma WheelDirection(zoom: real)
    requires Toolbar.ZoomInRange(zoom)
    ensures WheelZoom(zoom, 0.0) >= zoom
    ensures forall d: real :: d > 0.0 ==> WheelZoom(zoom, d) <= zoom
  {
  }

  /** One event of the machine. */
  function Step(m: Machine, e: Event): (r: Machine)
    requires m.app.viewState.zoom != 0.0
  {
    match e
    case MouseDown(at) => MouseDownStep(m, at)
    case MouseMove(at) => MouseMoveStep(m, at)
    case MouseUp => MouseUpStep(m)
    case Wheel(at, deltaY) => WheelStep(m, at, deltaY)
    case ToolbarZoomIn => m.(app := Toolbar.ZoomIn(m.app))
    case ToolbarZoomOut => m.(app := Toolbar.ZoomOut(m.app))
    case ButtonZoomIn => m.(app := CanvasView.ButtonZoomIn(m.app))
    case ButtonZoomOut => m.(app := CanvasView.ButtonZoomOut(m.app))
    case ResetViewPressed => m.(app := ResetView(m.app))
  }

  /** A pan sets the offset from the mouse-down state alone: intermediate moves leave no trace. */
  lemma PanForgetsIntermediateMoves(m: Machine, p1: Point, p2: Point)
    requires m.app.viewState.zoom != 0.0
    requires m.dragging && m.canvas.Some? && m.app.viewState.selectedCorner.None?
    ensures Step(Step(m, MouseMove(p1)), MouseMove(p2)) == Step(m, MouseMove(p2))
    ensures Step(m, MouseMove(p2)).app.viewState.offset == Add(m.dragStartOffset, Sub(p2, m.lastMouse))
    ensures Step(m, MouseMove(p2)).app.currentImage == m.app.currentImage
    ensures Step(m, MouseMove(p2)).app.images == m.app.images
  {
  }

  /** A pan started by mouse-down follows the pointer exactly, in screen pixels, whatever the zoom. */
  lemma PanFollowsPointer(m: Machine, down: Point, move: Point)
    requires m.app.viewState.zoom != 0.0 && m.canvas.Some? && m.app.currentImage.Some?
    requires FirstHit(ScreenToCanvas(down, m.canvas.value.rect, m.app.viewState.zoom, m.app.viewState.offset),
                      CropAreaPoints(m.app), HitRadius / m.app.viewState.zoom).None?
    ensures Step(Step(m, MouseDown(down)), MouseMove(move)).app.viewState.offset
      == Add(m.app.viewState.offset, Sub(move, down))
  {
  }

  /** A corner drag writes the clamped pointer position into the selected corner and no other. */
  lemma CornerDragWritesOneCorner(m: Machine, at: Point)
    requires m.app.viewState.zoom != 0.0 && m.dragging && m.canvas.Some?
    requires m.app.viewState.selectedCorner.Some? && 0 <= m.app.viewState.selectedCorner.value < 4
    requires m.app.currentImage.Some? && m.app.currentImage.value.cropArea.Some?
    ensures var r := Step(m, MouseMove(at));
      var i := m.app.viewState.selectedCorner.value;
      var v := m.app.viewState;
      var cv := m.canvas.value;
      var before := m.app.currentImage.value.cropArea.value;
      && r.app.currentImage.Some? && r.app.currentImage.value.cropArea.Some?
      && Corners(r.app.currentImage.value.cropArea.value)[i]
           == ConstrainPoint(ScreenToCanvas(at, cv.rect, v.zoom, v.offset), cv.width, cv.height)
      && (forall j :: 0 <= j < 4 && j != i ==> Corners(r.app.currentImage.value.cropArea.value)[j] == Corners(before)[j])
      && r.app.viewState == v
      && r.app.currentImage.value.(cropArea := m.app.currentImage.value.cropArea) == m.app.currentImage.value
  {
  }

  /** Moving the pointer with no drag or pan active changes nothing. */
  lemma IdleMoveIsNoOp(m: Machine, at: Point)
    requires m.app.viewState.zoom != 0.0 && !m.dragging
    ensures Step(m, MouseMove(at)) == m
  {
  }

  /** Pressing on a corner handle selects it; the cursor turns to grabbing; releasing ends the drag. */
  lemma PressAndRelease(m: Machine, at: Point)
    requires m.app.viewState.zoom != 0.0 && m.canvas.Some? && m.app.currentImage.Some?
    ensures var down := Step(m, MouseDown(at));
      && CanvasView.Cursor(down.app.viewState) == "grabbing"
      && CanvasView.Cursor(Step(down, MouseUp).app.viewState) == "grab"
      && !Step(down, MouseUp).dragging
  {
  }

  /** The invariant the machine keeps. */
  predicate Valid(m: Machine)
  {
    && Toolbar.ZoomInRange(m.app.viewState.zoom)
    && m.app.settings.zoomStep >= 0.0
    && (m.canvas.Some? ==> m.canvas.value.width > 0.0 && m.canvas.value.height > 0.0)
    && (m.canvas.Some? && m.app.currentImage.Some? && m.app.currentImage.value.cropArea.Some? ==>
          CropAreaInBox(m.app.currentImage.value.cropArea.value, m.canvas.value.width, m.canvas.value.height))
  }

  /** Corner writes keep a crop area that was inside the canvas inside it. */
  lemma UpdateKeepsCropInCanvas(s: AppState, canvas: CanvasElement, index: int, p: Point)
    requires canvas.width > 0.0 && canvas.height > 0.0
    requires s.currentImage.Some? && s.currentImage.value.cropArea.Some? ==>
      CropAreaInBox(s.currentImage.value.cropArea.value, canvas.width, canvas.height)
    ensures var r := UpdateCropAreaPoint(s, canvas, index, p);
      r.currentImage.Some? && r.currentImage.value.cropArea.Some? ==>
        CropAreaInBox(r.currentImage.value.cropArea.value, canvas.width, canvas.height)
  {
    DefaultCropAreaIsValid(canvas.width, canvas.height);
  }

  /** Every event keeps zoom in [0.1, 5] and the crop area inside the canvas. */
  lemma StepPreservesValid(m: Machine, e: Event)
    requires Valid(m)
    ensures Valid(Step(m, e))
  {
    match e
    case MouseMove(at) =>
      if m.dragging && m.canvas.Some? && m.app.viewState.selectedCorner.Some? {
        var v := m.app.viewState;
        UpdateKeepsCropInCanvas(m.app, m.canvas.value, v.selectedCorner.value,
                                ScreenToCanvas(at, m.canvas.value.rect, v.zoom, v.offset));
      }
    case ToolbarZoomIn => Toolbar.ToolbarZoomStaysInRange(m.app);
    case ToolbarZoomOut => Toolbar.ToolbarZoomStaysInRange(m.app);
    case _ =>
  }

  /** The store's isDragging flag mirrors the hook's ref, except when the view is reset mid-drag. */
  lemma StepMirrorsDragFlag(m: Machine, e: Event)
    requires m.app.viewState.zoom != 0.0 && m.dragging == m.app.viewState.isDragging
    requires e.ResetViewPressed? ==> !m.dragging
    ensures Step(m, e).dragging == Step(m, e).app.viewState.isDragging
  {
  }

  /** Resetting the view in the middle of a drag clears the store flag but not the ref: moves keep dragging. */
  lemma ResetMidDragLeavesRefSet(m: Machine)
    requires m.app.viewState.zoom != 0.0 && m.dragging
    ensures Step(m, ResetViewPressed).dragging && !Step(m, ResetViewPressed).app.viewState.isDragging
  {
  }
}
