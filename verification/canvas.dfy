/**
  The editing canvas of frontend/src/components/Canvas.tsx: crop-area
  initialisation when an image without a crop area becomes current, the render
  pass as a draw-command list, the cursor choice, the zoom buttons and the
  selected-corner read-out. Image loading is asynchronous in the source; here
  its outcome is an input.
 */
module CanvasView {
  import opened Geometry
  import opened Wrappers
  import opened Store
  import opened ImageProcessing
  import CoordinateUtils
  import CoordinateTransform
  import Toolbar

  /** The outcome of loading the current image: its natural size, or a failure. */
  datatype LoadResult = Loaded(width: real, height: real) | LoadFailed

  predicate WellFormedLoad(load: LoadResult)
  {
    load.Loaded? ==> load.width > 0.0 && load.height > 0.0
  }

  const FallbackWidth: real := 800.0
  const FallbackHeight: real := 600.0

  /** `parent?.clientWidth || fallback`: a missing parent or a zero size falls back. */
  function ContainerExtent(client: Option<real>, fallback: real): (r: real)
    ensures client.Some? && client.value != 0.0 ==> r == client.value
    ensures client.None? || client.value == 0.0 ==> r == fallback
  {
    if client.Some? && client.value != 0.0 then client.value else fallback
  }

  /** The store after initialisation, and the canvas size it set (if it set one). */
  datatype Init = Init(app: AppState, canvasSize: Option<Size>)

  predicate NeedsCropArea(s: AppState)
  {
    s.currentImage.Some? && s.currentImage.value.cropArea.None?
  }

  /**
    The initialisation effect: only for a current image without a crop area. On a successful
    load the canvas becomes min(image, container) and the image gets the default crop area and
    status 'completed'; on failure it gets status 'error' and no crop area.
   */
  function InitializeCropArea(s: AppState, load: LoadResult, parentW: Option<real>, parentH: Option<real>): (r: Init)
    ensures !NeedsCropArea(s) ==> r == Init(s, None)
    ensures NeedsCropArea(s) && load.Loaded? ==>
      var cw := Min(load.width, ContainerExtent(parentW, FallbackWidth));
      var ch := Min(load.height, ContainerExtent(parentH, FallbackHeight));
      var id := s.currentImage.value.id;
      && r.canvasSize == Some(Size(cw, ch))
      && r.app.currentImage == Some(s.currentImage.value.(cropArea := Some(DefaultCropArea(cw, ch)), status := Completed))
      && r.app == UpdateImage(s, id, NoUpdate.(cropArea := Some(Some(DefaultCropArea(cw, ch))), status := Some(Completed)))
    ensures NeedsCropArea(s) && load.LoadFailed? ==>
      && r.canvasSize.None?
      && r.app.currentImage == Some(s.currentImage.value.(status := Error))
      && r.app == UpdateImage(s, s.currentImage.value.id, NoUpdate.(status := Some(Error)))
  {
    if s.currentImage.None? || s.currentImage.value.cropArea.Some? then Init(s, None)
    else
      var img := s.currentImage.value;
      match load
      case Loaded(iw, ih) =>
        var cw := Min(iw, ContainerExtent(parentW, FallbackWidth));
        var ch := Min(ih, ContainerExtent(parentH, FallbackHeight));
        var crop := DefaultCropArea(cw, ch);
        Init(UpdateImage(s, img.id, NoUpdate.(cropArea := Some(Some(crop)), status := Some(Completed))), Some(Size(cw, ch)))
      case LoadFailed =>
        Init(UpdateImage(s, img.id, NoUpdate.(status := Some(Error))), None)
  }

  /** A successful initialisation gives a valid crop area inside the canvas it sized. */
  lemma InitializedCropAreaFitsCanvas(s: AppState, iw: real, ih: real, parentW: Option<real>, parentH: Option<real>)
    requires NeedsCropArea(s) && iw > 0.0 && ih > 0.0
    requires parentW.Some? ==> parentW.value >= 0.0
    requires parentH.Some? ==> parentH.value >= 0.0
    ensures var r := InitializeCropArea(s, Loaded(iw, ih), parentW, parentH);
      && r.canvasSize.Some?
      && 0.0 < r.canvasSize.value.width <= iw && 0.0 < r.canvasSize.value.height <= ih
      && r.app.currentImage.Some? && r.app.currentImage.value.cropArea.Some?
      && DistinctCorners(r.app.currentImage.value.cropArea.value)
      && CropAreaInBox(r.app.currentImage.value.cropArea.value, r.canvasSize.value.width, r.canvasSize.value.height)
  {
    var cw := Min(iw, ContainerExtent(parentW, FallbackWidth));
    var ch := Min(ih, ContainerExtent(parentH, FallbackHeight));
    DefaultCropAreaIsValid(cw, ch);
  }

  /** Once a load has succeeded the effect has nothing left to do; after a failure it would run again. */
  lemma InitializeRunsOnce(s: AppState, first: LoadResult, second: LoadResult, parentW: Option<real>, parentH: Option<real>)
    requires NeedsCropArea(s)
    ensures var r := InitializeCropArea(s, first, parentW, parentH);
      && (first.Loaded? ==> InitializeCropArea(r.app, second, parentW, parentH) == Init(r.app, None))
      && (first.LoadFailed? ==> NeedsCropArea(r.app))
  {
  }

  const BackgroundColor: Color := "#f8f9fa"
  const ErrorColor: Color := "#ef4444"
  const ErrorMessage := "Error loading image"

  /** A point of the image layer after ctx.translate(offset) and then ctx.scale(zoom). */
  function TranslateThenScale(p: Point, zoom: real, offset: Point): Point
  {
    Point(offset.x + zoom * p.x, offset.y + zoom * p.y)
  }

  /** The image layer and the crop overlay use the same screen transform. */
  lemma ImageLayerMatchesOverlay(p: Point, zoom: real, offset: Point)
    ensures TranslateThenScale(p, zoom, offset) == OverlayPoint(p, zoom, offset)
  {
  }

  /**
    The render effect: clear, paint the background, then either draw the aspect-fit image under
    translate-then-scale followed by the crop overlay (when there is a crop area), or, when the
    image failed to load, the red error fill and the centred message.
   */
  function Render(s: AppState, cw: real, ch: real, load: LoadResult): (r: seq<DrawCommand>)
    requires WellFormedLoad(load)
    ensures s.currentImage.None? ==> r == []
    ensures s.currentImage.Some? ==>
      && |r| >= 3
      && r[0] == ClearRect(0.0, 0.0, cw, ch) && r[1] == FillRect(BackgroundColor, 0.0, 0.0, cw, ch)
    ensures s.currentImage.Some? && load.LoadFailed? ==>
      r[2..] == [FillRect(ErrorColor, 0.0, 0.0, cw, ch), Text(ErrorMessage, Point(cw / 2.0, ch / 2.0))]
    ensures s.currentImage.Some? && load.Loaded? ==>
      var b := CoordinateUtils.CalculateImageDisplayBounds(cw, ch, load.width, load.height);
      var z := s.viewState.zoom;
      var topLeft := TranslateThenScale(Point(b.x, b.y), z, s.viewState.offset);
      && r[2] == DrawImage(topLeft.x, topLeft.y, b.width * z, b.height * z)
      && (s.currentImage.value.cropArea.None? <==> |r| == 3)
      && (s.currentImage.value.cropArea.Some? ==>
            r[3..] == DrawCropArea(s.currentImage.value.cropArea.value, z, s.viewState.offset, s.viewState.selectedCorner, cw, ch))
  {
    if s.currentImage.None? then []
    else
      var img := s.currentImage.value;
      var v := s.viewState;
      var prefix := [ClearRect(0.0, 0.0, cw, ch), FillRect(BackgroundColor, 0.0, 0.0, cw, ch)];
      match load
      case LoadFailed =>
        prefix + [FillRect(ErrorColor, 0.0, 0.0, cw, ch), Text(ErrorMessage, Point(cw / 2.0, ch / 2.0))]
      case Loaded(iw, ih) =>
        var scale := Min(cw / iw, ch / ih);
        var imgW := iw * scale;
        var imgH := ih * scale;
        var imgX := (cw - imgW) / 2.0;
        var imgY := (ch - imgH) / 2.0;
        // ctx.translate(offset); ctx.scale(zoom); ctx.drawImage(img, imgX, imgY, imgW, imgH)
        var image := DrawImage(v.offset.x + v.zoom * imgX, v.offset.y + v.zoom * imgY, imgW * v.zoom, imgH * v.zoom);
        assert CoordinateUtils.CalculateImageDisplayBounds(cw, ch, iw, ih)
          == CoordinateTransform.DisplayInfo(imgX, imgY, imgW, imgH, scale);
        assert image == DrawImage(TranslateThenScale(Point(imgX, imgY), v.zoom, v.offset).x,
          TranslateThenScale(Point(imgX, imgY), v.zoom, v.offset).y, imgW * v.zoom, imgH * v.zoom);
        var overlay := if img.cropArea.Some? then DrawCropArea(img.cropArea.value, v.zoom, v.offset, v.selectedCorner, cw, ch) else [];
        prefix + [image] + overlay
  }

  /** At zoom 1 with no pan the image is drawn exactly on the fit rectangle, inside the canvas. */
  lemma UnzoomedImageFitsCanvas(s: AppState, cw: real, ch: real, iw: real, ih: real)
    requires s.currentImage.Some? && s.viewState.zoom == 1.0 && s.viewState.offset == Origin
    requires iw > 0.0 && ih > 0.0
    ensures var cmd := Render(s, cw, ch, Loaded(iw, ih))[2];
      && cmd.DrawImage?
      && 0.0 <= cmd.x && cmd.x + cmd.w <= cw && 0.0 <= cmd.y && cmd.y + cmd.h <= ch
  {
    var b := CoordinateUtils.CalculateImageDisplayBounds(cw, ch, iw, ih);
    assert 0.0 <= b.x && b.x + b.width <= cw && 0.0 <= b.y && b.y + b.height <= ch by {
      CoordinateUtils.DisplayBoundsIsUnzoomedDisplayInfo(cw, ch, iw, ih);
      CoordinateTransform.DisplayInfoFitsCanvas(cw, ch, iw, ih);
    }
    assert TranslateThenScale(Point(b.x, b.y), 1.0, Origin) == Point(b.x, b.y);
    assert b.width * 1.0 == b.width && b.height * 1.0 == b.height;
    assert Render(s, cw, ch, Loaded(iw, ih))[2] == DrawImage(b.x, b.y, b.width, b.height);
  }

  /** The canvas cursor: grabbing while dragging, crosshair with a selected corner, grab otherwise. */
  function Cursor(v: ViewState): (c: string)
    ensures v.isDragging <==> c == "grabbing"
    ensures c == "crosshair" <==> !v.isDragging && v.selectedCorner.Some?
    ensures c == "grab" <==> !v.isDragging && v.selectedCorner.None?
  {
    if v.isDragging then "grabbing" else if v.selectedCorner.Some? then "crosshair" else "grab"
  }

  const ButtonZoomStep: real := 0.25

  /** The canvas "+" button: min(5, zoom + 0.25). */
  function ButtonZoomIn(s: AppState): (r: AppState)
    ensures r == SetZoom(s, r.viewState.zoom)
    ensures r.viewState.zoom <= Toolbar.MaxZoom
    ensures s.viewState.zoom + ButtonZoomStep <= Toolbar.MaxZoom ==> r.viewState.zoom == s.viewState.zoom + ButtonZoomStep
    ensures s.viewState.zoom + ButtonZoomStep >= Toolbar.MaxZoom ==> r.viewState.zoom == Toolbar.MaxZoom
  {
    SetZoom(s, Min(Toolbar.MaxZoom, s.viewState.zoom + ButtonZoomStep))
  }

  /** The canvas "-" button: max(0.1, zoom - 0.25). */
  function ButtonZoomOut(s: AppState): (r: AppState)
    ensures r == SetZoom(s, r.viewState.zoom)
    ensures r.viewState.zoom >= Toolbar.MinZoom
    ensures s.viewState.zoom - ButtonZoomStep >= Toolbar.MinZoom ==> r.viewState.zoom == s.viewState.zoom - ButtonZoomStep
    ensures s.viewState.zoom - ButtonZoomStep <= Toolbar.MinZoom ==> r.viewState.zoom == Toolbar.MinZoom
  {
    SetZoom(s, Max(Toolbar.MinZoom, s.viewState.zoom - ButtonZoomStep))
  }

  /** The canvas buttons are the toolbar buttons with a fixed step of 0.25. */
  lemma ButtonsAreToolbarWithQuarterStep(s: AppState)
    requires s.settings.zoomStep == ButtonZoomStep
    ensures ButtonZoomIn(s) == Toolbar.ZoomIn(s) && ButtonZoomOut(s) == Toolbar.ZoomOut(s)
  {
  }

  /** The corner read-out: nothing, "Corner k" with rounded coordinates, or a render fault. */
  datatype CornerInfo = NoInfo | Info(cornerNumber: int, x: int, y: int) | LookupFault

  /** Both a selected corner and a current image with a crop area: the read-out is shown. */
  predicate ShowsReadout(s: AppState)
  {
    s.viewState.selectedCorner.Some? && s.currentImage.Some? && s.currentImage.value.cropArea.Some?
  }

  /** Math.round of both coordinates. */
  function RoundPoint(p: Point): (r: (int, int))
    ensures p.x - 0.5 < r.0 as real <= p.x + 0.5 && p.y - 0.5 < r.1 as real <= p.y + 0.5
  {
    (Round(p.x), Round(p.y))
  }

  /**
    Shown only with both a selection and a crop area; the label is index + 1 and the
    coordinates are those of corner index in TL, TR, BR, BL order, rounded. An index outside
    0..3 reads an undefined corner, which throws during rendering in the source.
   */
  function CornerReadout(s: AppState): (r: CornerInfo)
    ensures !ShowsReadout(s) ==> r == NoInfo
    ensures ShowsReadout(s) && 0 <= s.viewState.selectedCorner.value < 4 ==>
      var i := s.viewState.selectedCorner.value;
      var p := Corners(s.currentImage.value.cropArea.value)[i];
      && r.Info? && r.cornerNumber == i + 1
      && p.x - 0.5 < r.x as real <= p.x + 0.5 && p.y - 0.5 < r.y as real <= p.y + 0.5
    ensures ShowsReadout(s) && !(0 <= s.viewState.selectedCorner.value < 4) ==> r == LookupFault
  {
    if !ShowsReadout(s) then NoInfo
    else
      var i := s.viewState.selectedCorner.value;
      if 0 <= i < 4 then
        var xy := RoundPoint(Corners(s.currentImage.value.cropArea.value)[i]);
        Info(i + 1, xy.0, xy.1)
      else LookupFault
  }
}
