/**
  The crop-submit conversion of frontend/src/components/PreviewModal.tsx: the crop
  area, stored in canvas coordinates, is pushed through the current zoom and offset,
  measured against the displayed image and turned into rounded, clamped image pixels.
  The same conversion feeds the preview request and the confirm request; the two
  asynchronous calls are parameters (their outcome is an input).
 */
module Preview {
  import opened Geometry
  import opened Wrappers
  import opened Store
  import opened CoordinateUtils
  import Magnifier

  /** The size the server reports for an image, in whole pixels. */
  datatype ImageInfo = ImageInfo(width: nat, height: nat)

  predicate ValidInfo(info: ImageInfo)
  {
    info.width > 0 && info.height > 0
  }

  /** The component's `viewState` prop: zoom and offset only. */
  datatype View = View(zoom: real, offset: Point)

  const DefaultCanvasWidth: real := 800.0
  const DefaultCanvasHeight: real := 600.0
  const DefaultView := View(1.0, Origin)

  /** `Math.max(lo, Math.min(hi, v))` on integers. */
  function IntClamp(v: int, lo: int, hi: int): (r: int)
    ensures lo <= hi ==> lo <= r <= hi
    ensures lo <= v <= hi ==> r == v
    ensures lo <= hi && v < lo ==> r == lo
    ensures lo <= hi && v > hi ==> r == hi
  {
    var m := if hi <= v then hi else v;
    if lo >= m then lo else m
  }

  /**
    One axis as the component computes it: the crop coordinate and the image origin are both
    pushed through zoom and offset, subtracted, divided by the displayed extent
    size * baseScale * zoom, and multiplied by the image size.
   */
  function AxisToPixel(pc: real, base: real, scale: real, zoom: real, offset: real, size: nat): real
    requires scale > 0.0 && zoom != 0.0 && size > 0
  {
    var actualCanvas := pc * zoom + offset;
    var actualDisplay := base * zoom + offset;
    var actualExtent := size as real * (scale * zoom);
    (actualCanvas - actualDisplay) / actualExtent * size as real
  }

  /** Zoom and offset cancel on one axis: the result is (pc - base) / scale. */
  lemma {:induction false} AxisZoomCancels(pc: real, base: real, scale: real, zoom: real, offset: real, size: nat)
    requires scale > 0.0 && zoom != 0.0 && size > 0
    ensures AxisToPixel(pc, base, scale, zoom, offset, size) == (pc - base) / scale
  {
    var d := pc - base;
    var n := size as real;
    var q := (d * zoom) / (n * (scale * zoom));
    assert (pc * zoom + offset) - (base * zoom + offset) == d * zoom;
    assert n * (scale * zoom) != 0.0;
    assert q * (n * (scale * zoom)) == d * zoom;
    assert (q * n * scale) * zoom == d * zoom;
    assert q * n * scale == d;
    assert q * n == d / scale;
  }

  /** One crop corner in image pixels: rounded first, then clamped into [0, width] x [0, height]. */
  function ConvertPoint(p: Point, cw: real, ch: real, info: ImageInfo, view: View): (r: IntPoint)
    requires cw > 0.0 && ch > 0.0 && ValidInfo(info) && view.zoom != 0.0
    ensures InImage(r, info.width, info.height)
  {
    var iw := info.width as real;
    var ih := info.height as real;
    var s := Magnifier.BaseScale(cw, ch, iw, ih);
    var o := Magnifier.BaseOrigin(cw, ch, iw, ih);
    IntPoint(IntClamp(Round(AxisToPixel(p.x, o.x, s, view.zoom, view.offset.x, info.width)), 0, info.width),
             IntClamp(Round(AxisToPixel(p.y, o.y, s, view.zoom, view.offset.y, info.height)), 0, info.height))
  }

  /**
    The corner list the component sends: exactly four points, TL, TR, BR, BL in that order,
    each an integer pair inside the image.
   */
  function ConvertCropArea(c: CropArea, cw: real, ch: real, info: ImageInfo, view: View): (r: seq<IntPoint>)
    requires cw > 0.0 && ch > 0.0 && ValidInfo(info) && view.zoom != 0.0
    ensures |r| == 4
    ensures forall i :: 0 <= i < 4 ==> r[i] == ConvertPoint(Corners(c)[i], cw, ch, info, view)
    ensures forall i :: 0 <= i < 4 ==> InImage(r[i], info.width, info.height)
    ensures ValidateCoordinates(r, info.width, info.height)
  {
    var pts := Corners(c);
    var r := [ConvertPoint(pts[0], cw, ch, info, view), ConvertPoint(pts[1], cw, ch, info, view),
              ConvertPoint(pts[2], cw, ch, info, view), ConvertPoint(pts[3], cw, ch, info, view)];
    assert forall i :: 0 <= i < 4 ==> InImage(r[i], info.width, info.height);
    r
  }

  /**
    Zoom and offset cancel: each corner is round((p - baseOrigin) / baseScale), clamped, whatever the
    view, so the request equals the one for the unzoomed, unpanned view.
   */
  lemma {:induction false} ConversionIgnoresView(c: CropArea, cw: real, ch: real, info: ImageInfo, view: View)
    requires cw > 0.0 && ch > 0.0 && ValidInfo(info) && view.zoom != 0.0
    ensures var iw := info.width as real;
      var ih := info.height as real;
      var s := Magnifier.BaseScale(cw, ch, iw, ih);
      var o := Magnifier.BaseOrigin(cw, ch, iw, ih);
      forall i :: 0 <= i < 4 ==>
        ConvertCropArea(c, cw, ch, info, view)[i]
        == IntPoint(IntClamp(Round((Corners(c)[i].x - o.x) / s), 0, info.width),
                    IntClamp(Round((Corners(c)[i].y - o.y) / s), 0, info.height))
    ensures ConvertCropArea(c, cw, ch, info, view) == ConvertCropArea(c, cw, ch, info, DefaultView)
  {
    var iw := info.width as real;
    var ih := info.height as real;
    var s := Magnifier.BaseScale(cw, ch, iw, ih);
    var o := Magnifier.BaseOrigin(cw, ch, iw, ih);
    forall i | 0 <= i < 4
      ensures ConvertPoint(Corners(c)[i], cw, ch, info, view) == ConvertPoint(Corners(c)[i], cw, ch, info, DefaultView)
      ensures ConvertPoint(Corners(c)[i], cw, ch, info, view)
              == IntPoint(IntClamp(Round((Corners(c)[i].x - o.x) / s), 0, info.width),
                          IntClamp(Round((Corners(c)[i].y - o.y) / s), 0, info.height))
    {
      var p := Corners(c)[i];
      AxisZoomCancels(p.x, o.x, s, view.zoom, view.offset.x, info.width);
      AxisZoomCancels(p.y, o.y, s, view.zoom, view.offset.y, info.height);
      AxisZoomCancels(p.x, o.x, s, 1.0, 0.0, info.width);
      AxisZoomCancels(p.y, o.y, s, 1.0, 0.0, info.height);
    }
  }

  /**
    When the canvas has the image's own size the fit scale is 1 with no margin, so a corner at
    whole-pixel coordinates inside the image is sent unchanged, under any view.
   */
  lemma {:induction false} NativeSizeIsIdentity(p: Point, info: ImageInfo, view: View, x: int, y: int)
    requires ValidInfo(info) && view.zoom != 0.0
    requires p == Point(x as real, y as real) && 0 <= x <= info.width && 0 <= y <= info.height
    ensures ConvertPoint(p, info.width as real, info.height as real, info, view) == IntPoint(x, y)
  {
    var iw := info.width as real;
    var ih := info.height as real;
    var s := Magnifier.BaseScale(iw, ih, iw, ih);
    var o := Magnifier.BaseOrigin(iw, ih, iw, ih);
    assert s == 1.0 by { DivCancel(1.0, iw); DivCancel(1.0, ih); }
    assert o == Origin;
    NativeAxisIsIdentity(x, o.x, s, view.zoom, view.offset.x, info.width);
    NativeAxisIsIdentity(y, o.y, s, view.zoom, view.offset.y, info.height);
  }

  /** On one axis with scale 1 and no margin, a whole-pixel coordinate inside [0, size] comes back as itself. */
  lemma NativeAxisIsIdentity(x: int, base: real, scale: real, zoom: real, offset: real, size: nat)
    requires base == 0.0 && scale == 1.0 && zoom != 0.0 && size > 0 && 0 <= x <= size
    ensures IntClamp(Round(AxisToPixel(x as real, base, scale, zoom, offset, size)), 0, size) == x
  {
    AxisZoomCancels(x as real, base, scale, zoom, offset, size);
    RoundOfInteger(x);
  }

  /** The default crop area of an 800x600 image on the default 800x600 canvas is sent as drawn. */
  lemma DefaultCropAreaScenario800x600(view: View)
    requires view.zoom != 0.0
    ensures ConvertCropArea(DefaultCropArea(800.0, 600.0), DefaultCanvasWidth, DefaultCanvasHeight, ImageInfo(800, 600), view)
      == [IntPoint(60, 60), IntPoint(740, 60), IntPoint(740, 540), IntPoint(60, 540)]
  {
    var c := DefaultCropArea(800.0, 600.0);
    var info := ImageInfo(800, 600);
    DefaultCropAreaScenario();
    NativeSizeIsIdentity(c.topLeft, info, view, 60, 60);
    NativeSizeIsIdentity(c.topRight, info, view, 740, 60);
    NativeSizeIsIdentity(c.bottomRight, info, view, 740, 540);
    NativeSizeIsIdentity(c.bottomLeft, info, view, 60, 540);
  }

  const PreviewFailedMessage := "预览生成失败"
  const CropFailedMessage := "裁剪失败"
  const ConfirmFailedMessage := "裁剪确认失败"

  /** The preview panel's own state: preview URL, whether the confirm step is shown, the fetched size. */
  datatype Panel = Panel(previewUrl: Option<string>, showConfirmation: bool, imageInfo: Option<ImageInfo>)

  const ClosedPanel := Panel(None, false, None)

  /** The panel and store after one run of the preview effect, and the corners sent, if any. */
  datatype PreviewRun = PreviewRun(panel: Panel, app: AppState, request: Option<seq<IntPoint>>)

  /**
    The preview effect. `fetched` is what getImageInfo resolved to (None: it rejected) and `url`
    what generatePreview resolved to (None: it rejected).
   */
  function GeneratePreview(panel: Panel, s: AppState, isOpen: bool, image: Option<ImageRecord>,
                           cw: real, ch: real, view: View, fetched: Option<ImageInfo>, url: Option<string>): (r: PreviewRun)
    requires cw > 0.0 && ch > 0.0 && view.zoom != 0.0
    requires fetched.Some? ==> ValidInfo(fetched.value)
    ensures !isOpen || image.None? || image.value.cropArea.None? ==> r == PreviewRun(ClosedPanel, s, None)
    ensures r.request.Some? <==> isOpen && image.Some? && image.value.cropArea.Some? && fetched.Some?
    ensures r.request.Some? ==>
      r.request.value == ConvertCropArea(image.value.cropArea.value, cw, ch, fetched.value, view)
      && r.panel.imageInfo == fetched
    ensures r.app == s || r.app == SetError(s, Some(PreviewFailedMessage))
    ensures r.request.Some? && url.Some? ==> r.panel == Panel(url, true, fetched) && r.app == s
    ensures r.request.Some? && url.None? ==> r.panel == panel.(imageInfo := fetched) && r.app.error == Some(PreviewFailedMessage)
    ensures isOpen && image.Some? && image.value.cropArea.Some? && fetched.None? ==>
      r.panel == panel && r.app.error == Some(PreviewFailedMessage)
  {
    if !isOpen || image.None? || image.value.cropArea.None? then PreviewRun(ClosedPanel, s, None)
    else if fetched.None? then PreviewRun(panel, SetError(s, Some(PreviewFailedMessage)), None)
    else
      var request := ConvertCropArea(image.value.cropArea.value, cw, ch, fetched.value, view);
      if url.Some? then PreviewRun(Panel(url, true, fetched), s, Some(request))
      else PreviewRun(panel.(imageInfo := fetched), SetError(s, Some(PreviewFailedMessage)), Some(request))
  }

  /** How the crop request ended: success, `success: false` with an optional message, or a rejection. */
  datatype CropResponse = CropSucceeded | CropFailed(message: Option<string>) | CropThrew

  /** The error text for a failed crop: the server's message unless it is missing or empty. */
  function FailureMessage(response: CropResponse): (m: string)
    ensures m != ""
    ensures response.CropFailed? && response.message.Some? && response.message.value != "" ==> m == response.message.value
    ensures response.CropThrew? ==> m == ConfirmFailedMessage
  {
    match response
    case CropFailed(Some(text)) => if text != "" then text else CropFailedMessage
    case CropFailed(None) => CropFailedMessage
    case _ => ConfirmFailedMessage
  }

  /** The store after handleConfirmCrop, the corners sent, and whether onClose was called. */
  datatype Confirmation = Confirmation(app: AppState, request: Option<seq<IntPoint>>, closed: bool)

  /**
    handleConfirmCrop: nothing happens without an image, a crop area and a fetched size; otherwise
    the converted corners are sent, and on success the image is marked completed and the modal
    closes, while on failure or rejection only the error is set.
   */
  function HandleConfirmCrop(s: AppState, image: Option<ImageRecord>, info: Option<ImageInfo>,
                             cw: real, ch: real, view: View, response: CropResponse): (r: Confirmation)
    requires cw > 0.0 && ch > 0.0 && view.zoom != 0.0
    requires info.Some? ==> ValidInfo(info.value)
    ensures image.None? || image.value.cropArea.None? || info.None? ==> r == Confirmation(s, None, false)
    ensures r.request.Some? <==> image.Some? && image.value.cropArea.Some? && info.Some?
    ensures r.request.Some? ==> r.request.value == ConvertCropArea(image.value.cropArea.value, cw, ch, info.value, view)
    ensures r.closed <==> r.request.Some? && response.CropSucceeded?
    ensures r.closed ==> r.app == UpdateImage(s, image.value.id, NoUpdate.(status := Some(Completed)))
    ensures r.request.Some? && !r.closed ==> r.app == SetError(s, Some(FailureMessage(response)))
  {
    if image.None? || image.value.cropArea.None? || info.None? then Confirmation(s, None, false)
    else
      var request := ConvertCropArea(image.value.cropArea.value, cw, ch, info.value, view);
      if response.CropSucceeded? then
        Confirmation(UpdateImage(s, image.value.id, NoUpdate.(status := Some(Completed))), Some(request), true)
      else Confirmation(SetError(s, Some(FailureMessage(response))), Some(request), false)
  }

  /**
    A confirm after a preview that fetched the image size sends exactly the corners the preview
    sent, as long as the view and canvas size have not changed.
   */
  lemma PreviewAndConfirmAgree(panel: Panel, s: AppState, t: AppState, image: Option<ImageRecord>,
                               cw: real, ch: real, view: View, info: ImageInfo, url: Option<string>, response: CropResponse)
    requires cw > 0.0 && ch > 0.0 && view.zoom != 0.0 && ValidInfo(info)
    requires image.Some? && image.value.cropArea.Some?
    ensures var run := GeneratePreview(panel, s, true, image, cw, ch, view, Some(info), url);
      && run.request.Some?
      && HandleConfirmCrop(t, image, run.panel.imageInfo, cw, ch, view, response).request == run.request
  {
  }

  /** A successful confirm marks the current image completed and changes nothing else in it. */
  lemma ConfirmMarksCurrentCompleted(s: AppState, image: ImageRecord, info: ImageInfo, cw: real, ch: real, view: View)
    requires cw > 0.0 && ch > 0.0 && view.zoom != 0.0 && ValidInfo(info)
    requires image.cropArea.Some? && s.currentImage == Some(image)
    ensures var r := HandleConfirmCrop(s, Some(image), Some(info), cw, ch, view, CropSucceeded);
      && r.closed
      && r.app.currentImage == Some(image.(status := Completed))
      && r.app.viewState == s.viewState && r.app.error == s.error
  {
    StatusOnlyUpdate(image, Completed);
  }
}
