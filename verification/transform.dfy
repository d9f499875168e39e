/**
  The aspect-fit display rectangle and the canvas <-> image-pixel maps of
  frontend/src/utils/coordinateTransform.ts. This helper zooms about the canvas
  centre: x = (cw - iw*scale*zoom)/2 + offset.x.
 */
module CoordinateTransform {
  import opened Geometry

  /** Where the image is drawn inside the canvas, and at which scale. */
  datatype DisplayInfo = DisplayInfo(x: real, y: real, width: real, height: real, scale: real)

  /** The aspect-fit scale min(cw/iw, ch/ih). */
  function FitScale(cw: real, ch: real, iw: real, ih: real): (s: real)
    requires iw > 0.0 && ih > 0.0
    ensures s * iw <= cw && s * ih <= ch
    ensures s * iw == cw || s * ih == ch
  {
    var sx := cw / iw;
    var sy := ch / ih;
    assert sx * iw == cw && sy * ih == ch;
    if sx <= sy then
      assert sx * ih <= sy * ih by { MulMonotone(sx, sy, ih); }
      sx
    else
      assert sy * iw <= sx * iw by { MulMonotone(sy, sx, iw); }
      sy
  }

  /** calculateImageDisplayInfo: aspect-fit, centred, then user zoom and offset. */
  function CalculateImageDisplayInfo(cw: real, ch: real, iw: real, ih: real, zoom: real, offset: Point): (r: DisplayInfo)
    requires iw > 0.0 && ih > 0.0
    ensures r.scale == FitScale(cw, ch, iw, ih) * zoom
    ensures r.width == iw * r.scale && r.height == ih * r.scale
    // the image centre sits at the canvas centre shifted by the offset
    ensures r.x + r.width / 2.0 == cw / 2.0 + offset.x
    ensures r.y + r.height / 2.0 == ch / 2.0 + offset.y
  {
    var scale := FitScale(cw, ch, iw, ih) * zoom;
    var w := iw * scale;
    var h := ih * scale;
    DisplayInfo((cw - w) / 2.0 + offset.x, (ch - h) / 2.0 + offset.y, w, h, scale)
  }

  /** At zoom 1 and no offset the image fits the canvas, touching it on at least one axis. */
  lemma DisplayInfoFitsCanvas(cw: real, ch: real, iw: real, ih: real)
    requires iw > 0.0 && ih > 0.0
    ensures var r := CalculateImageDisplayInfo(cw, ch, iw, ih, 1.0, Origin);
      && r.width <= cw && r.height <= ch
      && (r.width == cw || r.height == ch)
      && r.x >= 0.0 && r.y >= 0.0
      && r.x + r.width <= cw && r.y + r.height <= ch
  {
    var s := FitScale(cw, ch, iw, ih);
    assert iw * (s * 1.0) == s * iw;
    assert ih * (s * 1.0) == s * ih;
  }

  lemma DisplayInfoScenario()
    ensures CalculateImageDisplayInfo(800.0, 600.0, 1600.0, 1200.0, 1.0, Origin)
      == DisplayInfo(0.0, 0.0, 800.0, 600.0, 0.5)
  {
    assert 800.0 / 1600.0 == 0.5;
    assert 600.0 / 1200.0 == 0.5;
  }

  /** One axis of canvasToImageCoordinates: relative position scaled to the image, clamped. */
  function AxisToImage(v: real, origin: real, extent: real, size: real): (r: real)
    requires extent != 0.0
    ensures size >= 0.0 ==> 0.0 <= r <= size
  {
    Max(0.0, Min(size, (v - origin) / extent * size))
  }

  /** One axis of imageToCanvasCoordinates. */
  function AxisToCanvas(u: real, origin: real, extent: real, size: real): real
    requires size != 0.0
  {
    origin + u / size * extent
  }

  /** canvasToImageCoordinates: always lands in [0,iw] x [0,ih]. */
  function CanvasToImage(p: Point, info: DisplayInfo, iw: real, ih: real): (r: Point)
    requires info.width != 0.0 && info.height != 0.0
    ensures iw >= 0.0 && ih >= 0.0 ==> InBox(r, iw, ih)
  {
    Point(AxisToImage(p.x, info.x, info.width, iw), AxisToImage(p.y, info.y, info.height, ih))
  }

  /** imageToCanvasCoordinates: the unclamped inverse map. */
  function ImageToCanvas(q: Point, info: DisplayInfo, iw: real, ih: real): Point
    requires iw != 0.0 && ih != 0.0
  {
    Point(AxisToCanvas(q.x, info.x, info.width, iw), AxisToCanvas(q.y, info.y, info.height, ih))
  }

  /** The relative position f = (v - origin)/extent is below 0, inside [0,1] or above 1 exactly when v is. */
  lemma FractionRange(v: real, origin: real, extent: real)
    requires extent > 0.0
    ensures (v - origin) / extent * extent == v - origin
    ensures v < origin <==> (v - origin) / extent < 0.0
    ensures v > origin + extent <==> (v - origin) / extent > 1.0
  {
    var f := (v - origin) / extent;
    assert f * extent == v - origin;
    if f < 0.0 { MulStrict(f, 0.0, extent); } else { MulMonotone(0.0, f, extent); }
    if f > 1.0 { MulStrict(1.0, f, extent); } else { MulMonotone(f, 1.0, extent); }
  }

  /** Canvas -> image -> canvas on one axis clamps the value to the displayed extent. */
  lemma {:induction false} AxisCanvasRoundTrip(v: real, origin: real, extent: real, size: real)
    requires extent > 0.0 && size > 0.0
    ensures AxisToCanvas(AxisToImage(v, origin, extent, size), origin, extent, size)
      == Clamp(v, origin, origin + extent)
  {
    AxisToImageCases(v, origin, extent, size);
    var f := (v - origin) / extent;
    DivCancel(f, size);
    if origin <= v <= origin + extent {
      assert AxisToCanvas(f * size, origin, extent, size) == origin + f * extent;
      FractionRange(v, origin, extent);
    }
  }

  /** Left of the extent maps to 0, right of it to size, inside it to the scaled fraction. */
  lemma AxisToImageCases(v: real, origin: real, extent: real, size: real)
    requires extent > 0.0 && size > 0.0
    ensures v < origin ==> AxisToImage(v, origin, extent, size) == 0.0
    ensures v > origin + extent ==> AxisToImage(v, origin, extent, size) == size
    ensures origin <= v <= origin + extent ==> AxisToImage(v, origin, extent, size) == (v - origin) / extent * size
  {
    FractionRange(v, origin, extent);
    var f := (v - origin) / extent;
    if f < 0.0 {
      MulStrict(f, 0.0, size);
    } else if f > 1.0 {
      MulStrict(1.0, f, size);
    } else {
      MulMonotone(f, 1.0, size);
      MulMonotone(0.0, f, size);
    }
  }

  /** Image -> canvas -> image on one axis is the identity inside [0, size]. */
  lemma {:induction false} AxisImageRoundTrip(u: real, origin: real, extent: real, size: real)
    requires extent > 0.0 && size > 0.0 && 0.0 <= u <= size
    ensures AxisToImage(AxisToCanvas(u, origin, extent, size), origin, extent, size) == u
  {
    calc {
      (AxisToCanvas(u, origin, extent, size) - origin) / extent * size;
    == (u / size * extent) / extent * size;
    == u;
    }
  }

  /** A display rectangle whose size is positive. */
  predicate ProperDisplay(info: DisplayInfo)
  {
    info.width > 0.0 && info.height > 0.0
  }

  /** Points inside the display rectangle come back exactly; points outside land on its edge. */
  lemma CanvasImageCanvas(p: Point, info: DisplayInfo, iw: real, ih: real)
    requires ProperDisplay(info) && iw > 0.0 && ih > 0.0
    ensures ImageToCanvas(CanvasToImage(p, info, iw, ih), info, iw, ih)
      == Point(Clamp(p.x, info.x, info.x + info.width), Clamp(p.y, info.y, info.y + info.height))
  {
    AxisCanvasRoundTrip(p.x, info.x, info.width, iw);
    AxisCanvasRoundTrip(p.y, info.y, info.height, ih);
  }

  lemma ImageCanvasImage(q: Point, info: DisplayInfo, iw: real, ih: real)
    requires ProperDisplay(info) && iw > 0.0 && ih > 0.0 && InBox(q, iw, ih)
    ensures CanvasToImage(ImageToCanvas(q, info, iw, ih), info, iw, ih) == q
  {
    AxisImageRoundTrip(q.x, info.x, info.width, iw);
    AxisImageRoundTrip(q.y, info.y, info.height, ih);
  }

  /** The image's corners map to the display rectangle's corners. */
  lemma ImageCornersToDisplayCorners(info: DisplayInfo, iw: real, ih: real)
    requires iw > 0.0 && ih > 0.0
    ensures ImageToCanvas(Origin, info, iw, ih) == Point(info.x, info.y)
    ensures ImageToCanvas(Point(iw, ih), info, iw, ih) == Point(info.x + info.width, info.y + info.height)
  {
  }

  predicate InDisplay(p: Point, info: DisplayInfo)
  {
    info.x <= p.x <= info.x + info.width && info.y <= p.y <= info.y + info.height
  }

  function Abs(v: real): real { if v < 0.0 then -v else v }

  /** validateCoordinateTransform: canvas -> image -> canvas stays within one unit on both axes. */
  function ValidateCoordinateTransform(p: Point, info: DisplayInfo, iw: real, ih: real): (ok: bool)
    requires ProperDisplay(info) && iw > 0.0 && ih > 0.0
    ensures ok <==> (Abs(Clamp(p.x, info.x, info.x + info.width) - p.x) < 1.0
                     && Abs(Clamp(p.y, info.y, info.y + info.height) - p.y) < 1.0)
    ensures InDisplay(p, info) ==> ok
  {
    CanvasImageCanvas(p, info, iw, ih);
    var back := ImageToCanvas(CanvasToImage(p, info, iw, ih), info, iw, ih);
    Abs(back.x - p.x) < 1.0 && Abs(back.y - p.y) < 1.0
  }

  /** convertCropAreaToImageCoordinates: four image points, TL, TR, BR, BL. */
  function ConvertCropAreaToImageCoordinates(c: CropArea, info: DisplayInfo, iw: real, ih: real): (r: seq<Point>)
    requires info.width != 0.0 && info.height != 0.0
    ensures |r| == 4
    ensures forall i :: 0 <= i < 4 ==> r[i] == CanvasToImage(Corners(c)[i], info, iw, ih)
  {
    var pts := Corners(c);
    seq(4, i requires 0 <= i < 4 => CanvasToImage(pts[i], info, iw, ih))
  }

  /** convertImageCoordinatesToCropArea: input indices 0..3 become TL, TR, BR, BL. */
  function ConvertImageCoordinatesToCropArea(pts: seq<Point>, info: DisplayInfo, iw: real, ih: real): (c: CropArea)
    requires |pts| >= 4 && iw != 0.0 && ih != 0.0
    ensures forall i :: 0 <= i < 4 ==> Corners(c)[i] == ImageToCanvas(pts[i], info, iw, ih)
  {
    CropArea(ImageToCanvas(pts[0], info, iw, ih), ImageToCanvas(pts[1], info, iw, ih),
             ImageToCanvas(pts[2], info, iw, ih), ImageToCanvas(pts[3], info, iw, ih))
  }

  /** A crop area drawn inside the display rectangle survives the trip to image space and back. */
  lemma CropAreaRoundTrip(c: CropArea, info: DisplayInfo, iw: real, ih: real)
    requires ProperDisplay(info) && iw > 0.0 && ih > 0.0
    requires forall i :: 0 <= i < 4 ==> InDisplay(Corners(c)[i], info)
    ensures ConvertImageCoordinatesToCropArea(ConvertCropAreaToImageCoordinates(c, info, iw, ih), info, iw, ih) == c
  {
    var img := ConvertCropAreaToImageCoordinates(c, info, iw, ih);
    var back := ConvertImageCoordinatesToCropArea(img, info, iw, ih);
    forall i | 0 <= i < 4
      ensures Corners(back)[i] == Corners(c)[i]
    {
      CanvasImageCanvas(Corners(c)[i], info, iw, ih);
    }
    assert Corners(back) == Corners(c);
    CornersRoundTrip(back);
    CornersRoundTrip(c);
  }

  /** Detected image points inside the image survive the trip to the canvas and back. */
  lemma ImagePointsRoundTrip(pts: seq<Point>, info: DisplayInfo, iw: real, ih: real)
    requires ProperDisplay(info) && iw > 0.0 && ih > 0.0
    requires |pts| == 4 && forall i :: 0 <= i < 4 ==> InBox(pts[i], iw, ih)
    ensures ConvertCropAreaToImageCoordinates(ConvertImageCoordinatesToCropArea(pts, info, iw, ih), info, iw, ih) == pts
  {
    var c := ConvertImageCoordinatesToCropArea(pts, info, iw, ih);
    var back := ConvertCropAreaToImageCoordinates(c, info, iw, ih);
    forall i | 0 <= i < 4
      ensures back[i] == pts[i]
    {
      ImageCanvasImage(pts[i], info, iw, ih);
    }
  }
}
