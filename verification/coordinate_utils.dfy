/**
  frontend/src/utils/coordinateUtils.ts: proportional canvas -> image conversion
  with Math.round, the bounds check on integer points, and the fit rectangle.
  Image sizes are whole pixel counts.
 */
module CoordinateUtils {
  import opened Geometry
  import CoordinateTransform

  /** A point in image pixels after rounding. */
  datatype IntPoint = IntPoint(x: int, y: int)

  /** An axis-aligned selection (x, y, width, height). */
  datatype Selection = Selection(x: real, y: real, width: real, height: real)
  datatype IntSelection = IntSelection(x: int, y: int, width: int, height: int)

  /** Math.round(v * imageSize / canvasSize) for one coordinate. */
  function ScaleRound(v: real, canvasSize: real, imageSize: nat): (r: int)
    requires canvasSize != 0.0
    ensures var exact := v * (imageSize as real / canvasSize);
      exact - 0.5 < r as real <= exact + 0.5
  {
    Round(v * (imageSize as real / canvasSize))
  }

  function ScalePoint(p: Point, cw: real, ch: real, iw: nat, ih: nat): IntPoint
    requires cw != 0.0 && ch != 0.0
  {
    IntPoint(ScaleRound(p.x, cw, iw), ScaleRound(p.y, ch, ih))
  }

  /** convertCanvasToImageCoordinates: the four corners TL, TR, BR, BL, scaled and rounded. */
  function ConvertCanvasToImageCoordinates(c: CropArea, cw: real, ch: real, iw: nat, ih: nat): (r: seq<IntPoint>)
    requires cw != 0.0 && ch != 0.0
    ensures |r| == 4
    ensures forall i :: 0 <= i < 4 ==>
      var exact := Point(Corners(c)[i].x * (iw as real / cw), Corners(c)[i].y * (ih as real / ch));
      && exact.x - 0.5 < r[i].x as real <= exact.x + 0.5
      && exact.y - 0.5 < r[i].y as real <= exact.y + 0.5
  {
    var pts := Corners(c);
    [ScalePoint(pts[0], cw, ch, iw, ih), ScalePoint(pts[1], cw, ch, iw, ih),
     ScalePoint(pts[2], cw, ch, iw, ih), ScalePoint(pts[3], cw, ch, iw, ih)]
  }

  /**
    convertSelectionToImageCoordinates: x and width scale by the width ratio, y and height by
    the height ratio, and each field is rounded on its own.
   */
  function ConvertSelectionToImageCoordinates(s: Selection, cw: real, ch: real, iw: nat, ih: nat): (r: IntSelection)
    requires cw != 0.0 && ch != 0.0
    ensures var kx := iw as real / cw;
      && s.x * kx - 0.5 < r.x as real <= s.x * kx + 0.5
      && s.width * kx - 0.5 < r.width as real <= s.width * kx + 0.5
    ensures var ky := ih as real / ch;
      && s.y * ky - 0.5 < r.y as real <= s.y * ky + 0.5
      && s.height * ky - 0.5 < r.height as real <= s.height * ky + 0.5
  {
    IntSelection(ScaleRound(s.x, cw, iw), ScaleRound(s.y, ch, ih),
                 ScaleRound(s.width, cw, iw), ScaleRound(s.height, ch, ih))
  }

  /** A selection whose corner and size lie in the canvas converts to fields inside the image. */
  lemma SelectionInCanvasConvertsIntoImage(s: Selection, cw: real, ch: real, iw: nat, ih: nat)
    requires cw > 0.0 && ch > 0.0
    requires 0.0 <= s.x <= cw && 0.0 <= s.width <= cw && 0.0 <= s.y <= ch && 0.0 <= s.height <= ch
    ensures var r := ConvertSelectionToImageCoordinates(s, cw, ch, iw, ih);
      0 <= r.x <= iw && 0 <= r.width <= iw && 0 <= r.y <= ih && 0 <= r.height <= ih
  {
    ScaleRoundWithin(s.x, cw, iw);
    ScaleRoundWithin(s.width, cw, iw);
    ScaleRoundWithin(s.y, ch, ih);
    ScaleRoundWithin(s.height, ch, ih);
  }

  /**
    The selection's corner converts exactly like a crop-area corner at the same place, so the
    two converters of this file agree.
   */
  lemma SelectionCornerAgreesWithCropArea(s: Selection, c: CropArea, cw: real, ch: real, iw: nat, ih: nat)
    requires cw != 0.0 && ch != 0.0 && c.topLeft == Point(s.x, s.y)
    ensures var r := ConvertSelectionToImageCoordinates(s, cw, ch, iw, ih);
      ConvertCanvasToImageCoordinates(c, cw, ch, iw, ih)[0] == IntPoint(r.x, r.y)
  {
  }

  /** When the canvas has the image's own size, a whole-pixel selection converts to itself. */
  lemma SelectionAtNativeSize(x: int, y: int, width: int, height: int, iw: nat, ih: nat)
    requires iw > 0 && ih > 0
    ensures ConvertSelectionToImageCoordinates(Selection(x as real, y as real, width as real, height as real),
                                               iw as real, ih as real, iw, ih)
         == IntSelection(x, y, width, height)
  {
    ScaleRoundNative(x, iw); ScaleRoundNative(width, iw);
    ScaleRoundNative(y, ih); ScaleRoundNative(height, ih);
  }

  predicate InImage(p: IntPoint, iw: int, ih: int)
  {
    0 <= p.x <= iw && 0 <= p.y <= ih
  }

  /** validateCoordinates: every point lies in [0,iw] x [0,ih] (true for no points). */
  function ValidateCoordinates(points: seq<IntPoint>, iw: int, ih: int): (ok: bool)
    ensures ok <==> forall i :: 0 <= i < |points| ==> InImage(points[i], iw, ih)
  {
    if |points| == 0 then true
    else InImage(points[0], iw, ih) && ValidateCoordinates(points[1..], iw, ih)
  }

  /** A value in [0, canvasSize] scales and rounds into [0, imageSize]. */
  lemma ScaleRoundWithin(v: real, canvasSize: real, imageSize: nat)
    requires canvasSize > 0.0 && 0.0 <= v <= canvasSize
    ensures 0 <= ScaleRound(v, canvasSize, imageSize) <= imageSize
  {
    var k := imageSize as real / canvasSize;
    assert k >= 0.0;
    assert canvasSize * k == imageSize as real;
    MulMonotone(0.0, v, k);
    MulMonotone(v, canvasSize, k);
    RoundWithin(v * k, imageSize);
  }

  /** A crop area inside the canvas converts to points that pass validateCoordinates. */
  lemma ConvertedCropAreaIsValid(c: CropArea, cw: real, ch: real, iw: nat, ih: nat)
    requires cw > 0.0 && ch > 0.0 && CropAreaInBox(c, cw, ch)
    ensures ValidateCoordinates(ConvertCanvasToImageCoordinates(c, cw, ch, iw, ih), iw, ih)
  {
    var r := ConvertCanvasToImageCoordinates(c, cw, ch, iw, ih);
    forall i | 0 <= i < 4
      ensures InImage(r[i], iw, ih)
    {
      var p := Corners(c)[i];
      ScaleRoundWithin(p.x, cw, iw);
      ScaleRoundWithin(p.y, ch, ih);
    }
  }

  /** When the canvas has the image's own size, integer corners convert to themselves. */
  lemma ConvertAtNativeSize(a: IntPoint, b: IntPoint, d: IntPoint, e: IntPoint, iw: nat, ih: nat)
    requires iw > 0 && ih > 0
    ensures var c := CropArea(Point(a.x as real, a.y as real), Point(b.x as real, b.y as real),
                              Point(d.x as real, d.y as real), Point(e.x as real, e.y as real));
      ConvertCanvasToImageCoordinates(c, iw as real, ih as real, iw, ih) == [a, b, d, e]
  {
    ScaleRoundNative(a.x, iw); ScaleRoundNative(a.y, ih); ScaleRoundNative(b.x, iw); ScaleRoundNative(b.y, ih);
    ScaleRoundNative(d.x, iw); ScaleRoundNative(d.y, ih); ScaleRoundNative(e.x, iw); ScaleRoundNative(e.y, ih);
  }

  lemma ScaleRoundNative(n: int, size: nat)
    requires size > 0
    ensures ScaleRound(n as real, size as real, size) == n
  {
    assert size as real / size as real == 1.0;
    assert n as real * 1.0 == n as real;
    RoundOfInteger(n);
  }

  /** calculateImageDisplayBounds: the aspect-fit rectangle, centred in the canvas. */
  function CalculateImageDisplayBounds(cw: real, ch: real, iw: real, ih: real): (r: CoordinateTransform.DisplayInfo)
    requires iw > 0.0 && ih > 0.0
    ensures r.width * ih == r.height * iw
    ensures r.x + r.width / 2.0 == cw / 2.0 && r.y + r.height / 2.0 == ch / 2.0
  {
    var scale := Min(cw / iw, ch / ih);
    var w := iw * scale;
    var h := ih * scale;
    assert w * ih == h * iw;
    CoordinateTransform.DisplayInfo((cw - w) / 2.0, (ch - h) / 2.0, w, h, scale)
  }

  /** The bounds equal the transform helper's display rectangle at zoom 1 with no offset. */
  lemma DisplayBoundsIsUnzoomedDisplayInfo(cw: real, ch: real, iw: real, ih: real)
    requires iw > 0.0 && ih > 0.0
    ensures CalculateImageDisplayBounds(cw, ch, iw, ih)
      == CoordinateTransform.CalculateImageDisplayInfo(cw, ch, iw, ih, 1.0, Origin)
  {
    var s := CoordinateTransform.FitScale(cw, ch, iw, ih);
    assert s == Min(cw / iw, ch / ih);
    var a := CalculateImageDisplayBounds(cw, ch, iw, ih);
    var b := CoordinateTransform.CalculateImageDisplayInfo(cw, ch, iw, ih, 1.0, Origin);
    assert b.scale == s * 1.0 == s == a.scale;
    assert a.width == iw * s == b.width;
    assert a.height == ih * s == b.height;
    assert a.x == (cw - iw * s) / 2.0 == b.x;
    assert a.y == (ch - ih * s) / 2.0 == b.y;
  }
}
