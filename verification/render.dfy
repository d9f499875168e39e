/**
  frontend/src/utils/imageProcessing.ts: the fit-within-bounds size rule, the
  crop-overlay drawing as an abstract list of draw commands, and the MIME check.
 */
module ImageProcessing {
  import opened Geometry
  import opened Wrappers

  datatype Size = Size(width: real, height: real)

  /** calculateImageDimensions: shrink to maxWidth, then to maxHeight, keeping the aspect ratio. */
  function CalculateImageDimensions(ow: real, oh: real, maxW: real, maxH: real): (r: Size)
    requires ow > 0.0 && oh > 0.0
    ensures ow <= maxW && oh <= maxH ==> r == Size(ow, oh)
    ensures maxW > 0.0 && maxH > 0.0 ==> 0.0 < r.width <= maxW && 0.0 < r.height <= maxH
    ensures r.width * oh == r.height * ow
  {
    var aspect := ow / oh;
    var w1 := if ow > maxW then maxW else ow;
    var h1 := if ow > maxW then w1 / aspect else oh;
    var w2 := if h1 > maxH then maxH * aspect else w1;
    var h2 := if h1 > maxH then maxH else h1;
    DimensionsFacts(ow, oh, maxW, maxH, aspect, w1, h1, w2, h2);
    Size(w2, h2)
  }

  /** The two shrinking steps of calculateImageDimensions keep w = h * aspect and stay within the bounds. */
  lemma DimensionsFacts(ow: real, oh: real, maxW: real, maxH: real, aspect: real, w1: real, h1: real, w2: real, h2: real)
    requires ow > 0.0 && oh > 0.0 && aspect == ow / oh
    requires w1 == (if ow > maxW then maxW else ow)
    requires h1 == (if ow > maxW then w1 / aspect else oh)
    requires w2 == (if h1 > maxH then maxH * aspect else w1)
    requires h2 == (if h1 > maxH then maxH else h1)
    ensures maxW > 0.0 && maxH > 0.0 ==> 0.0 < w2 <= maxW && 0.0 < h2 <= maxH
    ensures w2 * oh == h2 * ow
  {
    assert aspect > 0.0;
    assert aspect * oh == ow;
    assert h1 * aspect == w1;
    assert w2 == h2 * aspect;
    if maxW > 0.0 && maxH > 0.0 {
      assert w1 <= maxW && w1 > 0.0 && h1 > 0.0;
      if h1 > maxH {
        assert w2 < w1 by { MulStrict(maxH, h1, aspect); }
        assert w2 > 0.0 by { MulStrict(0.0, maxH, aspect); }
      }
    }
    calc {
      w2 * oh;
    == h2 * aspect * oh;
    == h2 * (aspect * oh);
    == h2 * ow;
    }
  }

  /** A colour as the CSS string the source assigns. */
  type Color = string

  const MaskColor: Color := "rgba(0, 0, 0, 0.3)"
  const OutlineColor: Color := "#00ff00"
  const OutlineWidth: real := 3.0
  const HandleRadius: real := 8.0
  const SelectedFill: Color := "#ff0000"
  const SelectedStroke: Color := "#cc0000"
  const HandleFill: Color := "#00ff00"
  const HandleStroke: Color := "#00cc00"

  /**
    The drawing operations the canvas code issues, one constructor per visible step:
    a filled rectangle, a closed polygon punched out of what is drawn (destination-out),
    a stroked closed polygon, a filled and stroked circle, an image, centred text,
    and clearing a rectangle.
   */
  datatype DrawCommand =
    | ClearRect(x: real, y: real, w: real, h: real)
    | FillRect(color: Color, x: real, y: real, w: real, h: real)
    | CutOut(path: seq<Point>)
    | Outline(path: seq<Point>, color: Color, lineWidth: real)
    | Handle(center: Point, radius: real, fill: Color, stroke: Color)
    | DrawImage(x: real, y: real, w: real, h: real)
    | Text(message: string, at: Point)

  /** The on-screen position of a canvas point under the overlay's transform p*zoom + offset. */
  function OverlayPoint(p: Point, zoom: real, offset: Point): Point
  {
    Point(p.x * zoom + offset.x, p.y * zoom + offset.y)
  }

  /** The overlay transform is canvasToScreen with the canvas origin at (0, 0). */
  lemma OverlayIsCanvasToScreen(p: Point, zoom: real, offset: Point)
    ensures OverlayPoint(p, zoom, offset) == CanvasToScreen(p, Rect(0.0, 0.0), zoom, offset)
  {
  }

  datatype HandleStyle = HandleStyle(fill: Color, stroke: Color)

  /** `selectedCorner === index`: red for the selected handle, green otherwise. */
  function StyleFor(index: int, selected: Option<int>): HandleStyle
  {
    if selected == Some(index) then HandleStyle(SelectedFill, SelectedStroke) else HandleStyle(HandleFill, HandleStroke)
  }

  /**
    drawCropArea: darken the whole surface, punch out the quadrilateral TL -> TR -> BR -> BL,
    outline it, then draw one handle per corner in the same order, the selected one in red.
   */
  function DrawCropArea(c: CropArea, zoom: real, offset: Point, selected: Option<int>, cw: real, ch: real)
    : (r: seq<DrawCommand>)
    ensures |r| == 7
    ensures r[0] == FillRect(MaskColor, 0.0, 0.0, cw, ch)
    ensures r[1].CutOut? && r[2].Outline? && r[1].path == r[2].path
    ensures r[2].color == OutlineColor && r[2].lineWidth == OutlineWidth
    ensures |r[1].path| == 4
    ensures forall i :: 0 <= i < 4 ==> r[1].path[i] == OverlayPoint(Corners(c)[i], zoom, offset)
    ensures forall i :: 0 <= i < 4 ==> r[3 + i].Handle? && r[3 + i].center == r[1].path[i] && r[3 + i].radius == HandleRadius
    ensures forall i :: 0 <= i < 4 ==> r[3 + i].Handle? && (r[3 + i].fill == SelectedFill <==> selected == Some(i))
  {
    var pts := Corners(c);
    var path := seq(4, i requires 0 <= i < 4 => OverlayPoint(pts[i], zoom, offset));
    var handles := seq(4, i requires 0 <= i < 4 =>
      var h := StyleFor(i, selected); Handle(path[i], HandleRadius, h.fill, h.stroke));
    [FillRect(MaskColor, 0.0, 0.0, cw, ch), CutOut(path), Outline(path, OutlineColor, OutlineWidth)] + handles
  }

  /** With no selection every handle is green; with a selection exactly one is red. */
  lemma HandleColours(c: CropArea, zoom: real, offset: Point, selected: Option<int>, cw: real, ch: real)
    ensures var r := DrawCropArea(c, zoom, offset, selected, cw, ch);
      && (selected.None? ==> forall i :: 3 <= i < 7 ==> r[i].fill == HandleFill && r[i].stroke == HandleStroke)
      && (selected.Some? && 0 <= selected.value < 4 ==>
            |set i | 3 <= i < 7 && r[i].fill == SelectedFill| == 1)
  {
    var r := DrawCropArea(c, zoom, offset, selected, cw, ch);
    if selected.Some? && 0 <= selected.value < 4 {
      var k := selected.value + 3;
      assert (set i | 3 <= i < 7 && r[i].fill == SelectedFill) == {k};
    }
  }

  /** For a non-zero zoom each handle is drawn over its corner: mapping its centre back gives the corner. */
  lemma HandlesSitOnCorners(c: CropArea, zoom: real, offset: Point, selected: Option<int>, cw: real, ch: real)
    requires zoom != 0.0
    ensures var r := DrawCropArea(c, zoom, offset, selected, cw, ch);
      forall i :: 0 <= i < 4 ==> ScreenToCanvas(r[3 + i].center, Rect(0.0, 0.0), zoom, offset) == Corners(c)[i]
  {
    var r := DrawCropArea(c, zoom, offset, selected, cw, ch);
    forall i | 0 <= i < 4
      ensures ScreenToCanvas(r[3 + i].center, Rect(0.0, 0.0), zoom, offset) == Corners(c)[i]
    {
      OverlayIsCanvasToScreen(Corners(c)[i], zoom, offset);
      ScreenCanvasRoundTrip(Origin, Corners(c)[i], Rect(0.0, 0.0), zoom, offset);
    }
  }

  /** `s.startsWith(prefix)`, character by character. */
  function StartsWith(s: string, prefix: string): (b: bool)
    ensures b <==> prefix <= s
  {
    if |prefix| == 0 then true
    else if |s| == 0 then false
    else s[0] == prefix[0] && StartsWith(s[1..], prefix[1..])
  }

  /** isValidImageFile: the MIME type starts with "image/". */
  function IsValidImageFile(mimeType: string): (ok: bool)
    ensures ok <==> |mimeType| >= 6 && mimeType[..6] == "image/"
  {
    StartsWith(mimeType, "image/")
  }

  lemma ImageFileExamples()
    ensures IsValidImageFile("image/png") && IsValidImageFile("image/")
    ensures !IsValidImageFile("text/plain") && !IsValidImageFile("image") && !IsValidImageFile("")
  {
  }
}
