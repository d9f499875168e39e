# picture_crop in Dafny

This project is a Dafny model of the core of picture_crop, an editor for cropping a photograph to a quadrilateral.

The React/TypeScript front end has several parts, each modelled here:

- a store that holds the image list, the view state (zoom, pan offset, selected corner, dragging flag) and the settings;
- geometry helpers: distance test, screen/canvas maps, clamping, default crop area;
- coordinate conversions between canvas and image pixels;
- canvas drawing as a sequence of draw commands;
- pointer and wheel handling as a state machine over the store and the hook's refs;
- the toolbar, magnifier, preview panel and progress bar.

The older in-page editor in `html_templates.py` is modelled separately, as an `Editor` record driven by events. It has:

- corners plus edge midpoints;
- zoom about a pointer;
- panning that carries the corners;
- edge dragging along the edge normal.

On the Python side, the model covers:

- the corner ordering;
- the clamping and resizing helpers;
- the confidence score and candidate choice of automatic corner detection;
- the HTTP routes for listing, paging, previewing, cropping, choosing the next file, image info and detection.

The routes are modelled as functions from the request and the state of the source directory to a response.

Every operation has a partner:

- an inverse (screen/canvas, canvas/image, renaming);
- an invariant it keeps (zoom in range, crop area inside the canvas, the legacy editor's view invariant);
- or an independent characterisation (first hit, least name, page contents).

An all-inputs lemma connects each operation to its partner.

Modules, one per source component:

| module | file | models |
|---|---|---|
| `Geometry` | geometry.dfy | frontend/src/utils/geometry.ts |
| `CoordinateTransform` | transform.dfy | frontend/src/utils/coordinateTransform.ts |
| `CoordinateUtils` | coordinate_utils.dfy | frontend/src/utils/coordinateUtils.ts |
| `Store` | store.dfy | frontend/src/store/useAppStore.ts |
| `Toolbar` | toolbar.dfy | frontend/src/components/Toolbar.tsx |
| `ImageProcessing` | render.dfy | frontend/src/utils/imageProcessing.ts |
| `CanvasView` | canvas.dfy | frontend/src/components/Canvas.tsx |
| `Magnifier` | magnifier.dfy | frontend/src/components/Magnifier.tsx |
| `Preview` | preview.dfy | frontend/src/components/PreviewModal.tsx |
| `Interaction` | interaction.dfy | frontend/src/hooks/useCanvasInteraction.ts |
| `Progress` | progress.dfy | frontend/src/components/ProgressBar.tsx, frontend/src/utils/progressDemo.ts |
| `LegacyEditor` | legacy.dfy | the script embedded in html_templates.py |
| `ImageProcessor` | image_processor.dfy | image_processor.py |
| `Server` | server.dfy | main.py |
| `Wrappers` | wrappers.dfy | `Option` and `Result` |

Conventions:

- Coordinates are exact reals.
- JavaScript's `Math.round` is `Floor(x + 0.5)`. Python's `int()` on non-negative values is `Floor`. Python's `//` is floor division.
- The square-root distance tests are squared-distance comparisons, proved equivalent to comparing the true distance.

Where the code and the documented design disagree, the model follows the code:

- The store's `setZoom` does not clamp. The clamping happens in the wheel handler and in the toolbar buttons (`Store.SetZoom`, `Interaction.WheelZoom`, `Toolbar.ZoomIn`).
- `setCurrentImage` does not reset the view state (`Store.SetCurrentImage`).

## Model

| member | source | states |
|---|---|---|
| Geometry.Round | frontend/src/utils/coordinateUtils.ts:48-49 | Math.round lands within half a unit of its argument (ties go up) |
| Geometry.RoundOfInteger | frontend/src/utils/coordinateUtils.ts:48-49 | a whole number rounds to itself |
| Geometry.Clamp | frontend/src/utils/geometry.ts:120-122 | clamp stays in [min, max] when min <= max, returns the value inside the range, min below it, max above it, and min when the range is empty |
| Geometry.NearMatchesDistance | frontend/src/utils/geometry.ts:6-15 | the square-root-free test is the same as "Euclidean distance <= threshold" for the actual non-negative distance |
| Geometry.NearIsSymmetricAndInclusive | frontend/src/utils/geometry.ts:6-15 | isPointNear is symmetric, includes the boundary distance, and nothing is near under a negative threshold |
| Geometry.SquaredDistanceSymmetric | frontend/src/utils/geometry.ts:6-8 | the distance from p to q equals the distance from q to p |
| Geometry.ScreenCanvasRoundTrip | frontend/src/utils/geometry.ts:20-45 | screenToCanvas and canvasToScreen are inverse to each other, both ways, for any non-zero zoom |
| Geometry.ConstrainPoint | frontend/src/utils/geometry.ts:50-55 | the constrained point lies in [0,width] x [0,height], and a point already inside is unchanged |
| Geometry.ConstrainIdempotent | frontend/src/utils/geometry.ts:50-55 | constraining twice is constraining once |
| Geometry.CornersRoundTrip | frontend/src/utils/geometry.ts:83 | the TL, TR, BR, BL corner list determines the crop area |
| Geometry.WithCorner | frontend/src/hooks/useCanvasInteraction.ts:42-47 | writing one corner sets exactly that corner and keeps the other three |
| Geometry.CenterOfTranslate | frontend/src/utils/geometry.ts:60-64 | moving all corners by d moves the centre by d |
| Geometry.CenterOfRectangle | frontend/src/utils/geometry.ts:60-64 | the centre of an axis-aligned rectangle is the midpoint of its diagonal |
| Geometry.DefaultCropArea | frontend/src/utils/geometry.ts:69-77 | the default corners are inset from the image corners by a tenth of the shorter side |
| Geometry.IsValidCropArea | frontend/src/utils/geometry.ts:82-95 | the pairwise loop answers true exactly when no two of the four corners coincide |
| Geometry.DefaultCropAreaIsValid | frontend/src/utils/geometry.ts:69-95 | for a positive size the default area has four distinct corners, all inside the image |
| Geometry.DefaultCropAreaScenario | frontend/src/utils/geometry.ts:69-77 | an 800x600 image gets the corners (60,60), (740,60), (740,540), (60,540) |
| CoordinateTransform.FitScale | frontend/src/utils/coordinateTransform.ts:28-31 | the base scale fits the image in the canvas and touches it on at least one axis |
| CoordinateTransform.CalculateImageDisplayInfo | frontend/src/utils/coordinateTransform.ts:20-51 | the display size is the image size times base scale times zoom, and the image centre sits at the canvas centre moved by the offset |
| CoordinateTransform.DisplayInfoFitsCanvas | frontend/src/utils/coordinateTransform.ts:20-51 | at zoom 1 with no offset the displayed image lies inside the canvas and fills it along one axis |
| CoordinateTransform.DisplayInfoScenario | frontend/src/utils/coordinateTransform.ts:20-51 | a 1600x1200 image on an 800x600 canvas is shown at (0,0), 800x600, scale 0.5 |
| CoordinateTransform.AxisToImage | frontend/src/utils/coordinateTransform.ts:63-73 | one image coordinate always lies in [0, size] |
| CoordinateTransform.CanvasToImage | frontend/src/utils/coordinateTransform.ts:56-75 | canvasToImageCoordinates always lands inside the image |
| CoordinateTransform.FractionRange | frontend/src/utils/coordinateTransform.ts:63-68 | the relative position is below 0, inside [0,1] or above 1 exactly when the point is left of, on, or right of the displayed extent |
| CoordinateTransform.AxisToImageCases | frontend/src/utils/coordinateTransform.ts:63-73 | left of the image gives 0, right of it gives the image size, and inside it gives the scaled relative position |
| CoordinateTransform.AxisCanvasRoundTrip | frontend/src/utils/coordinateTransform.ts:56-95 | canvas -> image -> canvas on one axis clamps the coordinate to the displayed extent |
| CoordinateTransform.AxisImageRoundTrip | frontend/src/utils/coordinateTransform.ts:56-95 | image -> canvas -> image on one axis is the identity inside [0, size] |
| CoordinateTransform.CanvasImageCanvas | frontend/src/utils/coordinateTransform.ts:56-95 | a canvas point comes back unchanged when it is on the displayed image, and otherwise lands on its nearest edge |
| CoordinateTransform.ImageCanvasImage | frontend/src/utils/coordinateTransform.ts:56-95 | every image point survives the trip to the canvas and back |
| CoordinateTransform.ImageCornersToDisplayCorners | frontend/src/utils/coordinateTransform.ts:80-95 | the image corners (0,0) and (w,h) map to the corners of the display rectangle |
| CoordinateTransform.ValidateCoordinateTransform | frontend/src/utils/coordinateTransform.ts:153-179 | the self-check passes exactly when clamping moves the point by less than one unit on both axes, so every point on the displayed image passes |
| CoordinateTransform.ConvertCropAreaToImageCoordinates | frontend/src/utils/coordinateTransform.ts:100-122 | four image points in TL, TR, BR, BL order, each the converted corner |
| CoordinateTransform.ConvertImageCoordinatesToCropArea | frontend/src/utils/coordinateTransform.ts:127-148 | input points 0..3 become TL, TR, BR, BL, each mapped to the canvas |
| CoordinateTransform.CropAreaRoundTrip | frontend/src/utils/coordinateTransform.ts:100-148 | a crop area inside the display rectangle survives the trip to image space and back |
| CoordinateTransform.ImagePointsRoundTrip | frontend/src/utils/coordinateTransform.ts:100-148 | four image points inside the image survive the trip to the canvas and back |
| CoordinateUtils.ScaleRound | frontend/src/utils/coordinateUtils.ts:36-49 | the converted coordinate is within half a pixel of the exact scaled value |
| CoordinateUtils.ConvertCanvasToImageCoordinates | frontend/src/utils/coordinateUtils.ts:28-51 | four integer points in TL, TR, BR, BL order, each within half a pixel of its corner scaled by image/canvas size |
| CoordinateUtils.ConvertSelectionToImageCoordinates | frontend/src/utils/coordinateUtils.ts:56-72 | x and width land within half a pixel of their values times imageWidth / canvasWidth, y and height within half a pixel of their values times imageHeight / canvasHeight |
| CoordinateUtils.SelectionInCanvasConvertsIntoImage | frontend/src/utils/coordinateUtils.ts:56-72 | a selection whose corner and size lie within the canvas converts to x and width in [0, imageWidth] and y and height in [0, imageHeight] |
| CoordinateUtils.SelectionCornerAgreesWithCropArea | frontend/src/utils/coordinateUtils.ts:28-72 | the selection's corner converts to the same pixel as a crop-area corner at the same canvas point |
| CoordinateUtils.SelectionAtNativeSize | frontend/src/utils/coordinateUtils.ts:56-72 | on a canvas of the image's own size a whole-pixel selection is unchanged |
| CoordinateUtils.ValidateCoordinates | frontend/src/utils/coordinateUtils.ts:77-85 | true exactly when every point lies in [0,w] x [0,h], so true for no points |
| CoordinateUtils.ScaleRoundWithin | frontend/src/utils/coordinateUtils.ts:36-49 | a canvas coordinate in [0, canvas size] converts into [0, image size] |
| CoordinateUtils.ConvertedCropAreaIsValid | frontend/src/utils/coordinateUtils.ts:28-85 | a crop area inside the canvas always converts to points that validateCoordinates accepts |
| CoordinateUtils.ConvertAtNativeSize | frontend/src/utils/coordinateUtils.ts:28-51 | when the canvas has the image's own size, whole-pixel corners convert to themselves |
| CoordinateUtils.ScaleRoundNative | frontend/src/utils/coordinateUtils.ts:36-49 | at native size a whole-pixel coordinate is unchanged |
| CoordinateUtils.CalculateImageDisplayBounds | frontend/src/utils/coordinateUtils.ts:90-110 | the bounds keep the image's aspect ratio and are centred in the canvas |
| CoordinateUtils.DisplayBoundsIsUnzoomedDisplayInfo | frontend/src/utils/coordinateUtils.ts:90-110 | the bounds equal calculateImageDisplayInfo's rectangle at zoom 1 with no offset |
| Store.Pick | frontend/src/store/useAppStore.ts:77-83 | a spread field takes the update's value when it is supplied and keeps the old one otherwise |
| Store.MergeLaws | frontend/src/store/useAppStore.ts:77-83 | `{ ...img, ...updates }` is idempotent, the empty update changes nothing, and two merges compose into one |
| Store.StatusOnlyUpdate | frontend/src/store/useAppStore.ts:77-83 | an update that supplies only the status changes only the status |
| Store.WithoutId | frontend/src/store/useAppStore.ts:71-74 | the filtered list holds exactly the images whose id differs, and is no longer than the input |
| Store.WithoutIdAppend | frontend/src/store/useAppStore.ts:71-74 | the filter keeps order: it distributes over concatenation |
| Store.WithoutIdAbsent | frontend/src/store/useAppStore.ts:71-74 | a list with no image of that id is left as it was |
| Store.UpdateWhere | frontend/src/store/useAppStore.ts:77-80 | the mapped list has the same length, merges the update into the matching images and leaves the others unchanged |
| Store.SetCurrentImage | frontend/src/store/useAppStore.ts:64 | replaces the current image and nothing else |
| Store.AddImage | frontend/src/store/useAppStore.ts:66-69 | appends the image at the end, keeps the earlier ones and makes it current; the view and settings are untouched |
| Store.RemoveImage | frontend/src/store/useAppStore.ts:71-74 | drops every image with the id; the current image is cleared exactly when it has that id |
| Store.UpdateImage | frontend/src/store/useAppStore.ts:76-84 | merges into every image with the id, and into the current image exactly when it has the id |
| Store.SetZoom | frontend/src/store/useAppStore.ts:86-88 | stores the zoom as given (no clamping) and changes no other field of the state |
| Store.SetOffset | frontend/src/store/useAppStore.ts:90-92 | stores the offset and changes no other field of the state |
| Store.SetSelectedCorner | frontend/src/store/useAppStore.ts:94-96 | stores the selected corner and changes no other field of the state |
| Store.SetIsEditing | frontend/src/store/useAppStore.ts:98-100 | stores the editing flag and changes no other field of the state |
| Store.SetIsDragging | frontend/src/store/useAppStore.ts:102-104 | stores the dragging flag and changes no other field of the state |
| Store.UpdateSettings | frontend/src/store/useAppStore.ts:106-108 | overwrites exactly the supplied settings and leaves the rest of the state unchanged |
| Store.SetLoading | frontend/src/store/useAppStore.ts:110 | sets the loading flag and nothing else |
| Store.SetError | frontend/src/store/useAppStore.ts:111 | sets the error and nothing else |
| Store.ResetView | frontend/src/store/useAppStore.ts:113 | restores zoom 1, no offset, no drag, no selection and not editing, and changes only the view |
| Store.ClearAll | frontend/src/store/useAppStore.ts:115-120 | empties the list, drops the current image, resets the view and error, and keeps settings and the loading flag |
| Store.ResetsAreIdempotent | frontend/src/store/useAppStore.ts:113-120 | resetView and clearAll are idempotent, and a reset after clearAll changes nothing |
| Store.SwitchingImageKeepsView | frontend/src/store/useAppStore.ts:64 | switching images keeps the current zoom, pan and selection |
| Store.CurrentListedPreserved | frontend/src/store/useAppStore.ts:66-84 | addImage, removeImage, updateImage and clearAll keep the current image among the listed images |
| Store.UpdateWhereIdempotent | frontend/src/store/useAppStore.ts:77-80 | applying the same update to the list twice equals applying it once |
| Store.UpdateImageIdempotent | frontend/src/store/useAppStore.ts:76-84 | calling updateImage twice with the same update equals calling it once |
| Store.AddThenRemove | frontend/src/store/useAppStore.ts:66-74 | adding an image and removing its id gives the list that only removing the id gives, and no current image |
| Store.RemoveAbsentId | frontend/src/store/useAppStore.ts:71-74 | removing an id no image has leaves the list unchanged |
| Toolbar.ZoomIn | frontend/src/components/Toolbar.tsx:27-30 | the new zoom never exceeds 5 nor zoom + step, equals zoom + step when that is at most 5, and is stored through setZoom |
| Toolbar.ZoomOut | frontend/src/components/Toolbar.tsx:32-35 | the new zoom is never below 0.1 nor below zoom - step, equals zoom - step when that is at least 0.1, and is stored through setZoom |
| Toolbar.ToolbarZoomStaysInRange | frontend/src/components/Toolbar.tsx:27-35 | with a non-negative step both buttons keep the zoom in [0.1, 5] and move it in their own direction |
| Toolbar.EnabledButtonsMoveZoom | frontend/src/components/Toolbar.tsx:71-91 | an enabled button changes the zoom strictly, and a disabled button's handler would leave it unchanged |
| Toolbar.ZoomPercent | frontend/src/components/Toolbar.tsx:80-82 | the label is within half a percent of zoom x 100 |
| Toolbar.ToggleGrid | frontend/src/components/Toolbar.tsx:63-65 | flips showGrid and changes nothing else |
| Toolbar.ToggleGridInvolution | frontend/src/components/Toolbar.tsx:63-65 | toggling the grid twice restores the state |
| Toolbar.HandleDownload | frontend/src/components/Toolbar.tsx:41-61 | always sets an error message, the no-crop-area one exactly when there is no image or no crop area, and changes nothing else |
| ImageProcessing.CalculateImageDimensions | frontend/src/utils/imageProcessing.ts:77-99 | a size that already fits comes back unchanged; for positive bounds the result is positive and within maxWidth x maxHeight; the aspect ratio width/height is the original one |
| ImageProcessing.DimensionsFacts | frontend/src/utils/imageProcessing.ts:83-96 | the width cap followed by the height cap keeps width = height x aspect and ends within both bounds |
| ImageProcessing.OverlayIsCanvasToScreen | frontend/src/utils/imageProcessing.ts:151-154 | the overlay's corner transform p x zoom + offset is canvasToScreen with the canvas origin at (0, 0) |
| ImageProcessing.DrawCropArea | frontend/src/utils/imageProcessing.ts:132-211 | seven commands in order: the full-surface mask, the cut-out along TL, TR, BR, BL, the outline on the same path (green, width 3), then one handle of radius 8 on each transformed corner in that order, red exactly for the selected index |
| ImageProcessing.HandleColours | frontend/src/utils/imageProcessing.ts:194-208 | with no selection all four handles are green; with a selection in 0..3 exactly one handle is red |
| ImageProcessing.HandlesSitOnCorners | frontend/src/utils/imageProcessing.ts:151-196 | for a non-zero zoom, mapping each handle's centre back to the canvas gives its corner |
| ImageProcessing.IsValidImageFile | frontend/src/utils/imageProcessing.ts:216-218 | holds exactly when the MIME type starts with "image/" |
| ImageProcessing.ImageFileExamples | frontend/src/utils/imageProcessing.ts:216-218 | "image/png" and "image/" are accepted; "text/plain", "image" and the empty type are not |
| CanvasView.ContainerExtent | frontend/src/components/Canvas.tsx:36-37 | a present, non-zero container size is used; a missing parent or a zero size gives the fallback |
| CanvasView.InitializeCropArea | frontend/src/components/Canvas.tsx:27-56 | nothing happens unless there is a current image without a crop area; a successful load sizes the canvas to min(image, container), gives the image the default crop area for that size and status 'completed' through updateImage; a failed load sets status 'error' only |
| CanvasView.InitializedCropAreaFitsCanvas | frontend/src/components/Canvas.tsx:36-48 | after a successful initialisation the canvas is positive and no larger than the image, and the new crop area has distinct corners inside it |
| CanvasView.InitializeRunsOnce | frontend/src/components/Canvas.tsx:28-51 | once a load succeeded the effect finds nothing to do; after a failure the image still has no crop area, so the effect runs again |
| CanvasView.ImageLayerMatchesOverlay | frontend/src/components/Canvas.tsx:90-95 | translate(offset) then scale(zoom) puts a point where the crop overlay's p x zoom + offset puts it |
| CanvasView.Render | frontend/src/components/Canvas.tsx:59-128 | nothing without a current image; otherwise clear and background, then either the aspect-fit image drawn under translate-then-scale (size x zoom) followed by the crop overlay exactly when a crop area exists, or, on a load failure, the error fill and the centred message |
| CanvasView.UnzoomedImageFitsCanvas | frontend/src/components/Canvas.tsx:79-95 | at zoom 1 with no pan the image is drawn inside the canvas |
| CanvasView.Cursor | frontend/src/components/Canvas.tsx:149-153 | 'grabbing' exactly while dragging, 'crosshair' exactly when not dragging with a selected corner, 'grab' otherwise |
| CanvasView.ButtonZoomIn | frontend/src/components/Canvas.tsx:162 | the zoom becomes zoom + 0.25 capped at 5, through setZoom |
| CanvasView.ButtonZoomOut | frontend/src/components/Canvas.tsx:172 | the zoom becomes zoom - 0.25 floored at 0.1, through setZoom |
| CanvasView.ButtonsAreToolbarWithQuarterStep | frontend/src/components/Canvas.tsx:162-172 | the canvas buttons coincide with the toolbar's zoom actions when the zoom step is 0.25 |
| CanvasView.CornerReadout | frontend/src/components/Canvas.tsx:201-210 | shown only with both a selection and a crop area; it labels corner index + 1 and shows that corner's coordinates (TL, TR, BR, BL order) rounded by Math.round; an index outside 0..3 is a lookup fault |
| Magnifier.LoupePosition | frontend/src/components/Magnifier.tsx:166-176 | the loupe sits at (mouse.x + 30, mouse.y - 230), moving to mouse.x - 230 when its right edge would pass the window width and to mouse.y + 30 when its top would be negative |
| Magnifier.LoupeClearsPointer | frontend/src/components/Magnifier.tsx:166-176 | wherever it is placed, the 200 px loupe stays at least 30 px clear of the pointer on each axis |
| Magnifier.LoupeAxesIndependent | frontend/src/components/Magnifier.tsx:171-176 | the horizontal choice depends only on the pointer's x and the window width, the vertical one only on the pointer's y |
| Magnifier.BaseScale | frontend/src/components/Magnifier.tsx:60-63 | the aspect-fit scale of the image on the main canvas is positive |
| Magnifier.ImagePositionIgnoresView | frontend/src/components/Magnifier.tsx:59-85 | for any non-zero zoom and any offset, the cursor's image position is (canvasPos - base image origin) / baseScale: zoom and offset cancel |
| Magnifier.ZoomRadius | frontend/src/components/Magnifier.tsx:88 | the radius is positive and radius x baseScale = 25, i.e. 200 / (2 x 4 x baseScale) |
| Magnifier.SourceWindowBounds | frontend/src/components/Magnifier.tsx:89-95 | the source window starts at or after 0, is at most 2r long and ends inside the image; it is exactly 2r long when the image is at least that large; it is never empty, so the image is always drawn |
| Magnifier.CornerMarker | frontend/src/components/Magnifier.tsx:105-151 | a marker appears only for a selected corner of an existing crop area, exactly when that corner's image position lies in the source window; it is labelled index + 1 and its loupe coordinates lie in [0, 200] |
| Magnifier.MarkerInLoupe | frontend/src/components/Magnifier.tsx:134-135 | a position inside a window of positive length maps into [0, 200] |
| Magnifier.RenderMagnifier | frontend/src/components/Magnifier.tsx:34-164 | nothing is drawn exactly when the loupe is hidden; without the image or the main canvas only the clear happens; otherwise the frame shows the source window around the cursor's image position and the selected corner's marker |
| Magnifier.MagnifierIgnoresView | frontend/src/components/Magnifier.tsx:71-135 | the loupe's frame is the same for every non-zero zoom and every pan offset of the main canvas |
| Preview.AxisZoomCancels | frontend/src/components/PreviewModal.tsx:69-109 | on one axis, pushing the corner and the image origin through zoom and offset, subtracting and dividing by the displayed size gives (p - baseDisplay) / baseScale for every non-zero zoom |
| Preview.ConvertPoint | frontend/src/components/PreviewModal.tsx:98-116 | each converted corner is an integer pair inside [0, width] x [0, height], since rounding comes before clamping |
| Preview.ConvertCropArea | frontend/src/components/PreviewModal.tsx:91-116 | exactly four points, TL, TR, BR, BL in that order, each the conversion of its corner and inside the image, so the list passes validateCoordinates |
| Preview.ConversionIgnoresView | frontend/src/components/PreviewModal.tsx:57-116 | each corner becomes round((p - baseDisplayXY) / baseScale) clamped into the image, whatever the zoom and offset, so the request equals the one for the unzoomed, unpanned view |
| Preview.NativeSizeIsIdentity | frontend/src/components/PreviewModal.tsx:58-115 | on a canvas of the image's own size, a whole-pixel corner inside the image is sent unchanged under any view |
| Preview.NativeAxisIsIdentity | frontend/src/components/PreviewModal.tsx:108-115 | with scale 1 and no margin, a whole-pixel coordinate in [0, size] comes back as itself |
| Preview.DefaultCropAreaScenario800x600 | frontend/src/components/PreviewModal.tsx:57-116 | the default crop area of an 800x600 image on an 800x600 canvas is sent as (60,60), (740,60), (740,540), (60,540) under any view |
| Preview.GeneratePreview | frontend/src/components/PreviewModal.tsx:35-136 | when closed or without a crop area the URL, confirmation flag and size are reset; a request is sent exactly when open with a crop area and a fetched size, and it carries the converted corners; success shows the URL and the confirmation, any failure sets the preview error and nothing else in the store |
| Preview.FailureMessage | frontend/src/components/PreviewModal.tsx:205-211 | the error text is never empty: the server's message when present and non-empty, the fixed failure text otherwise, and the confirm-failed text when the request threw |
| Preview.HandleConfirmCrop | frontend/src/components/PreviewModal.tsx:139-215 | a no-op without an image, a crop area or a fetched size; otherwise the converted corners are sent, the modal closes exactly on success with the image marked completed, and any failure sets an error without touching the image |
| Preview.PreviewAndConfirmAgree | frontend/src/components/PreviewModal.tsx:57-192 | a confirm after a preview that fetched the size sends exactly the corners the preview sent for the same view and canvas |
| Preview.ConfirmMarksCurrentCompleted | frontend/src/components/PreviewModal.tsx:199-203 | a successful confirm marks the current image completed and leaves the rest of it, the view and the error unchanged |
| Interaction.CropAreaPoints | frontend/src/hooks/useCanvasInteraction.ts:25-33 | no points without a current image or crop area, otherwise the four corners in TL, TR, BR, BL order |
| Interaction.FirstHitFrom | frontend/src/hooks/useCanvasInteraction.ts:62-69 | the result is the least index from k on whose point is within the threshold, or none when no such index exists |
| Interaction.FirstHit | frontend/src/hooks/useCanvasInteraction.ts:62-69 | the hit is the first corner in list order within the threshold; there is none exactly when every corner is farther |
| Interaction.ScreenDistanceScales | frontend/src/utils/geometry.ts:31-45 | canvasToScreen multiplies squared distances by zoom squared |
| Interaction.HitRadiusIsScreenConstant | frontend/src/hooks/useCanvasInteraction.ts:58-65 | for zoom > 0 the canvas test against 15 / zoom accepts a corner exactly when the pointer is within 15 screen pixels of where the corner is drawn |
| Interaction.MouseDownStep | frontend/src/hooks/useCanvasInteraction.ts:52-92 | nothing happens without a canvas or a current image; otherwise dragging starts in both the hook and the store, only the view changes, and the first corner hit is selected with the canvas position remembered, or, with no hit, the selection is cleared and a pan starts from the screen position and the current offset |
| Interaction.UpdateCropAreaPoint | frontend/src/hooks/useCanvasInteraction.ts:35-50 | the point is clamped to the canvas and written into corner index of the crop area (the default one when there is none) through updateImage; an index outside 0..3 writes nothing new; without a current image nothing changes |
| Interaction.MouseMoveStep | frontend/src/hooks/useCanvasInteraction.ts:94-122 | no drag: nothing changes; a selected corner receives the pointer's canvas position; otherwise the offset becomes the offset at mouse-down plus the pointer's travel in screen pixels |
| Interaction.MouseUpStep | frontend/src/hooks/useCanvasInteraction.ts:124-130 | with a drag active it ends it, clearing isDragging and the selection and touching nothing else; otherwise nothing changes |
| Interaction.WheelZoom | frontend/src/hooks/useCanvasInteraction.ts:142-143 | the new zoom always lies in [0.1, 5] |
| Interaction.WheelStep | frontend/src/hooks/useCanvasInteraction.ts:132-154 | without a canvas nothing changes; otherwise setZoom with the clamped zoom and setOffset with the cursor-anchored offset, leaving zoom in [0.1, 5] |
| Interaction.WheelKeepsCursorFixed | frontend/src/hooks/useCanvasInteraction.ts:146-153 | the canvas point under the cursor before the wheel event is drawn under the cursor afterwards |
| Interaction.WheelDirection | frontend/src/hooks/useCanvasInteraction.ts:142 | deltaY = 0 never zooms out and any positive deltaY never zooms in, for a zoom in [0.1, 5] |
| Interaction.PanForgetsIntermediateMoves | frontend/src/hooks/useCanvasInteraction.ts:105-114 | during a pan the offset depends only on the state at mouse-down and the latest pointer position, and the images are untouched |
| Interaction.PanFollowsPointer | frontend/src/hooks/useCanvasInteraction.ts:77-114 | a mouse-down that hits no corner followed by a move shifts the offset by exactly the pointer's screen travel, whatever the zoom |
| Interaction.CornerDragWritesOneCorner | frontend/src/hooks/useCanvasInteraction.ts:35-104 | a corner drag writes constrainPoint(screenToCanvas(pointer)) into the selected corner, keeps the other three corners, the view and the image's other fields |
| Interaction.IdleMoveIsNoOp | frontend/src/hooks/useCanvasInteraction.ts:95 | a move with no drag active changes nothing |
| Interaction.PressAndRelease | frontend/src/hooks/useCanvasInteraction.ts:52-130 | after any mouse-down on a canvas with an image the cursor is 'grabbing'; after the release it is 'grab' and no drag is active |
| Interaction.UpdateKeepsCropInCanvas | frontend/src/hooks/useCanvasInteraction.ts:39-49 | a corner write keeps a crop area that was inside the canvas inside it |
| Interaction.StepPreservesValid | frontend/src/hooks/useCanvasInteraction.ts:52-154 | every event (pointer, wheel, zoom buttons, reset) keeps zoom in [0.1, 5] and the crop area inside the canvas |
| Interaction.StepMirrorsDragFlag | frontend/src/hooks/useCanvasInteraction.ts:74-128 | the store's isDragging flag stays equal to the hook's dragging ref across every event except a reset during a drag |
| Interaction.ResetMidDragLeavesRefSet | frontend/src/store/useAppStore.ts:113 | resetting the view during a drag clears the store's isDragging flag while the hook's ref stays set, so later moves still act |
| LegacyEditor.UpdateScale | html_templates.py:1247-1272 | scale = baseScale x zoomFactor, and the offset puts the scaled image's centre on the canvas centre shifted by the pan offset; factor and pan are kept |
| LegacyEditor.UpdateScaleIdempotent | html_templates.py:1247-1263 | updateScale changes nothing in a view it has already refreshed |
| LegacyEditor.Midpoints | html_templates.py:1433-1445 | four edge handles, one per edge |
| LegacyEditor.MidpointFacts | html_templates.py:1433-1445 | edge handle i is the midpoint of corners i and (i + 1) mod 4, equally far from both, and moves with the quadrilateral when it is translated |
| LegacyEditor.RefreshEdges | html_templates.py:1433-1445 | the corners are kept and the edge handles become their midpoints; with no corners the handles stay as they were |
| LegacyEditor.Remap | html_templates.py:1315-1325 | every corner carried from the old scale and offset to the new ones keeps its image coordinate (p - offset) / scale |
| LegacyEditor.RemapKeepsImagePosition | html_templates.py:1318-1323 | one carried corner has the same image coordinate under the new scale and offset as under the old ones |
| LegacyEditor.RemapIdentity | html_templates.py:1274-1284 | carrying corners to an unchanged scale and offset leaves them where they are |
| LegacyEditor.CarryCorners | html_templates.py:1315-1325 | corners exist afterwards exactly when they did before; an old scale of 0 skips the loop; otherwise every corner keeps its image coordinate |
| LegacyEditor.AnchoredOffsetFixesAnchor | html_templates.py:1893-1910 | at the new scale the anchored offset shows the same image point under the anchor as before |
| LegacyEditor.ZoomView | html_templates.py:1897-1918 | the factor and scale take the new values, the pan offset is stored relative to the centred position so that updateScale lands on the anchored offset, and the view is fresh |
| LegacyEditor.ZoomAbout | html_templates.py:1893-1937 | zooming about an anchor leaves the pointer state and the layout alone |
| LegacyEditor.ZoomAboutKeepsAnchor | html_templates.py:1893-1937 | after zooming about an anchor the anchor shows the same image point and every corner keeps its image coordinate |
| LegacyEditor.WheelFactor | html_templates.py:1881-1885 | scrolling up never yields a factor above 5, any other scroll never one below 0.2 |
| LegacyEditor.WheelFactorInRange | html_templates.py:1881-1885 | for a step of at least 1 the factor stays in [0.2, 5]; scrolling up never lowers it and any other scroll never raises it |
| LegacyEditor.Wheel | html_templates.py:1867-1938 | an unchanged factor returns with no change at all; otherwise the new factor is the wheel's target |
| LegacyEditor.ZoomAtCenter | html_templates.py:1941-1996 | a target outside [0.2, 5] is ignored entirely; otherwise the factor becomes the target |
| LegacyEditor.ButtonsIgnoreOutOfRange | html_templates.py:1942-1944 | at factor 4 with the default step 1.4 the zoom-in button does nothing, while the wheel caps the same step at 5 |
| LegacyEditor.ResetView | html_templates.py:1303-1327 | factor 1, no pan and the centred offset |
| LegacyEditor.ResetZoom | html_templates.py:1298-1330 | the view becomes the reset view; corners exist afterwards exactly when they did; the layout and pointer are untouched |
| LegacyEditor.ResetZoomKeepsImagePositions | html_templates.py:1315-1325 | after a reset every corner keeps its image coordinate |
| LegacyEditor.ResetZoomIdempotent | html_templates.py:1298-1330 | a second reset changes nothing |
| LegacyEditor.ResetPoints | html_templates.py:1332-1359 | nothing happens unless the image is loaded with a non-zero size; a non-positive scale is recomputed first and a positive one leaves the view alone; the corners are set and the edge handles are their midpoints |
| LegacyEditor.ResetPointsInsetTenPercent | html_templates.py:1344-1354 | the reset corners are the image points (0.1w, 0.1h), (0.9w, 0.1h), (0.9w, 0.9h), (0.1w, 0.9h) drawn at the current scale and offset |
| LegacyEditor.ApplyDetection | html_templates.py:1377-1430 | a failed detection resets the points; a successful one places the detected image corners on the canvas at the current scale and offset, refreshes the edge handles and leaves the view alone |
| LegacyEditor.StrictlyNearMatchesDistance | html_templates.py:1722-1736 | the squared-distance test holds exactly when the true distance is strictly below 15 |
| LegacyEditor.StrictHitFrom | html_templates.py:1719-1743 | the result is the first index from k on strictly within 15 px, or none when every later point is farther |
| LegacyEditor.PressShape | html_templates.py:1713-1750 | corners are checked before edge handles, each in index order, and the first index strictly within 15 px wins; otherwise panning starts at the press point; nothing else in the pointer state changes |
| LegacyEditor.MouseDown | html_templates.py:1713-1750 | without a corner list the handler fails and nothing changes; otherwise the press is matched against the shape |
| LegacyEditor.MoveEdge | html_templates.py:1998-2075 | corners i and (i + 1) mod 4 move by the same shift and the other two stay |
| LegacyEditor.MoveEdgeIsParallel | html_templates.py:2003-2018 | the moved edge keeps its vector, the shift is perpendicular to it, and the pointer lies on the line through the shifted handle parallel to the edge |
| LegacyEditor.PanMove | html_templates.py:1792-1817 | the pan offset grows by the pointer's travel, the scale is refreshed, every corner shifts by the same travel and the pan start moves to the pointer |
| LegacyEditor.DragShape | html_templates.py:1821-1832 | a corner drag writes the pointer into that corner unclamped; an edge drag moves that edge; without corners nothing changes; whenever the shape changes the edge handles are refreshed |
| LegacyEditor.MouseMove | html_templates.py:1752-1835 | an idle move changes nothing; a pan takes priority over a drag; otherwise the drag acts on the shape only |
| LegacyEditor.PanKeepsImagePositions | html_templates.py:1792-1812 | in a fresh view a pan move shifts the image offset by the pointer's travel, so every corner keeps its image coordinate |
| LegacyEditor.PanForgetsIntermediateMoves | html_templates.py:1792-1812 | two pan moves in a row end where one move to the second point ends |
| LegacyEditor.MouseUp | html_templates.py:1837-1864 | no drag and no pan afterwards, with the view and the shape unchanged |
| LegacyEditor.CropPoints | html_templates.py:2154-2178 | with corners there are exactly four points, each corner's image coordinate clamped into [0, w] x [0, h]; without corners there is nothing to send |
| LegacyEditor.CropCheckNeverRejects | html_templates.py:2162-2193 | the validity check after the conversion always passes, and a corner already inside the image is sent at its exact image coordinate |
| LegacyEditor.Loaded | html_templates.py:1119-1153 | the fit scale puts the image inside the canvas less 40 px with one side touching; the factor is 1, there is no pan and no corners, and the view is fresh |
| LegacyEditor.LoadedIsValid | html_templates.py:1119-1153 | a canvas larger than the padding and a step of at least 1 give a start that satisfies the editor invariant |
| LegacyEditor.ZoomAboutPreservesValid | html_templates.py:1893-1937 | zooming about any anchor to a factor in [0.2, 5] keeps the editor invariant |
| LegacyEditor.StepPreservesValid | html_templates.py:1713-1996 | every event keeps the factor in [0.2, 5], the view fresh and the edge handles at the corners' midpoints |
| ImageProcessor.ArgMin | image_processor.py:16-19 | the index holds a least key, and every earlier index holds a strictly larger one (np.argmin's first minimum) |
| ImageProcessor.ArgMax | image_processor.py:17-20 | the index holds a greatest key, and every earlier index holds a strictly smaller one (np.argmax's first maximum) |
| ImageProcessor.ArgMinIsUnique | image_processor.py:16-19 | any index with both of those properties is the one np.argmin returns |
| ImageProcessor.ArgMaxIsUnique | image_processor.py:17-20 | any index with both of those properties is the one np.argmax returns |
| ImageProcessor.OrderPointsAsWritten | image_processor.py:9-21 | every output is one of the inputs; rect[0] and rect[2] have the least and greatest x + y, rect[1] and rect[3] the least and greatest y - x |
| ImageProcessor.DiamondSums | image_processor.py:15-17 | on a diamond listed left, top, right, bottom, the first least x + y is the left point and the first greatest is the right one |
| ImageProcessor.DiamondDiffs | image_processor.py:18-20 | on the same diamond the first least y - x is the top point and the first greatest is the left one |
| ImageProcessor.OrderPointsAsWrittenRepeatsAPoint | image_processor.py:9-21 | on every such diamond top-left and bottom-left are the same input and the bottom point is lost |
| ImageProcessor.OrderPointsAsWrittenLosesPoint | image_processor.py:9-21 | (0,5), (5,0), (10,5), (5,10) comes back with top-left = bottom-left and without (5,10) |
| ImageProcessor.OrderPointsAsWrittenOnRectangle | image_processor.py:9-21 | an axis-aligned rectangle given in any order comes back as TL, TR, BR, BL |
| ImageProcessor.OrderQuad | image_processor.py:10-12 | the corrected ordering: top-left has the least x + y, bottom-right the greatest among the rest, and of the two others top-right has the smaller y - x |
| ImageProcessor.OrderQuadPermutes | image_processor.py:10-12 | the corrected ordering is a permutation of the four inputs |
| ImageProcessor.OrderQuadKeepsDiamonds | image_processor.py:10-12 | the corrected ordering returns every diamond as left, top, right, bottom, losing no point |
| ImageProcessor.OrderQuadKeepsPoint | image_processor.py:10-12 | on (0,5), (5,0), (10,5), (5,10) the corrected ordering keeps all four points |
| ImageProcessor.OrderQuadOnRectangle | image_processor.py:9-21 | on axis-aligned rectangles the corrected ordering agrees with the code: TL, TR, BR, BL |
| ImageProcessor.ValidateAndCorrect | image_processor.py:61-85 | the same number of points in the same order, each clamped into [0, width] x [0, height] |
| ImageProcessor.ValidateAndCorrectFacts | image_processor.py:73-85 | the corrected points lie in the image, points already inside are kept, and a second pass changes nothing |
| ImageProcessor.FitWithin | image_processor.py:99-113 | nothing changes when both sides fit; otherwise the longer side becomes the limit (a square takes the height branch) and the other is int(side x limit / longer) |
| ImageProcessor.ShrinkSide | image_processor.py:104-107 | the result q is the truncated quotient: q x longer <= side x limit < (q + 1) x longer |
| ImageProcessor.FitWithinBounds | image_processor.py:99-113 | a shrunk image fits in limit x limit, and no side ever grows |
| ImageProcessor.ShrinkBound | image_processor.py:104-107 | the truncated shorter side is at most the limit, and it does not grow when the limit is at most the longer side |
| ImageProcessor.DetectionSizeCanCollapse | image_processor.py:155-162 | a 1000 x 2 image shrinks to 400 x 0 for detection |
| ImageProcessor.SmartDefaultsAreValid | image_processor.py:380-402 | for a non-empty image the defaults, inset 8% horizontally and 12% vertically, are four distinct corners inside it |
| ImageProcessor.SmartDefaultsAreOrdered | image_processor.py:397-402 | the defaults are already in TL, TR, BR, BL order: the corrected ordering leaves them unchanged |
| ImageProcessor.AreaScore | image_processor.py:307 | the area term lies in [0, 1] and is 1 exactly for ratios strictly between 0.1 and 0.9 |
| ImageProcessor.AreaScoreAtBandEdges | image_processor.py:307 | at ratio 0.1 and 0.9 the term is 0.2 while just inside the band it is 1 |
| ImageProcessor.CornerConfidence | image_processor.py:310-312 | the confidence lies in [0, 1] and equals 0.4 diagonal + 0.3 centre + 0.3 area whenever that sum is in [0, 1] |
| ImageProcessor.PerfectDetectionScoresOne | image_processor.py:307-312 | equal diagonals, a centred shape and an area in the band score exactly 1 |
| ImageProcessor.ChosenIsUnique | image_processor.py:203-240 | at most one candidate is the first eligible one of greatest positive confidence |
| ImageProcessor.SelectBest | image_processor.py:203-240 | the loop picks the first eligible candidate of greatest positive confidence, and picks none exactly when no eligible candidate scores above 0 |
| ImageProcessor.ScalePoints | image_processor.py:224-227 | each contour point is scaled by scale_x and scale_y, in order |
| ImageProcessor.TopContours | image_processor.py:206 | at most ten contours, a prefix of the list, and all of them when there are at most ten |
| ImageProcessor.FinishFacts | image_processor.py:253-261 | the final corners lie in the image; the confidence is 0.1 exactly when there was no candidate or one below 0.2, and then the corners are the smart defaults; otherwise the candidate's clamped corners and its confidence of at least 0.2 |
| ImageProcessor.RefineCorners | image_processor.py:318-377 | the same number of corners, each either kept or replaced by its own sub-pixel result |
| ImageProcessor.RefineWithoutResultsKeepsCorners | image_processor.py:318-377 | with no sub-pixel result (too small a window everywhere, or the except branch) the corners come back unchanged |
| ImageProcessor.DetectionAsWrittenLosesCorner | image_processor.py:230 | the detector as written, on the diamond contour (0,5), (5,0), (10,5), (5,10) at scale 1 and confidence 0.25, returns the same corner first and last and drops (5,10) |
| ImageProcessor.CorrectedCandidatePermutes | image_processor.py:221-233 | with the corrected ordering, an unrefined candidate's corners are the chosen contour's scaled points in some order |
| ImageProcessor.PickedCandidateFacts | image_processor.py:242-250 | the chosen contour's candidate is below 0.2 exactly when the contour's confidence is, stays at most 1 when the contour's does, and is the contour's scaled and ordered points, refined with 0.1 more confidence capped at 1 above 0.3 |
| ImageProcessor.FinishPickedFacts | image_processor.py:242-261 | steps 3 to 5 on the chosen contour: four corners in the image, never the except-branch fallback, the smart defaults at 0.1 exactly when there is no pick or its confidence is below 0.2, and otherwise the pick's ordered (refined above 0.3) corners clamped |
| ImageProcessor.AutoDetect | image_processor.py:130-274 | four corners always; the 1920 x 1080 defaults at 0.0 exactly for an unreadable image or a detection copy with a zero side; otherwise the loop's pick is the first best eligible contour, the corners lie in the image, the smart defaults at 0.1 appear exactly when there is no pick or its confidence is below 0.2, a pick of 0.2 to 0.3 gives its scaled and ordered points clamped, a pick above 0.3 gives those points refined and clamped with 0.1 more confidence capped at 1, and the confidence stays at most 1 when every contour's does; the AsWritten ordering is order_points |
| ImageProcessor.ElongatedImageFallsBack | image_processor.py:155-169 | a 1000 x 2 image falls into the except branch and gets the 1920 x 1080 defaults, which lie outside it |
| Server.Lower | main.py:166 | the lower-cased name has the same length and each character lower-cased on its own |
| Server.LowerIdempotent | main.py:166 | lower-casing twice is lower-casing once |
| Server.ImageFiles | main.py:166 | exactly the listing entries whose lower-cased name ends in .jpg, .jpeg, .png or .bmp, never more entries than the listing |
| Server.LastIndex | main.py:339 | the index of the last occurrence of the character, or -1 when there is none |
| Server.AfterLastDot | main.py:339 | the text after the last dot contains no dot and is either the whole name or what follows name[..k] + "." |
| Server.SplitExt | main.py:417 | root + ext is the name; the extension is empty or starts with a dot and holds no further dot or separator |
| Server.ExtensionStart | main.py:417 | the cut is -1 or a dot with neither dot nor separator after it |
| Server.SplitExtWithoutDot | main.py:417 | a name without a dot has no extension |
| Server.Decimal | main.py:430-432 | the decimal text of the seconds is non-empty digits without a leading zero |
| Server.DecimalRoundTrip | main.py:430-432 | reading the printed digits back gives the number |
| Server.OutputName | main.py:417-418 | the output name is the stem followed by "_cropped.jpg" |
| Server.OutputNameIsJpeg | main.py:417-418 | splitext of the output name gives stem + "_cropped" and ".jpg", whatever the input's extension |
| Server.ProcessedName | main.py:426-433 | a free name is kept; a taken one changes and grows by "_" and the digits of the time stamp |
| Server.ProcessedNameRoundTrip | main.py:429-433 | cutting the "_" and the digits out of a renamed file gives back the original name and the time stamp |
| Server.MediaTypeOf | main.py:339-347 | image/png, image/bmp and image/gif exactly for the lower-cased extensions png, bmp and gif; image/jpeg for everything else |
| Server.MediaTypeIgnoresCase | main.py:339 | the media type does not depend on the case of the name |
| Server.EndsWithDotSuffix | main.py:166 | a name ends in "." + e (e without dots) exactly when it has a dot and the text after its last dot is e |
| Server.ImageNameHasDot | main.py:166 | every listed image's lower-cased name contains a dot |
| Server.ListedPngIsServedAsPng | main.py:339-347 | a listed image is served as image/png exactly when its name ends in .png in any case |
| Server.ListedBmpIsServedAsBmp | main.py:339-347 | a listed image is served as image/bmp exactly when its name ends in .bmp in any case |
| Server.ListedImageIsNeverGif | main.py:339-347 | no listed image is served as image/gif |
| Server.FloorDiv | main.py:171 | Python's // rounds towards negative infinity: q x b <= a < q x b + b for b > 0, the mirror image for b < 0 |
| Server.SliceIndex | main.py:172-174 | a slice bound as Python resolves it: at most n, and a non-negative bound is clipped to n |
| Server.PySlice | main.py:174 | a slice is never longer than the list |
| Server.CompletionRate | main.py:208-209 | the rate lies in [0, 100]; it is 100 exactly when nothing is pending and 0 exactly when something is pending and nothing is done |
| Server.Readable | main.py:178-202 | the page entries imread can read, no more entries than the page |
| Server.PageCount | main.py:171 | total_pages is the least page count whose pages hold every file |
| Server.Paginate | main.py:161-224 | a zero page size fails (the division raises); otherwise total_pages = ceil(total / page_size), has_prev iff page > 1, has_next iff page < total_pages, the totals count pending plus processed files and the pending list is the readable part of the page slice |
| Server.PageIsARun | main.py:172-174 | from page 1 on, a page is the contiguous run files[(page - 1) x ps : page x ps] clipped to the list, at most page_size long |
| Server.EveryFileHasItsPage | main.py:170-174 | file i is on page i / page_size + 1 at position i % page_size, and that page is within total_pages |
| Server.HasNextIffNextPageNonEmpty | main.py:171-219 | from page 0 on, has_next holds exactly when the next page has files |
| Server.PageZeroIsEmpty | main.py:172-174 | page 0 slices [-page_size : 0], which is empty |
| Server.ListAll | main.py:226-273 | every readable listed image, with the completion rate over readable pending plus processed files |
| Server.CompletionRatesAgreeWhenAllReadable | main.py:208-263 | with some processed files, the two listing routes report the same rate exactly when every pending file is readable |
| Server.RateStrictlyFalls | main.py:209 | with some files done, more pending files give a strictly lower rate |
| Server.LeastName | main.py:546 | sorted(files)[0] is one of the files and precedes every other in string order |
| Server.RemoveFirst | main.py:534-535 | list.remove takes out exactly one occurrence when the name is present and changes nothing otherwise |
| Server.NextFile | main.py:519-560 | a failed listing, an empty listing, or nothing left after dropping the current file gives failure with 0 remaining; otherwise success with the least remaining name and the number of names left |
| Server.NextFileIsTheLeast | main.py:546 | any least name of what is left is the one returned |
| Server.NextFileSkipsCurrent | main.py:534-550 | in a listing without duplicates the current file is never offered again and one fewer file remains |
| Server.ToPoints | main.py:370 | each well-formed request pair becomes one point, in order |
| Server.PreviewAsWritten | main.py:350-387 | 404 for a missing file, 400 for a point count other than 4, and a JPEG exactly when the image reads, the points are pairs and encoding succeeds |
| Server.PreviewAsWrittenHidesBadImage | main.py:360-387 | an unreadable image is reported as 500: the route's own 400 is caught by the generic handler |
| Server.Preview | main.py:360-363 | the corrected route answers 400 for an unreadable image and otherwise as written |
| Server.PreviewClientErrors | main.py:354-363 | the corrected preview answers 400 exactly for a wrong point count or an unreadable file of an existing name |
| Server.PreviewFits | main.py:365-383 | a successful preview uses four corners inside the image and its picture fits in 800 x 800 |
| Server.Crop | main.py:390-445 | not found exactly for a missing file; a failure exactly for a wrong point count, an unreadable image or a point that is not a pair; on success four clamped corners inside the image, the output name stem + "_cropped.jpg", and a processed name equal to the input exactly when that name was free |
| Server.ImageInfoAsWritten | main.py:458-483 | 404 for a missing file; the width, height and size exactly when the image reads |
| Server.ImageInfoAsWrittenHidesBadImage | main.py:465-483 | an unreadable image is reported as 500, not as the route's own 400 |
| Server.ImageInfo | main.py:466-468 | the corrected route answers 400 for an unreadable image and otherwise as written |
| Server.ImageInfoClientErrors | main.py:466-468 | the corrected route answers 400 exactly for an existing file that cannot be read |
| Server.DetectRoute | main.py:486-516 | 404 exactly for a missing file; otherwise four corners, with the percentage message exactly when the confidence is above 0.3; an unreadable image or a collapsed detection copy reports the 1920 x 1080 defaults at 0.0; otherwise every corner lies in the image, the confidence is at least 0.1, and with no eligible contour the reply is the smart defaults at 0.1 with the low-confidence message |
| Progress.FillWidth | frontend/src/components/ProgressBar.tsx:49 | the fill width lies in [0, 100], equals the value inside that range, 0 below it and 100 above it |
| Progress.FillWidthIdempotentAndMonotone | frontend/src/components/ProgressBar.tsx:49 | clamping twice is clamping once, and a larger value never gives a narrower fill |
| Progress.PendingFiles | frontend/src/components/ProgressBar.tsx:32 | pending + completed + processing + errors is the total, with no clamping |
| Progress.PendingFilesNonNegative | frontend/src/components/ProgressBar.tsx:32 | the pending count is not negative while the other three counts fit in the total |
| Progress.PendingFilesCanGoNegative | frontend/src/components/ProgressBar.tsx:32 | counts that overshoot the total show a negative pending tile: total 1, completed 1, error 1 gives -1 |
| Progress.StatusOf | frontend/src/components/ProgressBar.tsx:52-57 | no files exactly for total 0; all done exactly for completed = total otherwise; processing exactly when neither and processing > 0; waiting in every other case |
| Progress.StatusAgreesWithCounts | frontend/src/components/ProgressBar.tsx:32-57 | with consistent counts, all done means nothing processing, failed or pending; waiting means nothing processing and something pending or failed; no files means all counts are 0 |
| Progress.ThemeColour | frontend/src/components/ProgressBar.tsx:35-46 | blue is used exactly for the default theme; the other three themes get green, yellow and red |
| Progress.ThemeColourInjective | frontend/src/components/ProgressBar.tsx:35-46 | different themes give different colours |
| Progress.Tiles | frontend/src/components/ProgressBar.tsx:82-120 | no tiles without details; otherwise total and completed first and pending last, with the processing and error tiles present exactly when their counts are positive, and no tile twice |
| Progress.ChunkArray | frontend/src/utils/progressDemo.ts:89-95 | for size >= 1 the chunks laid end to end give back the input, each chunk is non-empty and at most size long, all but the last are exactly size long, and there are ceil(n / size) of them, none for an empty input |

## Left out

- DOM, React and browser plumbing is not modelled. This covers listeners, effects, JSX, `getBoundingClientRect`, `document.querySelector`, image decoding and its timeout, `canvasToBlob` and `createImageFromFile`. The canvas rectangle, canvas sizes and load outcomes are parameters.
- File-system and HTTP effects in main.py are parameters. This covers listdir, imread, getsize, ctime, shutil.move, FileResponse, thumbnails and `cv2.imwrite` errors. A directory listing is a sequence of names in listing order, so the ctime sort is taken as that order, and an unreadable image is `None`.
- Messages and log lines are tags, not text. This covers the Chinese status strings, `print` output and HTTP detail strings. The progress theme's CSS classes are colour tags.
- OpenCV work is taken as input, not computed. This covers `four_point_transform`'s warp (only the warped size enters), `cv2.resize`, `imencode`, Canny and contour search, `contourArea`, `approxPolyDP`, and the square-root terms of `calculate_corner_confidence`. Which corners `cornerSubPix` moves in `refine_corners_subpixel`, and where to, is an input with one optional point per corner.
- Floating point is not modelled: coordinates are exact reals, NaN and Infinity do not arise, and the float32 cast in `order_points` is dropped. Where the source would divide by zero, the member requires a non-zero divisor instead: a zero zoom, a zero scale, a zero-size canvas or image, a zero-length legacy edge, or a zero wheel step. The editors never reach these states from their starting states, as `Interaction.StepPreservesValid` and `LegacyEditor.StepPreservesValid` show.
- The legacy editor's `moveEdgePoint` on a zero-length edge writes NaN into the corners. The model's legacy step leaves the corners unchanged in that case.
- `Server.Lower` lower-cases ASCII letters only. Python's `str.lower` also folds other scripts, which cannot change the four extensions the listing filters on.
- `Progress.ChunkArray` requires size >= 1, because `chunkArray` loops forever for any smaller size.
- The rest of progressDemo.ts is not modelled: timers, `Math.random`, `Promise.all`, and calls to store actions the store does not define.
- `drawImageOnCanvas` and `loadImage` in imageProcessing.ts are not modelled. They are image-loading plumbing with no geometry of their own.
- The legacy script's HTML/CSS builders, fetch chains, status HTML, magnifier drawing, hover cursors and localStorage zoom-step persistence are not modelled. Only its geometry and event handling are.
- frontend/src/services/api.ts is not modelled. It is a network client, and its only logic, the TL, TR, BR, BL point order, is `CoordinateTransform.ConvertCropAreaToImageCoordinates`.
- SettingsPanel.tsx, ImageUpload.tsx, DevTools.tsx, ImageDebugger.tsx and App.tsx are not modelled. They are forms and layout.
- `generateId` (time and randomness) and `formatFileSize` (logarithms) are not modelled.
- `ImageProcessor.OrderPointsAsWritten` requires a non-empty point list: `np.argmin` raises on an empty array.
- `ImageProcessor.OrderQuad` requires exactly four points. It is the corrected ordering, and the corrected detector only calls it on four-point approximations.
- `Geometry.FromCorners` and `CoordinateTransform.ConvertImageCoordinatesToCropArea` require at least four points. With fewer, the source reads `undefined` and produces NaN corners.
- `Server.ToPoints` requires two-element pairs. A malformed pair makes the routes answer with their generic failure, which `Server.PreviewAsWritten` and `Server.Crop` model.
- `Server.LeastName` requires a non-empty list, because `sorted(files)[0]` raises on an empty one. `Server.NextFile` checks for emptiness before calling it.
- `LegacyEditor.PressShape` requires the corner list to exist. `LegacyEditor.MouseDown` models the handler failing when it does not.
- The magnifier, preview and display-info members require positive canvas and image sizes. A loaded image always has them, and with zero sizes the source divides by zero.

## Findings

| source | as written | input that shows it | evidently intended | confidence | as-written member | corrected member |
|---|---|---|---|---|---|---|
| image_processor.py:9-21 | `order_points` picks top-right and bottom-left by the least and greatest y - x, each by argmin/argmax on its own, so one input can be chosen twice | the diamond (0,5), (5,0), (10,5), (5,10): top-left and bottom-left are both (0,5) and (5,10) is lost | four corners that are a permutation of the four inputs | not executed | `ImageProcessor.OrderPointsAsWritten`, shown by `ImageProcessor.OrderPointsAsWrittenLosesPoint` and `ImageProcessor.OrderPointsAsWrittenRepeatsAPoint` | `ImageProcessor.OrderQuad`, proved by `ImageProcessor.OrderQuadPermutes` and `ImageProcessor.OrderQuadKeepsPoint`; `ImageProcessor.AutoDetect` with the Corrected ordering uses it (`ImageProcessor.CorrectedCandidatePermutes`), while the AsWritten ordering, which `Server.DetectRoute` uses, loses the corner (`ImageProcessor.DetectionAsWrittenLosesCorner`) |
| main.py:360-387 | the preview route raises its own 400 for an unreadable image inside a `try` whose `except Exception` turns it into a 500 | an existing file that imread cannot read, with four points | the route's own 400 reaches the client | not executed | `Server.PreviewAsWritten`, shown by `Server.PreviewAsWrittenHidesBadImage` | `Server.Preview`, proved by `Server.PreviewClientErrors` |
| main.py:465-483 | the image-info route raises its own 400 for an unreadable image inside a `try` whose `except Exception` turns it into a 500 | an existing file that imread cannot read | the route's own 400 reaches the client | not executed | `Server.ImageInfoAsWritten`, shown by `Server.ImageInfoAsWrittenHidesBadImage` | `Server.ImageInfo`, proved by `Server.ImageInfoClientErrors` |
