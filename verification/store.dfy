/**
  The application store of frontend/src/store/useAppStore.ts: image list,
  current image, view state, settings and UI flags, with every reducer as a
  pure function from state to state. Object spread `{ ...a, ...b }` is modelled
  field by field: a field present in the update overwrites, an absent one keeps
  the old value. For optional record fields an update may carry an explicit
  `undefined`, which clears the field (`Some(None)` in the model).
 */
module Store {
  import opened Geometry
  import opened Wrappers

  datatype Status = Pending | Processing | Completed | Error

  datatype ImageRecord = ImageRecord(
    id: string,
    originalName: string,
    originalUrl: string,
    thumbnailUrl: Option<string>,
    processedUrl: Option<string>,
    cropArea: Option<CropArea>,
    timestamp: int,
    status: Status)

  /** Partial<ProcessedImage>: None = field not supplied. */
  datatype ImageUpdate = ImageUpdate(
    id: Option<string>,
    originalName: Option<string>,
    originalUrl: Option<string>,
    thumbnailUrl: Option<Option<string>>,
    processedUrl: Option<Option<string>>,
    cropArea: Option<Option<CropArea>>,
    timestamp: Option<int>,
    status: Option<Status>)

  const NoUpdate := ImageUpdate(None, None, None, None, None, None, None, None)

  datatype Settings = Settings(autoNext: bool, zoomStep: real, showGrid: bool, snapToGrid: bool)

  /** Partial<AppSettings>. */
  datatype SettingsUpdate = SettingsUpdate(
    autoNext: Option<bool>, zoomStep: Option<real>, showGrid: Option<bool>, snapToGrid: Option<bool>)

  datatype ViewState = ViewState(
    zoom: real, offset: Point, isDragging: bool, selectedCorner: Option<int>, isEditing: bool)

  datatype AppState = AppState(
    currentImage: Option<ImageRecord>,
    images: seq<ImageRecord>,
    viewState: ViewState,
    settings: Settings,
    isLoading: bool,
    error: Option<string>)

  const DefaultViewState := ViewState(1.0, Origin, false, None, false)
  const DefaultSettings := Settings(true, 0.1, false, false)
  const InitialState := AppState(None, [], DefaultViewState, DefaultSettings, false, None)

  /** The value an update supplies for a field, or the old value when it supplies none. */
  function Pick<T>(update: Option<T>, current: T): (r: T)
    ensures update.None? ==> r == current
    ensures update.Some? ==> r == update.value
  {
    if update.Some? then update.value else current
  }

  /** `{ ...img, ...updates }` */
  function Merge(img: ImageRecord, u: ImageUpdate): ImageRecord
  {
    ImageRecord(
      Pick(u.id, img.id), Pick(u.originalName, img.originalName), Pick(u.originalUrl, img.originalUrl),
      Pick(u.thumbnailUrl, img.thumbnailUrl), Pick(u.processedUrl, img.processedUrl),
      Pick(u.cropArea, img.cropArea), Pick(u.timestamp, img.timestamp), Pick(u.status, img.status))
  }

  /** Two updates applied in turn: the later one wins field by field. */
  function Then(first: ImageUpdate, second: ImageUpdate): ImageUpdate
  {
    ImageUpdate(
      if second.id.Some? then second.id else first.id,
      if second.originalName.Some? then second.originalName else first.originalName,
      if second.originalUrl.Some? then second.originalUrl else first.originalUrl,
      if second.thumbnailUrl.Some? then second.thumbnailUrl else first.thumbnailUrl,
      if second.processedUrl.Some? then second.processedUrl else first.processedUrl,
      if second.cropArea.Some? then second.cropArea else first.cropArea,
      if second.timestamp.Some? then second.timestamp else first.timestamp,
      if second.status.Some? then second.status else first.status)
  }

  /** Merging is idempotent, an empty update changes nothing, and two merges compose into one. */
  lemma MergeLaws(img: ImageRecord, u: ImageUpdate, v: ImageUpdate)
    ensures Merge(Merge(img, u), u) == Merge(img, u)
    ensures Merge(img, NoUpdate) == img
    ensures Merge(Merge(img, u), v) == Merge(img, Then(u, v))
  {
  }

  /** An update that supplies a status and nothing else touches only the status. */
  lemma StatusOnlyUpdate(img: ImageRecord, s: Status)
    ensures Merge(img, NoUpdate.(status := Some(s))) == img.(status := s)
  {
  }

  /** `images.filter(img => img.id !== id)` */
  function WithoutId(images: seq<ImageRecord>, id: string): (r: seq<ImageRecord>)
    ensures |r| <= |images|
    ensures forall i :: 0 <= i < |r| ==> r[i].id != id
    ensures forall x :: x in r <==> x in images && x.id != id
  {
    if |images| == 0 then []
    else if images[0].id != id then [images[0]] + WithoutId(images[1..], id)
    else WithoutId(images[1..], id)
  }

  /** The filter keeps order: filtering a concatenation is concatenating the filtered parts. */
  lemma {:induction false} WithoutIdAppend(a: seq<ImageRecord>, b: seq<ImageRecord>, id: string)
    ensures WithoutId(a + b, id) == WithoutId(a, id) + WithoutId(b, id)
    decreases |a|
  {
    if |a| == 0 {
      assert a + b == b;
    } else {
      assert (a + b)[1..] == a[1..] + b;
      WithoutIdAppend(a[1..], b, id);
    }
  }

  /** A list with no image of that id is left exactly as it was. */
  lemma {:induction false} WithoutIdAbsent(images: seq<ImageRecord>, id: string)
    requires forall i :: 0 <= i < |images| ==> images[i].id != id
    ensures WithoutId(images, id) == images
    decreases |images|
  {
    if |images| > 0 {
      WithoutIdAbsent(images[1..], id);
      assert [images[0]] + images[1..] == images;
    }
  }

  /** `images.map(img => img.id === id ? { ...img, ...updates } : img)` */
  function UpdateWhere(images: seq<ImageRecord>, id: string, u: ImageUpdate): (r: seq<ImageRecord>)
    ensures |r| == |images|
    ensures forall i :: 0 <= i < |images| && images[i].id != id ==> r[i] == images[i]
    ensures forall i :: 0 <= i < |images| && images[i].id == id ==> r[i] == Merge(images[i], u)
  {
    if |images| == 0 then []
    else [if images[0].id == id then Merge(images[0], u) else images[0]] + UpdateWhere(images[1..], id, u)
  }

  /** setCurrentImage: replaces the current image and nothing else (the view is not reset). */
  function SetCurrentImage(s: AppState, image: Option<ImageRecord>): (r: AppState)
    ensures r.currentImage == image
    ensures r.images == s.images && r.viewState == s.viewState && r.settings == s.settings
    ensures r.isLoading == s.isLoading && r.error == s.error
  {
    s.(currentImage := image)
  }

  /** addImage: append at the end and make the new image current. */
  function AddImage(s: AppState, image: ImageRecord): (r: AppState)
    ensures |r.images| == |s.images| + 1 && r.images[..|s.images|] == s.images && r.images[|s.images|] == image
    ensures r.currentImage == Some(image)
    ensures r.viewState == s.viewState && r.settings == s.settings
    ensures r.isLoading == s.isLoading && r.error == s.error
  {
    s.(images := s.images + [image], currentImage := Some(image))
  }

  /** removeImage: drop every image with the id; the current image is cleared iff it has that id. */
  function RemoveImage(s: AppState, id: string): (r: AppState)
    ensures forall x :: x in r.images <==> x in s.images && x.id != id
    ensures r.currentImage.None? <==> s.currentImage.None? || s.currentImage.value.id == id
    ensures r.currentImage.Some? ==> r.currentImage == s.currentImage
    ensures r.viewState == s.viewState && r.settings == s.settings
    ensures r.isLoading == s.isLoading && r.error == s.error
  {
    s.(images := WithoutId(s.images, id),
       currentImage := if s.currentImage.Some? && s.currentImage.value.id == id then None else s.currentImage)
  }

  /** updateImage: merge into every image with the id and into the current image iff it has the id. */
  function UpdateImage(s: AppState, id: string, u: ImageUpdate): (r: AppState)
    ensures |r.images| == |s.images|
    ensures forall i :: 0 <= i < |s.images| ==>
      r.images[i] == (if s.images[i].id == id then Merge(s.images[i], u) else s.images[i])
    ensures s.currentImage.Some? && s.currentImage.value.id == id ==> r.currentImage == Some(Merge(s.currentImage.value, u))
    ensures s.currentImage.None? || s.currentImage.value.id != id ==> r.currentImage == s.currentImage
    ensures r.viewState == s.viewState && r.settings == s.settings
    ensures r.isLoading == s.isLoading && r.error == s.error
  {
    s.(images := UpdateWhere(s.images, id, u),
       currentImage := if s.currentImage.Some? && s.currentImage.value.id == id
                       then Some(Merge(s.currentImage.value, u)) else s.currentImage)
  }

  /** Every state other than the view state is the same. */
  predicate OnlyViewChanged(s: AppState, r: AppState)
  {
    r.currentImage == s.currentImage && r.images == s.images && r.settings == s.settings
    && r.isLoading == s.isLoading && r.error == s.error
  }

  /** setZoom stores its argument as given: it does not clamp. */
  function SetZoom(s: AppState, zoom: real): (r: AppState)
    ensures r.viewState.zoom == zoom
    ensures r.viewState.(zoom := s.viewState.zoom) == s.viewState
    ensures OnlyViewChanged(s, r)
  {
    s.(viewState := s.viewState.(zoom := zoom))
  }

  function SetOffset(s: AppState, offset: Point): (r: AppState)
    ensures r.viewState.offset == offset
    ensures r.viewState.(offset := s.viewState.offset) == s.viewState
    ensures OnlyViewChanged(s, r)
  {
    s.(viewState := s.viewState.(offset := offset))
  }

  function SetSelectedCorner(s: AppState, corner: Option<int>): (r: AppState)
    ensures r.viewState.selectedCorner == corner
    ensures r.viewState.(selectedCorner := s.viewState.selectedCorner) == s.viewState
    ensures OnlyViewChanged(s, r)
  {
    s.(viewState := s.viewState.(selectedCorner := corner))
  }

  function SetIsEditing(s: AppState, editing: bool): (r: AppState)
    ensures r.viewState.isEditing == editing
    ensures r.viewState.(isEditing := s.viewState.isEditing) == s.viewState
    ensures OnlyViewChanged(s, r)
  {
    s.(viewState := s.viewState.(isEditing := editing))
  }

  function SetIsDragging(s: AppState, dragging: bool): (r: AppState)
    ensures r.viewState.isDragging == dragging
    ensures r.viewState.(isDragging := s.viewState.isDragging) == s.viewState
    ensures OnlyViewChanged(s, r)
  {
    s.(viewState := s.viewState.(isDragging := dragging))
  }

  /** `{ ...settings, ...newSettings }` */
  function MergeSettings(st: Settings, u: SettingsUpdate): Settings
  {
    Settings(Pick(u.autoNext, st.autoNext), Pick(u.zoomStep, st.zoomStep),
             Pick(u.showGrid, st.showGrid), Pick(u.snapToGrid, st.snapToGrid))
  }

  /** updateSettings: overwrites exactly the supplied fields; the rest of the state is unchanged. */
  function UpdateSettings(s: AppState, u: SettingsUpdate): (r: AppState)
    ensures u.autoNext.None? ==> r.settings.autoNext == s.settings.autoNext
    ensures u.zoomStep.None? ==> r.settings.zoomStep == s.settings.zoomStep
    ensures u.showGrid.None? ==> r.settings.showGrid == s.settings.showGrid
    ensures u.snapToGrid.None? ==> r.settings.snapToGrid == s.settings.snapToGrid
    ensures u.autoNext.Some? ==> r.settings.autoNext == u.autoNext.value
    ensures u.zoomStep.Some? ==> r.settings.zoomStep == u.zoomStep.value
    ensures u.showGrid.Some? ==> r.settings.showGrid == u.showGrid.value
    ensures u.snapToGrid.Some? ==> r.settings.snapToGrid == u.snapToGrid.value
    ensures r.currentImage == s.currentImage && r.images == s.images && r.viewState == s.viewState
    ensures r.isLoading == s.isLoading && r.error == s.error
  {
    s.(settings := MergeSettings(s.settings, u))
  }

  function SetLoading(s: AppState, loading: bool): (r: AppState)
    ensures r.isLoading == loading && r.(isLoading := s.isLoading) == s
  {
    s.(isLoading := loading)
  }

  function SetError(s: AppState, error: Option<string>): (r: AppState)
    ensures r.error == error && r.(error := s.error) == s
  {
    s.(error := error)
  }

  /** resetView: the default view from any state; everything else is kept. */
  function ResetView(s: AppState): (r: AppState)
    ensures r.viewState.zoom == 1.0 && r.viewState.offset == Origin
    ensures !r.viewState.isDragging && r.viewState.selectedCorner.None? && !r.viewState.isEditing
    ensures OnlyViewChanged(s, r)
  {
    s.(viewState := DefaultViewState)
  }

  /** clearAll: images, current image, view and error are reset; settings and isLoading are kept. */
  function ClearAll(s: AppState): (r: AppState)
    ensures r.images == [] && r.currentImage.None? && r.viewState == DefaultViewState && r.error.None?
    ensures r.settings == s.settings && r.isLoading == s.isLoading
  {
    s.(currentImage := None, images := [], viewState := DefaultViewState, error := None)
  }

  lemma ResetsAreIdempotent(s: AppState)
    ensures ResetView(ResetView(s)) == ResetView(s)
    ensures ClearAll(ClearAll(s)) == ClearAll(s)
    ensures ResetView(ClearAll(s)) == ClearAll(s)
  {
  }

  /** Switching images keeps the current zoom, pan and selection. */
  lemma SwitchingImageKeepsView(s: AppState, image: Option<ImageRecord>)
    ensures SetCurrentImage(s, image).viewState == s.viewState
  {
  }

  /** The current image, when there is one, is an entry of the list. */
  predicate CurrentListed(s: AppState)
  {
    s.currentImage.Some? ==> s.currentImage.value in s.images
  }

  /** addImage, removeImage, updateImage and clearAll keep the current image listed. */
  lemma CurrentListedPreserved(s: AppState, image: ImageRecord, id: string, u: ImageUpdate)
    requires CurrentListed(s)
    ensures CurrentListed(AddImage(s, image))
    ensures CurrentListed(RemoveImage(s, id))
    ensures CurrentListed(UpdateImage(s, id, u))
    ensures CurrentListed(ClearAll(s))
  {
    var r := UpdateImage(s, id, u);
    if s.currentImage.Some? {
      var c := s.currentImage.value;
      var i :| 0 <= i < |s.images| && s.images[i] == c;
      assert r.images[i] == r.currentImage.value;
    }
  }

  /** Applying the same update twice has the effect of applying it once. */
  lemma {:induction false} UpdateWhereIdempotent(images: seq<ImageRecord>, id: string, u: ImageUpdate)
    ensures UpdateWhere(UpdateWhere(images, id, u), id, u) == UpdateWhere(images, id, u)
  {
    var once := UpdateWhere(images, id, u);
    var twice := UpdateWhere(once, id, u);
    forall i | 0 <= i < |images|
      ensures twice[i] == once[i]
    {
      MergeLaws(images[i], u, u);
    }
  }

  lemma UpdateImageIdempotent(s: AppState, id: string, u: ImageUpdate)
    ensures UpdateImage(UpdateImage(s, id, u), id, u) == UpdateImage(s, id, u)
  {
    UpdateWhereIdempotent(s.images, id, u);
    if s.currentImage.Some? {
      MergeLaws(s.currentImage.value, u, u);
    }
  }

  /** Adding an image and then removing its id is the same as only removing that id. */
  lemma AddThenRemove(s: AppState, image: ImageRecord)
    ensures RemoveImage(AddImage(s, image), image.id).images == RemoveImage(s, image.id).images
    ensures RemoveImage(AddImage(s, image), image.id).currentImage.None?
  {
    WithoutIdAppend(s.images, [image], image.id);
    assert WithoutId([image], image.id) == [];
  }

  /** Removing an id that no image has leaves the list unchanged. */
  lemma RemoveAbsentId(s: AppState, id: string)
    requires forall i :: 0 <= i < |s.images| ==> s.images[i].id != id
    ensures RemoveImage(s, id).images == s.images
  {
    WithoutIdAbsent(s.images, id);
  }
}
