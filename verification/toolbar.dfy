/**
  The toolbar actions of frontend/src/components/Toolbar.tsx, as transitions of
  the store state, and the enable/disable predicates of its buttons.
 */
module Toolbar {
  import opened Geometry
  import opened Store
  import opened Wrappers

  const MinZoom: real := 0.1
  const MaxZoom: real := 5.0

  predicate ZoomInRange(z: real)
  {
    MinZoom <= z <= MaxZoom
  }

  /** handleZoomIn: min(5, zoom + zoomStep), stored through setZoom. */
  function ZoomIn(s: AppState): (r: AppState)
    ensures r.viewState.zoom <= MaxZoom
    ensures r.viewState.zoom <= s.viewState.zoom + s.settings.zoomStep
    ensures s.viewState.zoom + s.settings.zoomStep <= MaxZoom ==> r.viewState.zoom == s.viewState.zoom + s.settings.zoomStep
    ensures r == SetZoom(s, r.viewState.zoom)
  {
    SetZoom(s, Min(MaxZoom, s.viewState.zoom + s.settings.zoomStep))
  }

  /** handleZoomOut: max(0.1, zoom - zoomStep), stored through setZoom. */
  function ZoomOut(s: AppState): (r: AppState)
    ensures r.viewState.zoom >= MinZoom
    ensures r.viewState.zoom >= s.viewState.zoom - s.settings.zoomStep
    ensures s.viewState.zoom - s.settings.zoomStep >= MinZoom ==> r.viewState.zoom == s.viewState.zoom - s.settings.zoomStep
    ensures r == SetZoom(s, r.viewState.zoom)
  {
    SetZoom(s, Max(MinZoom, s.viewState.zoom - s.settings.zoomStep))
  }

  /** With a non-negative step, both actions keep zoom in [0.1, 5], and they move it the right way. */
  lemma ToolbarZoomStaysInRange(s: AppState)
    requires ZoomInRange(s.viewState.zoom) && s.settings.zoomStep >= 0.0
    ensures ZoomInRange(ZoomIn(s).viewState.zoom) && ZoomIn(s).viewState.zoom >= s.viewState.zoom
    ensures ZoomInRange(ZoomOut(s).viewState.zoom) && ZoomOut(s).viewState.zoom <= s.viewState.zoom
  {
  }

  /** The zoom-out button is disabled iff zoom <= 0.1; zoom-in iff zoom >= 5. */
  predicate ZoomOutDisabled(zoom: real) { zoom <= MinZoom }
  predicate ZoomInDisabled(zoom: real) { zoom >= MaxZoom }

  /** While a button is enabled and the zoom is in range, pressing it changes the zoom (for a positive step). */
  lemma EnabledButtonsMoveZoom(s: AppState)
    requires ZoomInRange(s.viewState.zoom) && s.settings.zoomStep > 0.0
    ensures !ZoomInDisabled(s.viewState.zoom) ==> ZoomIn(s).viewState.zoom > s.viewState.zoom
    ensures !ZoomOutDisabled(s.viewState.zoom) ==> ZoomOut(s).viewState.zoom < s.viewState.zoom
    ensures ZoomInDisabled(s.viewState.zoom) ==> ZoomIn(s).viewState.zoom == s.viewState.zoom
    ensures ZoomOutDisabled(s.viewState.zoom) ==> ZoomOut(s).viewState.zoom == s.viewState.zoom
  {
  }

  /** The crop and download buttons are disabled when the current image has no crop area. */
  predicate DownloadDisabled(s: AppState)
  {
    s.currentImage.None? || s.currentImage.value.cropArea.None?
  }

  /** The percentage label next to the zoom buttons. */
  function ZoomPercent(zoom: real): (r: int)
    ensures zoom * 100.0 - 0.5 < r as real <= zoom * 100.0 + 0.5
  {
    Round(zoom * 100.0)
  }

  /** toggleGrid: updateSettings({ showGrid: !showGrid }). */
  function ToggleGrid(s: AppState): (r: AppState)
    ensures r.settings.showGrid == !s.settings.showGrid
    ensures r.settings.(showGrid := s.settings.showGrid) == s.settings
    ensures r.(settings := s.settings) == s
  {
    UpdateSettings(s, SettingsUpdate(None, None, Some(!s.settings.showGrid), None))
  }

  lemma ToggleGridInvolution(s: AppState)
    ensures ToggleGrid(ToggleGrid(s)) == s
  {
  }

  const NothingToDownload := "No image or crop area selected"
  const DownloadPlaceholder := "Download functionality would be implemented with FastAPI backend"

  /** handleDownload: sets an error message on every path and changes nothing else. */
  function HandleDownload(s: AppState): (r: AppState)
    ensures r.error.Some?
    ensures r.(error := s.error) == s
    ensures r.error == Some(if DownloadDisabled(s) then NothingToDownload else DownloadPlaceholder)
  {
    if s.currentImage.None? || s.currentImage.value.cropArea.None? then SetError(s, Some(NothingToDownload))
    else SetError(s, Some(DownloadPlaceholder))
  }
}
