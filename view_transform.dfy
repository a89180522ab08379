/** The viewport arithmetic both constellation maps share: a view is the
    world point shown at the container's top-left corner plus a zoom factor,
    and screen = (world - view) * scale. Coordinates are exact reals. */
module ViewTransform {

  datatype Point = Point(x: real, y: real)

  /** `viewState`. */
  datatype ViewState = ViewState(x: real, y: real, scale: real)

  /** `dragState`: whether a drag is under way, the pointer position where it
      began and the view position at that moment. */
  datatype DragState = DragState(isDragging: bool, startX: real, startY: real, startViewX: real, startViewY: real)

  /** `worldToScreen`. */
  function WorldToScreen(v: ViewState, w: Point): Point {
    Point((w.x - v.x) * v.scale, (w.y - v.y) * v.scale)
  }

  /** The inverse the zoom and click handlers compute, `s / scale + view`:
      the world point shown at screen point `s`. */
  function ScreenToWorld(v: ViewState, s: Point): (w: Point)
    requires v.scale != 0.0
    ensures WorldToScreen(v, w) == s
  {
    Point(s.x / v.scale + v.x, s.y / v.scale + v.y)
  }

  /** The other direction of the round trip. */
  lemma ScreenToWorldOfWorldToScreen(v: ViewState, w: Point)
    requires v.scale != 0.0
    ensures ScreenToWorld(v, WorldToScreen(v, w)) == w
  {
    var s := WorldToScreen(v, w);
    assert s.x / v.scale == w.x - v.x;
    assert s.y / v.scale == w.y - v.y;
  }

  /** The view after zooming to `newScale` about the screen point `focus`:
      the world point that was under `focus` stays under it. */
  function ZoomAbout(v: ViewState, focus: Point, newScale: real): (r: ViewState)
    requires v.scale != 0.0 && newScale != 0.0
    ensures r.scale == newScale
    ensures WorldToScreen(r, ScreenToWorld(v, focus)) == focus
  {
    var worldPoint := ScreenToWorld(v, focus);
    ViewState(worldPoint.x - focus.x / newScale, worldPoint.y - focus.y / newScale, newScale)
  }

  /** The view position while dragging, `startView - (pointer - start) / scale`:
      the world point that was under the pointer when the drag began (seen
      at the current scale) is under the pointer now. */
  function DragPosition(d: DragState, pointer: Point, scale: real): (r: Point)
    requires scale != 0.0
    ensures
      var grabbed := ScreenToWorld(ViewState(d.startViewX, d.startViewY, scale), Point(d.startX, d.startY));
      WorldToScreen(ViewState(r.x, r.y, scale), grabbed) == pointer
  {
    Point(d.startViewX - (pointer.x - d.startX) / scale, d.startViewY - (pointer.y - d.startY) / scale)
  }

  /** A drag moves every point on the screen by the pointer's displacement. */
  lemma DragTranslatesScreen(d: DragState, pointer: Point, scale: real, w: Point)
    requires scale != 0.0
    ensures
      var p := DragPosition(d, pointer, scale);
      var before := WorldToScreen(ViewState(d.startViewX, d.startViewY, scale), w);
      var after := WorldToScreen(ViewState(p.x, p.y, scale), w);
      after.x - before.x == pointer.x - d.startX && after.y - before.y == pointer.y - d.startY
  {
    var p := DragPosition(d, pointer, scale);
    assert (d.startViewX - p.x) * scale == pointer.x - d.startX;
    assert (d.startViewY - p.y) * scale == pointer.y - d.startY;
  }
}
