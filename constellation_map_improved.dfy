/** `ConstellationMapImproved`, the constellation map the artesanas page
    renders: a radial placement of the artesanas in a 3000 x 3000 world, the
    disciplina/region filter, and a viewport the user pans by dragging and
    zooms with buttons about the container's centre. */
module ConstellationMapImproved {
  import opened Wrappers
  import opened Sequences
  import opened Artesanas
  import opened ViewTransform

  const WORLD_WIDTH: real := 3000.0
  const WORLD_HEIGHT: real := 3000.0

  const ZOOM_MIN: real := 0.3
  const ZOOM_MAX: real := 2.5
  const ZOOM_STEP: real := 0.2

  /** The default `totalCapacity` of `distributeRadially`. */
  const TOTAL_CAPACITY: nat := 365
  /** `Math.ceil(Math.sqrt(TOTAL_CAPACITY / Math.PI))`; see RingCountForDefaultCapacity. */
  const NUM_RINGS: nat := 11

  /** Why the ring count is 11: for any value of pi between 3.14 and 3.15,
      365 / pi lies strictly above 10 * 10 and at most 11 * 11, so its square
      root rounds up to 11. */
  lemma RingCountForDefaultCapacity(pi: real)
    requires 3.14 < pi < 3.15
    ensures ((NUM_RINGS - 1) * (NUM_RINGS - 1)) as real < TOTAL_CAPACITY as real / pi
    ensures TOTAL_CAPACITY as real / pi <= (NUM_RINGS * NUM_RINGS) as real
  {
    assert TOTAL_CAPACITY as real > 100.0 * pi;
    assert TOTAL_CAPACITY as real <= 121.0 * pi;
  }

  /** The container's measured size (`getBoundingClientRect`); `None` while
      the container is not measured. */
  datatype Size = Size(width: real, height: real)

  /** An artesana placed in the world, as `distributeRadially` returns it. */
  datatype PlacedArtesana = PlacedArtesana(
    artesana: Artesana, x: real, y: real, screenX: real, screenY: real, opacity: real, scale: real)

  /** `Math.ceil(count / numRings)`: the fewest points per ring with which
      `numRings` rings hold `count` points. */
  function PointsPerRing(count: nat, numRings: nat): (p: nat)
    requires numRings >= 1
    ensures numRings * p >= count
    ensures p > 0 ==> numRings * (p - 1) < count
  {
    var q := (count + numRings - 1) / numRings;
    assert q * numRings + (count + numRings - 1) % numRings == count + numRings - 1;
    q
  }

  /** Where `distributeRadially` puts the point of a given index: its ring,
      its position in that ring and how many points the ring holds. */
  datatype RingSlot = RingSlot(ringIndex: nat, positionInRing: nat, totalInRing: nat)

  /** The integer part of `distributeRadially`. Every index lands in one of
      the `numRings` rings, at a position below the ring's size; the ring
      holds a contiguous block of indices, and only the last occupied ring
      may hold fewer than `PointsPerRing` points. */
  function SlotOf(index: nat, count: nat, numRings: nat): (s: RingSlot)
    requires index < count && numRings >= 1
    ensures s.ringIndex < numRings
    ensures 1 <= s.totalInRing <= PointsPerRing(count, numRings)
    ensures s.positionInRing < s.totalInRing
    ensures s.ringIndex * PointsPerRing(count, numRings) + s.positionInRing == index
    ensures s.ringIndex * PointsPerRing(count, numRings) + s.totalInRing <= count
    ensures s.totalInRing < PointsPerRing(count, numRings) ==>
      s.ringIndex * PointsPerRing(count, numRings) + s.totalInRing == count
  {
    var p := PointsPerRing(count, numRings);
    var ring := index / p;
    var pos := index % p;
    QuotientBelow(index, p, numRings);
    var total := if p <= count - ring * p then p else count - ring * p;
    RingSlot(ring, pos, total)
  }

  lemma MulLessCancel(x: int, y: int, p: int)
    requires p > 0 && x * p < y * p
    ensures x < y
  {
    assert (y - x) * p == y * p - x * p;
  }

  /** Euclidean division by `p` of an index below `n * p`. */
  lemma QuotientBelow(a: nat, p: nat, n: nat)
    requires p > 0 && a < n * p
    ensures a / p < n
    ensures (a / p) * p + a % p == a && a % p < p
  {
    var q := a / p;
    assert q * p + a % p == a;
    MulLessCancel(q, n, p);
  }

  /** `ringIndex / Math.max(numRings - 1, 1)`: how far out the ring lies, in [0, 1]. */
  function RingProgress(ringIndex: nat, numRings: nat): (r: real)
    requires ringIndex < numRings
    ensures 0.0 <= r <= 1.0
    ensures r * (if numRings > 1 then (numRings - 1) as real else 1.0) == ringIndex as real
    ensures ringIndex == 0 ==> r == 0.0
    ensures numRings > 1 && ringIndex == numRings - 1 ==> r == 1.0
  {
    var denominator := if numRings - 1 > 1 then numRings - 1 else 1;
    ringIndex as real / denominator as real
  }

  /** `distributeRadially` with `numRings` rings. The trigonometric and
      random part (radius jitter, angle jitter, `cos`/`sin`) is `place`, which
      receives the point's slot and ring progress and returns its world position.
      One output per input, in order, keeping the record and starting at
      screen (0, 0), fully opaque and at scale 1. */
  function DistributeRadially(artesanas: seq<Artesana>, numRings: nat, place: (RingSlot, real) -> Point)
    : (r: seq<PlacedArtesana>)
    requires numRings >= 1
    ensures |r| == |artesanas|
    ensures forall i :: 0 <= i < |r| ==>
      && r[i].artesana == artesanas[i]
      && r[i].screenX == 0.0 && r[i].screenY == 0.0
      && r[i].opacity == 1.0 && r[i].scale == 1.0
      && var s := SlotOf(i, |artesanas|, numRings);
         Point(r[i].x, r[i].y) == place(s, RingProgress(s.ringIndex, numRings))
  {
    seq(|artesanas|, i requires 0 <= i < |artesanas| =>
      var s := SlotOf(i, |artesanas|, numRings);
      var pos := place(s, RingProgress(s.ringIndex, numRings));
      PlacedArtesana(artesanas[i], pos.x, pos.y, 0.0, 0.0, 1.0, 1.0))
  }

  /** The memoised `filteredArtesanas`: exactly the placed artesanas whose
      record matches every active selection, in their original order. */
  function FilteredArtesanas(world: seq<PlacedArtesana>, f: Filters): (r: seq<PlacedArtesana>)
    ensures forall a :: a in r ==> Matches(a.artesana, f)
    ensures forall a :: multiset(r)[a] == if Matches(a.artesana, f) then multiset(world)[a] else 0
    ensures IsSubsequence(r, world)
  {
    Filter(world, (a: PlacedArtesana) => Matches(a.artesana, f))
  }

  /** `worldToScreen`: the view transform once the container is measured,
      (0, 0) before. */
  function GuardedWorldToScreen(rect: Option<Size>, v: ViewState, w: Point): (r: Point)
    ensures rect.None? ==> r == Point(0.0, 0.0)
    ensures rect.Some? ==> r == WorldToScreen(v, w)
  {
    if rect.None? then Point(0.0, 0.0) else WorldToScreen(v, w)
  }

  /** `screenArtesanas`: each filtered artesana with its screen position. */
  function ScreenArtesanas(filtered: seq<PlacedArtesana>, rect: Option<Size>, v: ViewState)
    : (r: seq<PlacedArtesana>)
    ensures |r| == |filtered|
    ensures forall i :: 0 <= i < |r| ==>
      r[i] == filtered[i].(screenX := r[i].screenX, screenY := r[i].screenY) &&
      Point(r[i].screenX, r[i].screenY) == GuardedWorldToScreen(rect, v, Point(filtered[i].x, filtered[i].y))
  {
    seq(|filtered|, i requires 0 <= i < |filtered| =>
      var s := GuardedWorldToScreen(rect, v, Point(filtered[i].x, filtered[i].y));
      filtered[i].(screenX := s.x, screenY := s.y))
  }

  predicate InZoomBand(scale: real) {
    ZOOM_MIN <= scale <= ZOOM_MAX
  }

  /** The scale `handleZoomIn` moves to: one step up, capped at the maximum;
      never smaller than before, and inside the band when it started there. */
  function ZoomInScale(scale: real): (r: real)
    ensures r <= ZOOM_MAX && r <= scale + ZOOM_STEP
    ensures r == ZOOM_MAX || r == scale + ZOOM_STEP
    ensures scale <= ZOOM_MAX ==> scale <= r
    ensures InZoomBand(scale) ==> InZoomBand(r)
  {
    if ZOOM_MAX < scale + ZOOM_STEP then ZOOM_MAX else scale + ZOOM_STEP
  }

  /** The scale `handleZoomOut` moves to: one step down, floored at the
      minimum; never larger than before, and inside the band when it started there. */
  function ZoomOutScale(scale: real): (r: real)
    ensures ZOOM_MIN <= r && scale - ZOOM_STEP <= r
    ensures r == ZOOM_MIN || r == scale - ZOOM_STEP
    ensures ZOOM_MIN <= scale ==> r <= scale
    ensures InZoomBand(scale) ==> InZoomBand(r)
  {
    if ZOOM_MIN > scale - ZOOM_STEP then ZOOM_MIN else scale - ZOOM_STEP
  }

  /** The commands that change the scale: the two zoom buttons and reset. */
  datatype ZoomCommand = ZoomInCommand | ZoomOutCommand | ResetCommand

  function ScaleAfter(scale: real, commands: seq<ZoomCommand>): real
    decreases |commands|
  {
    if commands == [] then scale
    else
      var next := match commands[0]
        case ZoomInCommand => ZoomInScale(scale)
        case ZoomOutCommand => ZoomOutScale(scale)
        case ResetCommand => 1.0;
      ScaleAfter(next, commands[1..])
  }

  /** From the initial scale 1, any sequence of zoom and reset commands keeps
      the scale within [0.3, 2.5]; in particular it is never zero, so the
      divisions by the scale are always defined. */
  lemma {:induction false} ZoomsStayInBand(scale: real, commands: seq<ZoomCommand>)
    requires InZoomBand(scale)
    ensures InZoomBand(ScaleAfter(scale, commands))
    ensures ScaleAfter(scale, commands) != 0.0
    decreases |commands|
  {
    if commands != [] {
      var next := match commands[0]
        case ZoomInCommand => ZoomInScale(scale)
        case ZoomOutCommand => ZoomOutScale(scale)
        case ResetCommand => 1.0;
      ZoomsStayInBand(next, commands[1..]);
    }
  }

  function Center(rect: Size): Point {
    Point(rect.width / 2.0, rect.height / 2.0)
  }

  /** The view `handleResetView` (and the mount effect) sets: scale 1 with
      the world's centre shown at the container's centre. */
  function DefaultView(rect: Size): (v: ViewState)
    ensures v.scale == 1.0
    ensures WorldToScreen(v, Point(WORLD_WIDTH / 2.0, WORLD_HEIGHT / 2.0)) == Center(rect)
  {
    ViewState(WORLD_WIDTH / 2.0 - rect.width / 2.0, WORLD_HEIGHT / 2.0 - rect.height / 2.0, 1.0)
  }

  /** The component's `viewState`, `dragState` and `selectedArtesana`. */
  class MapViewport {
    var view: ViewState
    var drag: DragState
    var selected: Option<PlacedArtesana>

    ghost predicate Valid()
      reads this
    {
      InZoomBand(view.scale)
    }

    /** The initial state: the world's centre at the top-left corner, scale 1,
        not dragging, nothing selected. */
    constructor ()
      ensures Valid()
      ensures view == ViewState(WORLD_WIDTH / 2.0, WORLD_HEIGHT / 2.0, 1.0)
      ensures drag == DragState(false, 0.0, 0.0, 0.0, 0.0)
      ensures selected == None
    {
      view := ViewState(WORLD_WIDTH / 2.0, WORLD_HEIGHT / 2.0, 1.0);
      drag := DragState(false, 0.0, 0.0, 0.0, 0.0);
      selected := None;
    }

    /** The mount effect: centre the view when the container is measured and
        at least one artesana passes the filter. */
    method CenterOnMount(rect: Option<Size>, filteredCount: nat)
      requires Valid()
      modifies this
      ensures Valid()
      ensures rect.Some? && filteredCount > 0 ==> view == DefaultView(rect.value)
      ensures rect.None? || filteredCount == 0 ==> view == old(view)
      ensures drag == old(drag) && selected == old(selected)
    {
      if rect.Some? && filteredCount > 0 {
        view := DefaultView(rect.value);
      }
    }

    /** `handleMouseDown`: start dragging from the pointer and the current view. */
    method MouseDown(clientX: real, clientY: real)
      requires Valid()
      modifies this
      ensures Valid()
      ensures drag == DragState(true, clientX, clientY, old(view).x, old(view).y)
      ensures view == old(view) && selected == old(selected)
    {
      drag := DragState(true, clientX, clientY, view.x, view.y);
    }

    /** `handleMouseMove`: while dragging, the view follows the pointer at the
        current scale; otherwise nothing changes. */
    method MouseMove(clientX: real, clientY: real)
      requires Valid()
      modifies this
      ensures Valid()
      ensures old(drag).isDragging ==>
        var p := DragPosition(old(drag), Point(clientX, clientY), old(view).scale);
        view == ViewState(p.x, p.y, old(view).scale)
      ensures !old(drag).isDragging ==> view == old(view)
      ensures drag == old(drag) && selected == old(selected)
    {
      if !drag.isDragging {
        return;
      }
      var p := DragPosition(drag, Point(clientX, clientY), view.scale);
      view := view.(x := p.x, y := p.y);
    }

    /** `handleMouseUp`, also bound to mouse-leave: stop dragging and keep the
        recorded start. */
    method MouseUp()
      requires Valid()
      modifies this
      ensures Valid()
      ensures drag == old(drag).(isDragging := false)
      ensures view == old(view) && selected == old(selected)
    {
      drag := drag.(isDragging := false);
    }

    /** `handleTouchStart`: a drag begins only with exactly one touch. */
    method TouchStart(touches: seq<Point>)
      requires Valid()
      modifies this
      ensures Valid()
      ensures |touches| == 1 ==> drag == DragState(true, touches[0].x, touches[0].y, old(view).x, old(view).y)
      ensures |touches| != 1 ==> drag == old(drag)
      ensures view == old(view) && selected == old(selected)
    {
      if |touches| == 1 {
        drag := DragState(true, touches[0].x, touches[0].y, view.x, view.y);
      }
    }

    /** `handleTouchMove`: like a mouse move, and ignored unless exactly one
        finger is down. */
    method TouchMove(touches: seq<Point>)
      requires Valid()
      modifies this
      ensures Valid()
      ensures old(drag).isDragging && |touches| == 1 ==>
        var p := DragPosition(old(drag), touches[0], old(view).scale);
        view == ViewState(p.x, p.y, old(view).scale)
      ensures !old(drag).isDragging || |touches| != 1 ==> view == old(view)
      ensures drag == old(drag) && selected == old(selected)
    {
      if !drag.isDragging || |touches| != 1 {
        return;
      }
      var p := DragPosition(drag, touches[0], view.scale);
      view := view.(x := p.x, y := p.y);
    }

    /** `handleTouchEnd`: stop dragging and keep the recorded start. */
    method TouchEnd()
      requires Valid()
      modifies this
      ensures Valid()
      ensures drag == old(drag).(isDragging := false)
      ensures view == old(view) && selected == old(selected)
    {
      drag := drag.(isDragging := false);
    }

    /** `handleZoomIn`: one step in about the container's centre, once measured. */
    method ZoomIn(rect: Option<Size>)
      requires Valid()
      modifies this
      ensures Valid()
      ensures rect.Some? ==> view == ZoomAbout(old(view), Center(rect.value), ZoomInScale(old(view).scale))
      ensures rect.None? ==> view == old(view)
      ensures drag == old(drag) && selected == old(selected)
    {
      if rect.None? {
        return;
      }
      view := ZoomAbout(view, Center(rect.value), ZoomInScale(view.scale));
    }

    /** `handleZoomOut`: one step out about the container's centre, once measured. */
    method ZoomOut(rect: Option<Size>)
      requires Valid()
      modifies this
      ensures Valid()
      ensures rect.Some? ==> view == ZoomAbout(old(view), Center(rect.value), ZoomOutScale(old(view).scale))
      ensures rect.None? ==> view == old(view)
      ensures drag == old(drag) && selected == old(selected)
    {
      if rect.None? {
        return;
      }
      view := ZoomAbout(view, Center(rect.value), ZoomOutScale(view.scale));
    }

    /** `handleResetView`: back to the default view, once measured. */
    method ResetView(rect: Option<Size>)
      requires Valid()
      modifies this
      ensures Valid()
      ensures rect.Some? ==> view == DefaultView(rect.value)
      ensures rect.None? ==> view == old(view)
      ensures drag == old(drag) && selected == old(selected)
    {
      if rect.None? {
        return;
      }
      view := DefaultView(rect.value);
    }

    /** `handleArtesanaClick`: select the clicked artesana unless a drag is
        under way. */
    method ArtesanaClick(a: PlacedArtesana)
      requires Valid()
      modifies this
      ensures Valid()
      ensures selected == if old(drag).isDragging then old(selected) else Some(a)
      ensures view == old(view) && drag == old(drag)
    {
      if !drag.isDragging {
        selected := Some(a);
      }
    }
  }
}
