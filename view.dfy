/**
 * The view state of the map: the hover hit test of `drawStations`, the drag
 * flag of the mouse handlers and the zoom step of `mouseWheel`. The Web
 * Mercator projection and the re-centring it drives are parameters here.
 */
module View {
  import opened Wrappers
  import MetroData

  /** A position on the canvas, in pixels, as `latLonToPixel` returns it. */
  datatype ScreenPoint = ScreenPoint(x: real, y: real)

  /** `dist(mouseX, mouseY, p.x, p.y) < 15`, compared on squares. */
  predicate Near(p: ScreenPoint, mouseX: real, mouseY: real)
  {
    (p.x - mouseX) * (p.x - mouseX) + (p.y - mouseY) * (p.y - mouseY) < 225.0
  }

  /** `screen` lists the canvas positions of the stations, in list order. */
  function FirstNear(screen: seq<ScreenPoint>, mouseX: real, mouseY: real): (r: Option<nat>)
    ensures r.Some? ==> r.value < |screen|
  {
    if screen == [] then None
    else if Near(screen[0], mouseX, mouseY) then Some(0)
    else match FirstNear(screen[1..], mouseX, mouseY)
      case None => None
      case Some(i) => Some(i + 1)
  }

  /**
   * The scan picks the first position within 15 px of the mouse, in list
   * order, and finds none exactly when no position is that close.
   */
  lemma {:induction false} FirstNearIsFirst(screen: seq<ScreenPoint>, mouseX: real, mouseY: real)
    ensures FirstNear(screen, mouseX, mouseY).None? <==> forall j :: 0 <= j < |screen| ==> !Near(screen[j], mouseX, mouseY)
    ensures forall i: nat :: FirstNear(screen, mouseX, mouseY) == Some(i) <==>
      (i < |screen| && Near(screen[i], mouseX, mouseY) && forall j :: 0 <= j < i ==> !Near(screen[j], mouseX, mouseY))
  {
    if screen != [] {
      FirstNearIsFirst(screen[1..], mouseX, mouseY);
      forall j | 1 <= j < |screen| ensures screen[j] == screen[1..][j - 1] { }
    }
  }

  /**
   * The first station within range wins even when a later one is closer:
   * a station 14 px away is chosen over one right under the mouse.
   */
  lemma FirstIsNotNearest()
    ensures FirstNear([ScreenPoint(14.0, 0.0), ScreenPoint(0.0, 0.0)], 0.0, 0.0) == Some(0)
  {
  }

  /** p5's `constrain(v, lo, hi)`: `Math.max(Math.min(v, hi), lo)`. */
  function Constrain(v: real, lo: real, hi: real): (r: real)
    requires lo <= hi
    ensures lo <= r <= hi
    ensures lo <= v <= hi ==> r == v
    ensures v < lo ==> r == lo
    ensures v > hi ==> r == hi
  {
    var m := if v < hi then v else hi;
    if m > lo then m else lo
  }

  const MinZoom: real := 9.0
  const MaxZoom: real := 17.0
  const ZoomStep: real := 0.3

  /** The zoom level after one wheel event: out by 0.3 when `delta > 0`, otherwise in, within [9, 17]. */
  function WheelZoom(zoom: real, delta: real): (r: real)
    ensures MinZoom <= r <= MaxZoom
    ensures delta > 0.0 ==> r == (if zoom - ZoomStep < MinZoom then MinZoom else if zoom - ZoomStep > MaxZoom then MaxZoom else zoom - ZoomStep)
    ensures delta <= 0.0 ==> r == (if zoom + ZoomStep < MinZoom then MinZoom else if zoom + ZoomStep > MaxZoom then MaxZoom else zoom + ZoomStep)
  {
    Constrain(zoom + (if delta > 0.0 then -ZoomStep else ZoomStep), MinZoom, MaxZoom)
  }

  /**
   * From a level within [9, 17], a wheel event never moves the zoom against
   * its direction nor by more than one step, and it stops only at a bound.
   */
  lemma WheelZoomMonotone(zoom: real, delta: real)
    requires MinZoom <= zoom <= MaxZoom
    ensures delta > 0.0 ==> zoom - ZoomStep <= WheelZoom(zoom, delta) <= zoom
    ensures delta <= 0.0 ==> zoom <= WheelZoom(zoom, delta) <= zoom + ZoomStep
    ensures WheelZoom(zoom, delta) == zoom ==> zoom == (if delta > 0.0 then MinZoom else MaxZoom)
  {
  }

  /** A centre of the map, as the pan and re-centring computations return it. */
  datatype Centre = Centre(lat: real, lon: real)

  const MaxLat: real := 85.0

  /** The globals of the view. The drag anchors start at 0 in place of `undefined`. */
  class ViewState {
    var centerLat: real
    var centerLon: real
    var zoomLevel: real
    var isDragging: bool
    var dragStartX: real
    var dragStartY: real
    var dragStartLat: real
    var dragStartLon: real
    var hoveredStation: Option<MetroData.Station>

    /** The centre latitude stays within ±85 and the zoom within [9, 17]. */
    predicate Valid()
      reads this
    {
      -MaxLat <= centerLat <= MaxLat && MinZoom <= zoomLevel <= MaxZoom
    }

    constructor ()
      ensures Valid()
      ensures centerLat == 55.7558 && centerLon == 37.6173 && zoomLevel == 11.0
      ensures !isDragging && hoveredStation.None?
    {
      centerLat := 55.7558;
      centerLon := 37.6173;
      zoomLevel := 11.0;
      isDragging := false;
      dragStartX, dragStartY, dragStartLat, dragStartLon := 0.0, 0.0, 0.0, 0.0;
      hoveredStation := None;
    }

    /**
     * The hover scan of `drawStations`, where `screen[i]` is
     * `latLonToPixel(stations[i].lat, stations[i].lon)`.
     */
    method FindHovered(stations: seq<MetroData.Station>, screen: seq<ScreenPoint>, mouseX: real, mouseY: real)
      requires |screen| == |stations|
      modifies this`hoveredStation
      ensures hoveredStation == match FirstNear(screen, mouseX, mouseY)
        case None => None
        case Some(i) => Some(stations[i])
    {
      FirstNearIsFirst(screen, mouseX, mouseY);
      hoveredStation := None;
      var i := 0;
      while i < |stations|
        invariant 0 <= i <= |stations|
        invariant hoveredStation.None?
        invariant forall j :: 0 <= j < i ==> !Near(screen[j], mouseX, mouseY)
      {
        if Near(screen[i], mouseX, mouseY) {
          hoveredStation := Some(stations[i]);
          break;
        }
        i := i + 1;
      }
    }

    /** `mousePressed`: start a drag anchored at the mouse and the current centre. */
    method MousePressed(mouseX: real, mouseY: real)
      requires Valid()
      modifies this
      ensures Valid()
      ensures isDragging
      ensures dragStartX == mouseX && dragStartY == mouseY
      ensures dragStartLat == old(centerLat) && dragStartLon == old(centerLon)
      ensures centerLat == old(centerLat) && centerLon == old(centerLon) && zoomLevel == old(zoomLevel)
      ensures hoveredStation == old(hoveredStation)
    {
      isDragging := true;
      dragStartX := mouseX;
      dragStartY := mouseY;
      dragStartLat := centerLat;
      dragStartLon := centerLon;
    }

    /** `mouseReleased`: end the drag. */
    method MouseReleased()
      modifies this`isDragging
      ensures !isDragging
    {
      isDragging := false;
    }

    /**
     * `mouseDragged`. `pan(start, dx, dy, zoom)` stands for the projection
     * code that moves the drag's starting centre by the mouse offset; the
     * model keeps the gating, the offsets and the latitude clamp.
     */
    method MouseDragged(mouseX: real, mouseY: real, pan: (Centre, real, real, real) -> Centre)
      requires Valid()
      modifies this`centerLat, this`centerLon
      ensures Valid()
      ensures !isDragging ==> centerLat == old(centerLat) && centerLon == old(centerLon)
      ensures isDragging ==>
        var c := pan(Centre(dragStartLat, dragStartLon), mouseX - dragStartX, mouseY - dragStartY, zoomLevel);
        centerLon == c.lon && centerLat == Constrain(c.lat, -MaxLat, MaxLat)
    {
      if !isDragging {
        return;
      }
      var dx := mouseX - dragStartX;
      var dy := mouseY - dragStartY;
      var c := pan(Centre(dragStartLat, dragStartLon), dx, dy, zoomLevel);
      centerLon := c.lon;
      centerLat := Constrain(c.lat, -MaxLat, MaxLat);
    }

    /**
     * `mouseWheel`. `recentre(centre, mouseX, mouseY, before, after)` stands
     * for the projection code that keeps the point under the mouse in place.
     */
    method MouseWheel(mouseX: real, mouseY: real, delta: real,
                      recentre: (Centre, real, real, real, real) -> Centre)
      requires Valid()
      modifies this`zoomLevel, this`centerLat, this`centerLon
      ensures Valid()
      ensures zoomLevel == WheelZoom(old(zoomLevel), delta)
      ensures var c := recentre(Centre(old(centerLat), old(centerLon)), mouseX, mouseY, old(zoomLevel), zoomLevel);
        centerLon == c.lon && centerLat == Constrain(c.lat, -MaxLat, MaxLat)
    {
      var before := zoomLevel;
      zoomLevel := WheelZoom(zoomLevel, delta);
      var c := recentre(Centre(centerLat, centerLon), mouseX, mouseY, before, zoomLevel);
      centerLon := c.lon;
      centerLat := Constrain(c.lat, -MaxLat, MaxLat);
    }
  }

  /** A drag that follows a release moves nothing, while a drag after a press does. */
  method ReleaseStopsDrag(view: ViewState, mouseX: real, mouseY: real, pan: (Centre, real, real, real) -> Centre)
    requires view.Valid()
    modifies view
    ensures view.Valid() && !view.isDragging
    ensures view.centerLat == old(view.centerLat) && view.centerLon == old(view.centerLon)
  {
    view.MouseReleased();
    view.MouseDragged(mouseX, mouseY, pan);
  }

  /** A drag right after a press is measured from the press, so a zero offset is pan(centre, 0, 0). */
  method PressThenDrag(view: ViewState, mouseX: real, mouseY: real, pan: (Centre, real, real, real) -> Centre)
    requires view.Valid()
    modifies view
    ensures view.Valid() && view.isDragging
    ensures var c := pan(Centre(old(view.centerLat), old(view.centerLon)), 0.0, 0.0, old(view.zoomLevel));
      view.centerLon == c.lon && view.centerLat == Constrain(c.lat, -MaxLat, MaxLat)
  {
    view.MousePressed(mouseX, mouseY);
    view.MouseDragged(mouseX, mouseY, pan);
  }
}
