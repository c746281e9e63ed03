/** The product section's hotspots: hovering a marker selects it (one at a
    time), each popover is anchored below its marker's rectangle, and each
    popover container is animated towards shown or hidden. */
module ProductSection {
  import opened Wrappers

  /** A marker's bounding rectangle, as measured by the browser. */
  datatype Rect = Rect(left: real, width: real, bottom: real)

  /** A popover's anchor in viewport coordinates. */
  datatype Point = Point(x: real, y: real)

  /** The hotspot ids; marker `k` opens popover `k`. */
  const HotspotIds: set<int> := {1, 2}

  /** The vertical gap between a marker and its popover, in pixels. */
  const Gap: real := 20.0

  /** `{ x: rect.left + rect.width / 2, y: rect.bottom + 20 }`. */
  function Anchor(r: Rect): (p: Point) {
    Point(r.left + r.width / 2.0, r.bottom + Gap)
  }

  /** The anchor sits on the marker's vertical centre line, equally far from
      its left and right edges, 20 pixels below its bottom edge. */
  lemma AnchorCentredBelow(r: Rect)
    ensures Anchor(r).x - r.left == (r.left + r.width) - Anchor(r).x
    ensures Anchor(r).y - r.bottom == 20.0
    ensures r.width >= 0.0 ==> r.left <= Anchor(r).x <= r.left + r.width
  {
  }

  /** The positions map `updatePositions` stores: an entry for each hotspot
      whose marker is attached. */
  function Positions(rect1: Option<Rect>, rect2: Option<Rect>): (positions: map<int, Point>)
    ensures positions.Keys <= HotspotIds
    ensures 1 in positions <==> rect1.Some?
    ensures 2 in positions <==> rect2.Some?
    ensures 1 in positions ==> positions[1] == Anchor(rect1.value)
    ensures 2 in positions ==> positions[2] == Anchor(rect2.value)
  {
    var m := if rect1.Some? then map[1 := Anchor(rect1.value)] else map[];
    if rect2.Some? then m[2 := Anchor(rect2.value)] else m
  }

  /** `updatePositions`: builds the map entry by entry from the markers'
      rectangles (`None` for a detached marker). */
  method UpdatePositions(rect1: Option<Rect>, rect2: Option<Rect>) returns (positions: map<int, Point>)
    ensures positions == Positions(rect1, rect2)
  {
    positions := map[];
    if rect1.Some? {
      var rect := rect1.value;
      positions := positions[1 := Point(rect.left + rect.width / 2.0, rect.bottom + 20.0)];
    }
    if rect2.Some? {
      var rect := rect2.value;
      positions := positions[2 := Point(rect.left + rect.width / 2.0, rect.bottom + 20.0)];
    }
  }

  /** Pointer events on the markers. */
  datatype HoverEvent = Enter(hotspot: int) | Leave

  /** `hoveredHotspot` after an event: entering marker `k` selects `k`,
      leaving either marker clears the selection. */
  function HoverStep(hovered: Option<int>, e: HoverEvent): Option<int> {
    match e
    case Enter(k) => Some(k)
    case Leave => None
  }

  function HoverRun(hovered: Option<int>, events: seq<HoverEvent>): Option<int> {
    if events == [] then hovered else HoverStep(HoverRun(hovered, events[..|events| - 1]), events[|events| - 1])
  }

  /** Events the two markers can produce. */
  predicate MarkerEvents(events: seq<HoverEvent>) {
    forall j :: 0 <= j < |events| ==> (events[j].Enter? ==> events[j].hotspot in HotspotIds)
  }

  /** From the initial `null`, the hovered hotspot is always none or one of
      the two markers, and it is the marker entered last unless a leave came
      after it. */
  lemma {:induction false} HoveredInRange(events: seq<HoverEvent>)
    requires MarkerEvents(events)
    ensures HoverRun(None, events).Some? ==> HoverRun(None, events).value in HotspotIds
    ensures events != [] && events[|events| - 1].Leave? ==> HoverRun(None, events) == None
    ensures events != [] && events[|events| - 1].Enter? ==> HoverRun(None, events) == Some(events[|events| - 1].hotspot)
  {
    if events != [] {
      var init := events[..|events| - 1];
      assert MarkerEvents(init) by {
        forall j | 0 <= j < |init| ensures init[j].Enter? ==> init[j].hotspot in HotspotIds {
          assert init[j] == events[j];
        }
      }
      HoveredInRange(init);
    }
  }

  /** `isVisible={hoveredHotspot === k}`. */
  predicate IsVisible(hovered: Option<int>, k: int) {
    hovered == Some(k)
  }

  /** Whether popover `k` is rendered (`hotspotPositions[k] && ...`). */
  predicate PopoverRendered(positions: map<int, Point>, k: int) {
    k in positions
  }

  /** At most one popover is visible, a popover is rendered only for an
      attached marker, and a rendered visible popover sits at its anchor. */
  lemma AtMostOnePopover(hovered: Option<int>, rect1: Option<Rect>, rect2: Option<Rect>)
    ensures !(IsVisible(hovered, 1) && IsVisible(hovered, 2))
    ensures PopoverRendered(Positions(rect1, rect2), 1) <==> rect1.Some?
    ensures PopoverRendered(Positions(rect1, rect2), 2) <==> rect2.Some?
    ensures forall k :: k in HotspotIds && IsVisible(hovered, k) && PopoverRendered(Positions(rect1, rect2), k) ==>
      Positions(rect1, rect2)[k] == Anchor(if k == 1 then rect1.value else rect2.value)
  {
  }

  /** A container's animated properties. */
  datatype Pose = Pose(opacity: real, y: real, scale: real)

  const Shown: Pose := Pose(1.0, 0.0, 1.0)
  const Hidden: Pose := Pose(0.0, -10.0, 0.95)

  /** The tween the hover effect starts on a container: from hidden to shown
      for the hovered one, towards hidden for the others. */
  datatype Tween = FromTo(from: Pose, to: Pose) | To(to: Pose)

  /** The tween for container `k`, when it is attached; the running tweens
      of the container are killed first. */
  function ContainerTween(hovered: Option<int>, k: int, attached: bool): Option<Tween> {
    if !attached then None
    else if hovered == Some(k) then Some(FromTo(Hidden, Shown))
    else Some(To(Hidden))
  }

  /** Every attached container gets a tween; it ends shown exactly for the
      hovered container, so at most one container ends shown. */
  lemma ContainerTargets(hovered: Option<int>, k: int, attached: bool)
    ensures ContainerTween(hovered, k, attached).Some? <==> attached
    ensures attached ==> (ContainerTween(hovered, k, attached).value.to == Shown <==> IsVisible(hovered, k))
    ensures attached && !IsVisible(hovered, k) ==> ContainerTween(hovered, k, attached).value.to == Hidden
    ensures attached && IsVisible(hovered, k) ==> ContainerTween(hovered, k, attached).value == FromTo(Hidden, Shown)
  {
  }

  /** The section component's state. */
  class Section {
    var hoveredHotspot: Option<int>
    var hotspotPositions: map<int, Point>

    constructor ()
      ensures hoveredHotspot == None && hotspotPositions == map[]
    {
      hoveredHotspot := None;
      hotspotPositions := map[];
    }

    method OnMouseEnter(k: int)
      modifies this
      ensures hoveredHotspot == HoverStep(old(hoveredHotspot), Enter(k))
      ensures hotspotPositions == old(hotspotPositions)
    {
      hoveredHotspot := Some(k);
    }

    method OnMouseLeave()
      modifies this
      ensures hoveredHotspot == HoverStep(old(hoveredHotspot), Leave)
      ensures hotspotPositions == old(hotspotPositions)
    {
      hoveredHotspot := None;
    }

    /** Re-measures the markers and stores the new positions. */
    method Remeasure(rect1: Option<Rect>, rect2: Option<Rect>)
      modifies this
      ensures hotspotPositions == Positions(rect1, rect2)
      ensures hoveredHotspot == old(hoveredHotspot)
    {
      hotspotPositions := UpdatePositions(rect1, rect2);
    }
  }
}
