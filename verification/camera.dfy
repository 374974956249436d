/**
 Camera placement: a camera is a list of moves, each adopting a pose at a
 tick; a camera's viewport at a tick is a fixed-size rectangle centred on its
 active pose; and cameras are synthesised from the event stream by one greedy
 pass that opens a new camera for every event no existing camera sees.
 */
module Cameras {

  import opened Options
  import opened Geometry
  import opened Constants
  import opened Events

  /** A camera pose: where it looks and at which zoom. */
  datatype CameraPos = CameraPos(pos: Point2, zoom: real)

  /** Adopt pose `to` from tick `onTick` on. */
  datatype CameraMove = CameraMove(to: CameraPos, onTick: nat)

  /** A camera is its list of moves, in insertion order. */
  datatype Camera = Camera(moves: seq<CameraMove>)

  /** Width and height of every viewport, in tiles. */
  const VIEW_WIDTH: real := RESOLUTION_X as real / TILE_SIZE_PX as real
  const VIEW_HEIGHT: real := RESOLUTION_Y as real / TILE_SIZE_PX as real

  /** The zoom every synthesised pose is given. */
  const INITIAL_ZOOM: real := 1.0

  /**
   The forward scan over `moves` with `pos` the pose seen so far: it stops
   with the first move on exactly `tick`, or keeps `pos` at the first move
   after `tick`, and otherwise remembers each move it passes.
   */
  function Scan(moves: seq<CameraMove>, tick: nat, pos: Option<CameraPos>): (r: Option<CameraPos>)
    ensures r.None? <==> pos.None? && (|moves| == 0 || moves[0].onTick > tick)
    decreases |moves|
  {
    if |moves| == 0 then pos
    else if moves[0].onTick == tick then Some(moves[0].to)
    else if moves[0].onTick > tick then pos
    else Scan(moves[1..], tick, Some(moves[0].to))
  }

  /** The pose a camera holds at `tick`, if it has one yet. */
  function CameraPositionOnTick(camera: Camera, tick: nat): (r: Option<CameraPos>)
    ensures r.None? <==> |camera.moves| == 0 || camera.moves[0].onTick > tick
  {
    Scan(camera.moves, tick, None)
  }

  /** The viewport of a pose: fixed size, centred on the pose, zoom ignored. */
  function CameraPosToRect(camera: CameraPos): (r: Rect)
    ensures r.w == 120.0 && r.h == 67.5
    ensures Centre(r) == camera.pos
  {
    Rect(camera.pos.x - VIEW_WIDTH / 2.0, camera.pos.y - VIEW_HEIGHT / 2.0, VIEW_WIDTH, VIEW_HEIGHT)
  }

  /** The viewport of a camera at `tick`, if it has a pose then. */
  function CameraToRect(camera: Camera, tick: nat): (r: Option<Rect>)
    ensures r.None? <==> |camera.moves| == 0 || camera.moves[0].onTick > tick
    ensures r.Some? ==> r.value.w == 120.0 && r.value.h == 67.5
    ensures r.Some? ==> Centre(r.value) == CameraPositionOnTick(camera, tick).value.pos
  {
    match CameraPositionOnTick(camera, tick)
    case None => None
    case Some(p) => Some(CameraPosToRect(p))
  }

  /** The point an event is tested at. */
  function EventPoint(event: Event): Point2
  {
    Point2(event.x, event.y)
  }

  /** Whether the camera's viewport at the event's own tick holds the event. */
  predicate CanCameraSeeEvent(camera: Camera, event: Event)
    ensures CanCameraSeeEvent(camera, event) ==>
      |camera.moves| > 0 && camera.moves[0].onTick <= event.tick
    ensures CanCameraSeeEvent(camera, event) ==>
      Contains(CameraPosToRect(CameraPositionOnTick(camera, event.tick).value), EventPoint(event))
  {
    match CameraPositionOnTick(camera, event.tick)
    case None => false
    case Some(p) => Contains(CameraPosToRect(p), EventPoint(event))
  }

  /** The index of the first camera that sees `event`, if any does. */
  function FindSeeing(cameras: seq<Camera>, event: Event): (r: Option<nat>)
    ensures r.None? <==> forall k :: 0 <= k < |cameras| ==> !CanCameraSeeEvent(cameras[k], event)
    ensures r.Some? ==> r.value < |cameras| && CanCameraSeeEvent(cameras[r.value], event)
    ensures r.Some? ==> forall k :: 0 <= k < r.value ==> !CanCameraSeeEvent(cameras[k], event)
  {
    if |cameras| == 0 then None
    else if CanCameraSeeEvent(cameras[0], event) then Some(0)
    else
      match FindSeeing(cameras[1..], event)
      case None => None
      case Some(i) => Some(i + 1)
  }

  /** The camera opened for an unseen event: one move to the event's point. */
  function NewCamera(event: Event): (c: Camera)
    ensures CanCameraSeeEvent(c, event)
    ensures forall t: nat ::
      CameraPositionOnTick(c, t) == (if t < event.tick then None else Some(CameraPos(EventPoint(event), INITIAL_ZOOM)))
  {
    var m := CameraMove(CameraPos(Point2(event.x, event.y), INITIAL_ZOOM), event.tick);
    ScanSingle(m);
    ContainsCentre(CameraPosToRect(m.to));
    Camera([m])
  }

  /** A one-move list has no pose before its move and the move's pose from then on. */
  lemma ScanSingle(m: CameraMove)
    ensures forall t: nat :: Scan([m], t, None) == (if t < m.onTick then None else Some(m.to))
  {
    forall t: nat
      ensures Scan([m], t, None) == (if t < m.onTick then None else Some(m.to))
    {
      assert [m][1..] == [];
    }
  }

  /** One step of the greedy pass: open a camera for `event` unless one sees it. */
  function AddIfUnseen(cameras: seq<Camera>, event: Event): (r: seq<Camera>)
    ensures |cameras| <= |r| <= |cameras| + 1
    ensures r[..|cameras|] == cameras
    ensures |r| == |cameras| + 1 <==> forall k :: 0 <= k < |cameras| ==> !CanCameraSeeEvent(cameras[k], event)
    ensures |r| == |cameras| + 1 ==> r[|cameras|] == NewCamera(event)
    ensures exists k :: 0 <= k < |r| && CanCameraSeeEvent(r[k], event)
  {
    if FindSeeing(cameras, event).None? then
      assert CanCameraSeeEvent((cameras + [NewCamera(event)])[|cameras|], event);
      cameras + [NewCamera(event)]
    else
      cameras
  }

  /** Exactly one move, at zoom 1. */
  predicate SingleMove(camera: Camera)
  {
    |camera.moves| == 1 && camera.moves[0].to.zoom == INITIAL_ZOOM
  }

  /** The greedy pass over the events, in order, as a left fold. */
  function CalculateCameras(events: seq<Event>): (r: seq<Camera>)
    ensures |r| <= |events|
    ensures |events| == 0 ==> r == []
    ensures forall i :: 0 <= i < |r| ==> SingleMove(r[i])
  {
    if |events| == 0 then []
    else AddIfUnseen(CalculateCameras(events[..|events| - 1]), events[|events| - 1])
  }

}
