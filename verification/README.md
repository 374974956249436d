# Camera placement for a Factorio timelapse director — Dafny model

The timelapse director replays a log of activity events (a tick and a world
position each) and places cameras so that every event is filmed. This project
models the camera core of the program:

- `Events` — the event record and `Event::new`, which copies a raw log row
  and derives two point representations from it.
- `Cameras` — camera poses, moves and cameras; the position query
  `camera_position_on_tick` (a forward scan with an exact-tick tie rule); the
  viewport `camera_pos_to_rect` / `camera_to_rect` (a 120 × 67.5 tile
  rectangle centred on the pose, derived from a 3840 × 2160 resolution and
  32-pixel tiles, zoom ignored); the visibility test `can_camera_see_event`;
  and the greedy pass `calculate_cameras`, which opens a one-move camera for
  every event that no existing camera sees.
- `CameraLemmas` — the properties: a declarative reading of the position
  query (for any move list, sorted or not) and its sorted corollaries; the
  viewport's size, centre and zoom independence; and, for the greedy pass,
  prefix stability, the per-event step, coverage of every event and the
  origin of every camera.
- `Scenarios` — two concrete runs of the pass.
- `Geometry`, `Constants`, `Options` — the library point and rectangle types,
  the game constants, and the optional value.

Single-precision coordinates are modelled as exact reals. Ticks (`u64`) are
modelled as natural numbers; the core does no arithmetic on them. The
graphics library's `Rect::contains` is not part of this model; it is assumed
to be the closed rectangle (`Geometry.Contains`). The point tested against a
viewport is taken to be the event's `(x, y)`, as the conversion used by
`.contains(event)` is not part of this model either.

What the code does, stated against behaviours a reader might expect:

- There is no follow threshold, no point-to-rectangle distance and no position
  cache, and an existing camera is never given a further move. A
  threshold-based clusterer would assign each event to a nearby camera as a
  new move, so that moves matched events one for one. Here a camera is opened
  with one move and never changed, so the number of moves equals the number
  of cameras, which is at most the number of events
  (`CameraLemmas.PassMoves`).
- The query scans forward and returns the first move exactly on the tick, so
  with duplicate ticks the earliest duplicate wins
  (`CameraLemmas.SortedExactTick`), where a "last move at or before the tick"
  rule would pick the latest. On strictly ascending moves the two readings
  agree (`CameraLemmas.StrictlySortedActiveInterval`). On unsorted moves the
  scan stops at the first move not earlier than the tick: it returns that
  move's pose if the move is exactly on the tick, else the pose of the move
  just before it, else nothing (`CameraLemmas.PositionAtStop`).

## Model

| member | source | states |
|---|---|---|
| Events.NewEvent | src/event.rs:21-29 | the event keeps the row's tick, x and y; `point` and `geo_point` both hold (x, y); the row is recovered from the event |
| Events.NewEventBijection | src/event.rs:21-29 | an event is consistent exactly when rebuilding it from its own row gives it back; two rows build the same event only if they are equal |
| Cameras.Scan | src/camera.rs:89-97 | the scan yields nothing exactly when it started with nothing and the list is empty or begins after the tick; its full reading is `CameraLemmas.ScanAtStop` |
| Cameras.CameraPositionOnTick | src/camera.rs:86-100 | there is no pose exactly when the camera has no moves or its first move is after the tick; which pose is returned is stated by `CameraLemmas.PositionAtStop` and `CameraLemmas.PositionIsEarlierMove` |
| Cameras.CameraPosToRect | src/camera.rs:62-72 | the viewport is 120 wide and 67.5 high (3840/32 and 2160/32) and its centre is the pose's position |
| Cameras.CameraToRect | src/camera.rs:52-60 | there is no viewport exactly when there is no pose; otherwise it is 120 by 67.5 and centred on the pose at that tick |
| Cameras.CanCameraSeeEvent | src/camera.rs:76-84 | a camera that sees an event has a first move at or before the event's tick, and its viewport at that tick contains the event's point; the converse is `CameraLemmas.CanSeeIff` |
| Cameras.NewCamera | src/camera.rs:32-43 | the camera opened for an event has no pose before the event's tick and holds the event's point at zoom 1 at every tick from it on, so it sees that event |
| Cameras.FindSeeing | src/camera.rs:27-30 | finds nothing exactly when no camera sees the event; otherwise the index of a camera that sees it with none before it seeing it |
| Cameras.AddIfUnseen | src/camera.rs:26-46 | existing cameras are kept unchanged; one camera is appended exactly when none sees the event, and it is the event's own; afterwards some camera sees the event |
| Cameras.CalculateCameras | src/camera.rs:23-50 | no events give no cameras; there are never more cameras than events; every camera has exactly one move, at zoom 1 |
| CameraLemmas.ScanAtStop | src/camera.rs:89-97 | the scan returns the move exactly on the tick at the stop point, else the last move it passed, else what it started with |
| CameraLemmas.PositionAtStop | src/camera.rs:86-100 | with k the first move not earlier than the tick, the query returns move k's pose if it is on the tick, else move k-1's, else nothing |
| CameraLemmas.PositionNoneIff | src/camera.rs:86-100 | there is no pose exactly when the camera has no moves or its first move is after the tick |
| CameraLemmas.PositionIsEarlierMove | src/camera.rs:89-97 | a returned pose is the target of a move at or before the tick, and every move ahead of it is strictly before the tick |
| CameraLemmas.SortedExactTick | src/camera.rs:90-92 | on ascending moves the first move exactly on the tick is returned |
| CameraLemmas.SortedLastBefore | src/camera.rs:93-96 | on ascending moves with none on the tick, the last move before the tick is returned |
| CameraLemmas.StrictlySortedActiveInterval | src/camera.rs:86-100 | on strictly ascending moves, a move is returned from its own tick until the next move's tick |
| CameraLemmas.RectIgnoresZoom | src/camera.rs:62-72 | two poses have the same viewport exactly when they share a position, whatever their zooms |
| CameraLemmas.CameraToRectSpec | src/camera.rs:52-60 | there is no viewport exactly when there is no pose; otherwise it is 120 by 67.5 and centred on the target of a move at or before the tick |
| CameraLemmas.CanSeeIff | src/camera.rs:76-84 | a camera sees an event exactly when it has a pose at the event's tick and the event is within 60 horizontally and 33.75 vertically of it |
| CameraLemmas.UnbornCameraIsBlind | src/camera.rs:76-81 | a camera with no move at or before the event's tick does not see it |
| CameraLemmas.PrefixStable | src/camera.rs:26-46 | the cameras made for a prefix of the events are a prefix of those made for all of them |
| CameraLemmas.StepOfPass | src/camera.rs:26-46 | each event adds at most one camera, adds one exactly when no earlier camera sees it, and the added camera is the event's own |
| CameraLemmas.Coverage | src/camera.rs:23-49 | every input event is seen at its own tick by some resulting camera |
| CameraLemmas.OpenedForUnseenEvent | src/camera.rs:26-46 | every resulting camera is the camera of some input event that no earlier camera sees |
| CameraLemmas.MovesPerCamera | src/camera.rs:32-45 | when every camera has one move, the total number of moves is the number of cameras |
| CameraLemmas.PassMoves | src/camera.rs:23-50 | the pass produces as many moves as cameras, and at most as many as events |
| Geometry.ContainsCentre | src/camera.rs:83 | under the closed-rectangle reading of `contains`, a rectangle of non-negative size contains its centre |
| Scenarios.TwoClustersTwoCameras | src/camera.rs:23-50 | events at the origin at ticks 0 and 1 and one at (1000, 1000) at tick 2 give two cameras, for the first and third events |
| Scenarios.SingleEventCamera | src/camera.rs:23-50 | one event at tick 5 gives one camera with no pose at tick 4 and the event's pose from tick 5 on |

## Left out

- `src/main.rs`: window setup, drawing, mouse and keyboard handlers, CSV reading from standard input (which panics on a bad row) and the playback clock driven by frame time are I/O and presentation.
- `src/state.rs`: a plain UI-state record with no logic beyond a default flag.
- `src/conversions.rs`: `rect_to_geo` is a thin wrapper over a library constructor with no call site in the core.
- `TICK_PER_S` and `MINIMUM_ZOOM` in `src/constants.rs` are unused.
- CameraLemmas.Coverage: holds only for finite coordinates. The log's fields are parsed as single-precision floats, so a "NaN" field is accepted; with a NaN coordinate `contains` is false for every rectangle, so such an event opens a camera that never sees it. Coordinates that are not finite are outside the model.
- CameraLemmas.CanSeeIff: holds only for finite coordinates, for the same reason.
- Single-precision rounding: coordinates and the viewport arithmetic are exact reals. The viewport size (3840/32 and 2160/32) is exact in single precision; `x - w/2` may round in the program but not in the model.
- The 64-bit width of ticks: ticks are natural numbers, since the core never adds to or subtracts from a tick.
- `Rect::contains` belongs to the graphics library; it is assumed to include all four edges. An open or half-open reading would change which events on a viewport edge are seen, but not `Coverage`, which only needs a viewport to contain its own centre.
- Follow threshold, point-to-rectangle distance, appending moves to existing cameras and the position cache: the code has none of these, so they are not modelled.
