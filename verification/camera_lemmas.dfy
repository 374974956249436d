/** Properties of the camera position query, the viewport and the greedy pass. */
module CameraLemmas {

  import opened Options
  import opened Geometry
  import opened Events
  import opened Cameras

  // ---------------------------------------------------------------------------
  // The position query

  /**
   `k` is where the scan stops: every move before it is strictly earlier than
   `tick`, and the move at `k`, if any, is at or after `tick`.
   */
  predicate ScanStop(moves: seq<CameraMove>, tick: nat, k: nat)
  {
    && k <= |moves|
    && (forall j :: 0 <= j < k ==> moves[j].onTick < tick)
    && (k < |moves| ==> moves[k].onTick >= tick)
  }

  /** The pose selected at stop `k`, with `pos` standing for "nothing passed". */
  function PoseAtStop(moves: seq<CameraMove>, tick: nat, k: nat, pos: Option<CameraPos>): Option<CameraPos>
    requires k <= |moves|
  {
    if k < |moves| && moves[k].onTick == tick then Some(moves[k].to)
    else if k == 0 then pos
    else Some(moves[k - 1].to)
  }

  /** Every move list has a stop. */
  lemma {:induction false} StopExists(moves: seq<CameraMove>, tick: nat) returns (k: nat)
    ensures ScanStop(moves, tick, k)
  {
    k := 0;
    while k < |moves| && moves[k].onTick < tick
      invariant k <= |moves|
      invariant forall j :: 0 <= j < k ==> moves[j].onTick < tick
    {
      k := k + 1;
    }
  }

  /** The scan returns the pose at its stop. */
  lemma {:induction false} ScanAtStop(moves: seq<CameraMove>, tick: nat, pos: Option<CameraPos>, k: nat)
    requires ScanStop(moves, tick, k)
    ensures Scan(moves, tick, pos) == PoseAtStop(moves, tick, k, pos)
    decreases |moves|
  {
    if |moves| > 0 && moves[0].onTick < tick {
      assert k > 0;
      assert ScanStop(moves[1..], tick, k - 1);
      ScanAtStop(moves[1..], tick, Some(moves[0].to), k - 1);
    }
  }

  /**
   The query's declarative reading: with `k` the index of the first move at
   or after `tick`, it returns that move's pose when it is exactly on `tick`,
   else the pose of the move just before `k`, else nothing.
   */
  lemma PositionAtStop(camera: Camera, tick: nat, k: nat)
    requires ScanStop(camera.moves, tick, k)
    ensures CameraPositionOnTick(camera, tick) == PoseAtStop(camera.moves, tick, k, None)
  {
    ScanAtStop(camera.moves, tick, None, k);
  }

  /** No pose exactly when there are no moves or the first one is later than `tick`. */
  lemma PositionNoneIff(camera: Camera, tick: nat)
    ensures CameraPositionOnTick(camera, tick).None?
        <==> |camera.moves| == 0 || camera.moves[0].onTick > tick
  {
    var k := StopExists(camera.moves, tick);
    PositionAtStop(camera, tick, k);
  }

  /**
   A returned pose is the target of a move at or before `tick`, and every
   move ahead of that one is strictly before `tick` (so none is after it).
   */
  lemma PositionIsEarlierMove(camera: Camera, tick: nat)
    ensures CameraPositionOnTick(camera, tick).Some? ==>
      exists i :: 0 <= i < |camera.moves|
        && camera.moves[i].to == CameraPositionOnTick(camera, tick).value
        && camera.moves[i].onTick <= tick
        && forall j :: 0 <= j < i ==> camera.moves[j].onTick < tick
  {
    var moves := camera.moves;
    var k := StopExists(moves, tick);
    PositionAtStop(camera, tick, k);
    if k < |moves| && moves[k].onTick == tick {
      assert moves[k].to == CameraPositionOnTick(camera, tick).value;
    } else if k > 0 {
      assert moves[k - 1].to == CameraPositionOnTick(camera, tick).value;
    }
  }

  /** Move ticks never decrease along the list. */
  predicate Ascending(moves: seq<CameraMove>)
  {
    forall i, j :: 0 <= i < j < |moves| ==> moves[i].onTick <= moves[j].onTick
  }

  /** Move ticks strictly increase along the list. */
  predicate StrictlyAscending(moves: seq<CameraMove>)
  {
    forall i, j :: 0 <= i < j < |moves| ==> moves[i].onTick < moves[j].onTick
  }

  /** On ascending moves, a move exactly on `tick` wins, the earliest of duplicates. */
  lemma SortedExactTick(camera: Camera, tick: nat, i: nat)
    requires Ascending(camera.moves)
    requires i < |camera.moves| && camera.moves[i].onTick == tick
    requires forall j :: 0 <= j < i ==> camera.moves[j].onTick != tick
    ensures CameraPositionOnTick(camera, tick) == Some(camera.moves[i].to)
  {
    PositionAtStop(camera, tick, i);
  }

  /** On ascending moves with none exactly on `tick`, the last earlier move wins. */
  lemma SortedLastBefore(camera: Camera, tick: nat, i: nat)
    requires Ascending(camera.moves)
    requires forall j :: 0 <= j < |camera.moves| ==> camera.moves[j].onTick != tick
    requires i < |camera.moves| && camera.moves[i].onTick < tick
    requires forall j :: i < j < |camera.moves| ==> camera.moves[j].onTick >= tick
    ensures CameraPositionOnTick(camera, tick) == Some(camera.moves[i].to)
  {
    PositionAtStop(camera, tick, i + 1);
  }

  /**
   On strictly ascending moves the query is "the last move at or before
   `tick`": move `i` is active from its own tick up to the next move's tick.
   */
  lemma StrictlySortedActiveInterval(camera: Camera, tick: nat, i: nat)
    requires StrictlyAscending(camera.moves)
    requires i < |camera.moves| && camera.moves[i].onTick <= tick
    requires i + 1 == |camera.moves| || tick < camera.moves[i + 1].onTick
    ensures CameraPositionOnTick(camera, tick) == Some(camera.moves[i].to)
  {
    var moves := camera.moves;
    if moves[i].onTick == tick {
      PositionAtStop(camera, tick, i);
    } else {
      assert forall j :: i < j < |moves| ==> moves[j].onTick >= moves[i + 1].onTick;
      PositionAtStop(camera, tick, i + 1);
    }
  }

  // ---------------------------------------------------------------------------
  // Viewports

  /** Two poses give the same viewport exactly when they look at the same point. */
  lemma RectIgnoresZoom(p: CameraPos, q: CameraPos)
    ensures CameraPosToRect(p) == CameraPosToRect(q) <==> p.pos == q.pos
  {
    if CameraPosToRect(p) == CameraPosToRect(q) {
      assert Centre(CameraPosToRect(p)) == Centre(CameraPosToRect(q));
    }
  }

  /**
   A camera has a viewport at `tick` exactly when it has a pose then, and that
   viewport is the fixed-size rectangle centred on the target of a move at or
   before `tick`.
   */
  lemma CameraToRectSpec(camera: Camera, tick: nat)
    ensures CameraToRect(camera, tick).None?
        <==> |camera.moves| == 0 || camera.moves[0].onTick > tick
    ensures CameraToRect(camera, tick).Some? ==>
      var r := CameraToRect(camera, tick).value;
      && r.w == 120.0 && r.h == 67.5
      && exists i :: 0 <= i < |camera.moves|
           && camera.moves[i].onTick <= tick
           && Centre(r) == camera.moves[i].to.pos
  {
    PositionNoneIff(camera, tick);
    PositionIsEarlierMove(camera, tick);
  }

  /**
   A camera sees an event exactly when it has a pose at the event's tick and
   the event lies within half a viewport of that pose on both axes.
   */
  lemma CanSeeIff(camera: Camera, event: Event)
    ensures CanCameraSeeEvent(camera, event) <==>
      && CameraPositionOnTick(camera, event.tick).Some?
      && var c := CameraPositionOnTick(camera, event.tick).value.pos;
         && c.x - 60.0 <= event.x <= c.x + 60.0
         && c.y - 33.75 <= event.y <= c.y + 33.75
  {
  }

  /** A camera with no pose at the event's tick sees nothing. */
  lemma UnbornCameraIsBlind(camera: Camera, event: Event)
    requires |camera.moves| == 0 || camera.moves[0].onTick > event.tick
    ensures !CanCameraSeeEvent(camera, event)
  {
    PositionNoneIff(camera, event.tick);
  }

  // ---------------------------------------------------------------------------
  // The greedy pass

  /** Earlier cameras are never changed by later events. */
  lemma {:induction false} PrefixStable(events: seq<Event>, n: nat)
    requires n <= |events|
    ensures |CalculateCameras(events[..n])| <= |CalculateCameras(events)|
    ensures CalculateCameras(events)[..|CalculateCameras(events[..n])|] == CalculateCameras(events[..n])
    decreases |events|
  {
    if n == |events| {
      assert events[..n] == events;
    } else {
      var m := |events| - 1;
      var pre := CalculateCameras(events[..n]);
      var mid := CalculateCameras(events[..m]);
      var all := CalculateCameras(events);
      assert events[..m][..n] == events[..n];
      PrefixStable(events[..m], n);
      LastStep(events);
      SlicePrefix(pre, mid, all);
    }
  }

  /** The pass over a non-empty list is one step after the pass over all but its last event. */
  lemma LastStep(events: seq<Event>)
    requires |events| > 0
    ensures CalculateCameras(events) == AddIfUnseen(CalculateCameras(events[..|events| - 1]), events[|events| - 1])
  {
  }

  /** Being a prefix is transitive. */
  lemma SlicePrefix<T>(a: seq<T>, b: seq<T>, c: seq<T>)
    requires |a| <= |b| <= |c| && b[..|a|] == a && c[..|b|] == b
    ensures c[..|a|] == a
  {
    assert forall i :: 0 <= i < |a| ==> c[i] == b[i];
  }

  /** Some camera of `cameras` sees `event`. */
  predicate Covered(cameras: seq<Camera>, event: Event)
  {
    exists i :: 0 <= i < |cameras| && CanCameraSeeEvent(cameras[i], event)
  }

  /** Coverage survives appending cameras. */
  lemma CoveredExtends(before: seq<Camera>, after: seq<Camera>, event: Event)
    requires |before| <= |after| && after[..|before|] == before
    requires Covered(before, event)
    ensures Covered(after, event)
  {
    var i :| 0 <= i < |before| && CanCameraSeeEvent(before[i], event);
    assert after[i] == before[i];
  }

  /**
   Event `n` opens a camera exactly when no camera opened for the events
   before it sees it; the new camera is the event's own, and at most one is
   opened.
   */
  lemma StepOfPass(events: seq<Event>, n: nat)
    requires n < |events|
    ensures var before := CalculateCameras(events[..n]);
      var after := CalculateCameras(events[..n + 1]);
      && |before| <= |after| <= |before| + 1
      && after[..|before|] == before
      && (|after| == |before| + 1 <==> !Covered(before, events[n]))
      && (|after| == |before| + 1 ==> after[|before|] == NewCamera(events[n]))
  {
    assert events[..n + 1][..n] == events[..n];
  }

  /** Every event is seen, at its own tick, by some camera of the result. */
  lemma {:induction false} Coverage(events: seq<Event>)
    ensures forall j :: 0 <= j < |events| ==> Covered(CalculateCameras(events), events[j])
    decreases |events|
  {
    if |events| > 0 {
      var m := |events| - 1;
      var before := CalculateCameras(events[..m]);
      var after := CalculateCameras(events);
      assert after == AddIfUnseen(before, events[m]);
      Coverage(events[..m]);
      forall j | 0 <= j < |events|
        ensures Covered(after, events[j])
      {
        if j < m {
          assert events[..m][j] == events[j];
          CoveredExtends(before, after, events[j]);
        }
      }
    }
  }

  /** Camera `i` of `cameras` is the one opened for `event`, which no earlier camera sees. */
  predicate OpenedFor(cameras: seq<Camera>, i: nat, event: Event)
    requires i < |cameras|
  {
    && cameras[i] == NewCamera(event)
    && forall k :: 0 <= k < i ==> !CanCameraSeeEvent(cameras[k], event)
  }

  /** Camera `i` of `cameras` was opened for one of `events`. */
  predicate OpenedForSomeEvent(cameras: seq<Camera>, i: nat, events: seq<Event>)
    requires i < |cameras|
  {
    exists j :: 0 <= j < |events| && OpenedFor(cameras, i, events[j])
  }

  /**
   Every camera of the result was opened for some event that no camera
   opened earlier sees: it is that event's camera.
   */
  lemma {:induction false} OpenedForUnseenEvent(events: seq<Event>)
    ensures forall i :: 0 <= i < |CalculateCameras(events)| ==>
      OpenedForSomeEvent(CalculateCameras(events), i, events)
    decreases |events|
  {
    if |events| > 0 {
      var m := |events| - 1;
      var before := CalculateCameras(events[..m]);
      var r := CalculateCameras(events);
      assert r == AddIfUnseen(before, events[m]);
      OpenedForUnseenEvent(events[..m]);
      forall i | 0 <= i < |r|
        ensures OpenedForSomeEvent(r, i, events)
      {
        if i < |before| {
          assert OpenedForSomeEvent(before, i, events[..m]);
          var j :| 0 <= j < m && OpenedFor(before, i, events[..m][j]);
          assert events[..m][j] == events[j];
          assert forall k :: 0 <= k <= i ==> r[k] == before[k];
          assert OpenedFor(r, i, events[j]);
        } else {
          assert OpenedFor(r, i, events[m]);
        }
      }
    }
  }

  /** Total number of moves over all cameras. */
  function TotalMoves(cameras: seq<Camera>): nat
  {
    if |cameras| == 0 then 0 else TotalMoves(cameras[..|cameras| - 1]) + |cameras[|cameras| - 1].moves|
  }

  /** Cameras of one move each hold as many moves as there are cameras. */
  lemma {:induction false} MovesPerCamera(cameras: seq<Camera>)
    requires forall i :: 0 <= i < |cameras| ==> SingleMove(cameras[i])
    ensures TotalMoves(cameras) == |cameras|
    decreases |cameras|
  {
    if |cameras| > 0 {
      MovesPerCamera(cameras[..|cameras| - 1]);
    }
  }

  /**
   The pass makes one move per camera, not one per event: the number of moves
   it produces is the number of cameras, which is at most the number of events.
   */
  lemma PassMoves(events: seq<Event>)
    ensures TotalMoves(CalculateCameras(events)) == |CalculateCameras(events)| <= |events|
  {
    MovesPerCamera(CalculateCameras(events));
  }

}
