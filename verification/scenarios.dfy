/** Worked runs of the greedy pass and the position query on concrete events. */
module Scenarios {

  import opened Options
  import opened Geometry
  import opened Events
  import opened Cameras
  import opened CameraLemmas

  function Ev(tick: nat, x: real, y: real): Event
  {
    NewEvent(RawEvent(tick, x, y))
  }

  /**
   Two events at the origin and one far away: the second event is seen by the
   first event's camera (its pose still holds at tick 1), the third opens a
   second camera. Each camera keeps its single move.
   */
  lemma TwoClustersTwoCameras()
    ensures CalculateCameras([Ev(0, 0.0, 0.0), Ev(1, 0.0, 0.0), Ev(2, 1000.0, 1000.0)])
         == [NewCamera(Ev(0, 0.0, 0.0)), NewCamera(Ev(2, 1000.0, 1000.0))]
  {
    var es := [Ev(0, 0.0, 0.0), Ev(1, 0.0, 0.0), Ev(2, 1000.0, 1000.0)];
    var c0 := NewCamera(es[0]);
    assert es[..1] == [es[0]] && es[..2] == [es[0], es[1]];
    assert CalculateCameras(es[..1]) == [c0];
    StrictlySortedActiveInterval(c0, 1, 0);
    assert CanCameraSeeEvent(c0, es[1]);
    assert CalculateCameras(es[..2]) == [c0];
    StrictlySortedActiveInterval(c0, 2, 0);
    CanSeeIff(c0, es[2]);
    assert !CanCameraSeeEvent(c0, es[2]);
  }

  /**
   A single event at tick 5 gives one camera, which has no pose at tick 4 and
   holds the event's pose from tick 5 on.
   */
  lemma SingleEventCamera(t: nat)
    ensures CalculateCameras([Ev(5, 3.0, 4.0)]) == [NewCamera(Ev(5, 3.0, 4.0))]
    ensures CameraPositionOnTick(NewCamera(Ev(5, 3.0, 4.0)), 4) == None
    ensures t >= 5 ==> CameraPositionOnTick(NewCamera(Ev(5, 3.0, 4.0)), t) == Some(CameraPos(Point2(3.0, 4.0), 1.0))
  {
    assert [Ev(5, 3.0, 4.0)][..0] == [];
    PositionNoneIff(NewCamera(Ev(5, 3.0, 4.0)), 4);
    if t >= 5 {
      StrictlySortedActiveInterval(NewCamera(Ev(5, 3.0, 4.0)), t, 0);
    }
  }

}
