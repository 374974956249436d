/**
 The event record the camera algorithm consumes: one recorded spot of
 activity, at a tick, in world coordinates.
 */
module Events {

  import opened Geometry

  /** geo's `Point` (double precision); widening from single precision is exact. */
  datatype GeoPoint = GeoPoint(x: real, y: real)

  /** A row as deserialised from the event log. */
  datatype RawEvent = RawEvent(tick: nat, x: real, y: real)

  /** An event, carrying its coordinates both as scalars and as two point types. */
  datatype Event = Event(tick: nat, x: real, y: real, point: Point2, geoPoint: GeoPoint)

  /** An event whose two point fields agree with its scalar coordinates. */
  predicate Consistent(e: Event)
  {
    e.point == Point2(e.x, e.y) && e.geoPoint == GeoPoint(e.x, e.y)
  }

  /** The raw row an event was built from. */
  function ToRaw(e: Event): RawEvent
  {
    RawEvent(e.tick, e.x, e.y)
  }

  /** `Event::new`: copies the row's fields and derives both points from them. */
  function NewEvent(raw: RawEvent): (e: Event)
    ensures e.tick == raw.tick && e.x == raw.x && e.y == raw.y
    ensures e.point.x == raw.x && e.point.y == raw.y
    ensures e.geoPoint.x == raw.x && e.geoPoint.y == raw.y
    ensures Consistent(e) && ToRaw(e) == raw
  {
    Event(raw.tick, raw.x, raw.y, Point2(raw.x, raw.y), GeoPoint(raw.x, raw.y))
  }

  /**
   Building is a bijection between raw rows and consistent events: every
   consistent event is rebuilt from its own row, and distinct rows give
   distinct events.
   */
  lemma NewEventBijection(raw: RawEvent, raw': RawEvent, e: Event)
    ensures Consistent(e) <==> NewEvent(ToRaw(e)) == e
    ensures NewEvent(raw) == NewEvent(raw') <==> raw == raw'
  {
    if NewEvent(raw) == NewEvent(raw') {
      assert ToRaw(NewEvent(raw)) == ToRaw(NewEvent(raw'));
    }
  }

}
