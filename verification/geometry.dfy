/**
 The two geometric value types the camera code borrows from its graphics
 libraries: mint's `Point2<f32>` and ggez's `graphics::Rect`. Single-precision
 coordinates are modelled as exact reals.
 */
module Geometry {

  /** A point in world (tile) coordinates. */
  datatype Point2 = Point2(x: real, y: real)

  /** An axis-aligned rectangle given by its top-left corner and its size. */
  datatype Rect = Rect(x: real, y: real, w: real, h: real)

  /**
   Point containment. The library's implementation is not part of this model;
   it is assumed here to be the closed rectangle, edges included.
   */
  predicate Contains(r: Rect, p: Point2)
  {
    r.x <= p.x <= r.x + r.w && r.y <= p.y <= r.y + r.h
  }

  /** The centre of a rectangle. */
  function Centre(r: Rect): Point2
  {
    Point2(r.x + r.w / 2.0, r.y + r.h / 2.0)
  }

  /** A rectangle of non-negative size contains its own centre. */
  lemma ContainsCentre(r: Rect)
    requires r.w >= 0.0 && r.h >= 0.0
    ensures Contains(r, Centre(r))
  {
  }

}
