/** Plane geometry shared by the path and the motion commands: positions in
    millimetres and headings in radians, over the mathematical reals. */
module Geometry {

  /** A position on the floor (KVector2). */
  datatype Point = Point(x: real, y: real)

  /** A position with a heading (KPosition). */
  datatype Pose = Pose(position: Point, heading: real)
}
