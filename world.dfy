// The positional state every in-world object shares (WorldEntity.py). Movement
// along a heading uses sine and cosine of floating-point angles; the model keeps
// that computation opaque as a `Polar` function supplied by the caller.
module World {

  /** A 2-D position in world pixels (pygame.Vector2 or an (x, y) tuple). */
  datatype Point = Point(x: real, y: real)

  /** Component-wise `a - b`. */
  function Sub(a: Point, b: Point): Point {
    Point(a.x - b.x, a.y - b.y)
  }

  /**
   * The displacement `(sin(angle) * magnitude, cos(angle) * magnitude)` for an
   * angle in degrees; left opaque (floating-point trigonometry).
   */
  type Polar = (real, real) -> Point

  /** `move_by_angle_and_magnitude`: the entity steps back along the heading. */
  function MoveByAngleAndMagnitude(pos: Point, angle: real, magnitude: real, polar: Polar): (p: Point)
    ensures Sub(pos, p) == polar(angle, magnitude)
  {
    Sub(pos, polar(angle, magnitude))
  }
}
