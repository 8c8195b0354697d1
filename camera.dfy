// The logical camera (Camera.py): the position in the game world the view is
// centred on, and the transform from world coordinates to screen pixels.
module Camera {
  import opened World
  import opened PyInt

  class Camera {
    /** Window size in pixels, read once at construction. */
    const winW: int
    const winH: int
    /** Screen centre: half the window size. */
    const centerX: int
    const centerY: int
    /** Pixels per world unit. */
    const worldScale: int
    /** Camera position in world coordinates. */
    var x: real
    var y: real
    /** Reserved zoom factor; no transform reads it. */
    var zoom: int

    constructor (winW: nat, winH: nat)
      ensures this.winW == winW && this.winH == winH
      ensures centerX == FloorDiv(winW, 2) && centerY == FloorDiv(winH, 2)
      ensures 0 <= centerX <= winW && 0 <= centerY <= winH
      ensures x == 0.0 && y == 0.0
      ensures worldScale == 100 && zoom == 1
    {
      this.winW := winW;
      this.winH := winH;
      centerX := FloorDiv(winW, 2);
      centerY := FloorDiv(winH, 2);
      x, y := 0.0, 0.0;
      worldScale := 100;
      zoom := 1;
    }

    /** Puts the camera at (nx, ny); no bounds checking, no smoothing. */
    method MoveTo(nx: real, ny: real)
      modifies this
      ensures x == nx && y == ny
      ensures zoom == old(zoom)
    {
      x := nx;
      y := ny;
    }

    /**
     * Where on screen a world position is drawn. The camera position is the
     * screen centre and both axes point the other way round from the world's.
     * The reads clause names only x and y: zoom has no effect.
     */
    function GetScreenPos(p: Point): (s: Point)
      reads this`x, this`y
      ensures p == Point(x, y) ==> s == Point(centerX as real, centerY as real)
    {
      Point(centerX as real + (x - p.x) * worldScale as real,
            centerY as real + (y - p.y) * worldScale as real)
    }

    /** The world position drawn at screen position s (the inverse transform). */
    function WorldPos(s: Point): (p: Point)
      requires worldScale != 0
      reads this`x, this`y
      ensures s == Point(centerX as real, centerY as real) ==> p == Point(x, y)
    {
      Point(x - (s.x - centerX as real) / worldScale as real,
            y - (s.y - centerY as real) / worldScale as real)
    }
  }

  /** Screen position back to world position gives the point back. */
  lemma WorldOfScreen(c: Camera, p: Point)
    requires c.worldScale != 0
    ensures c.WorldPos(c.GetScreenPos(p)) == p
  {
    var w := c.worldScale as real;
    var s := c.GetScreenPos(p);
    assert (s.x - c.centerX as real) / w == c.x - p.x by {
      assert s.x - c.centerX as real == (c.x - p.x) * w;
    }
    assert (s.y - c.centerY as real) / w == c.y - p.y by {
      assert s.y - c.centerY as real == (c.y - p.y) * w;
    }
  }

  /** World position to screen position gives the screen position back. */
  lemma ScreenOfWorld(c: Camera, s: Point)
    requires c.worldScale != 0
    ensures c.GetScreenPos(c.WorldPos(s)) == s
  {
    var w := c.worldScale as real;
    var p := c.WorldPos(s);
    assert (c.x - p.x) * w == s.x - c.centerX as real by {
      assert c.x - p.x == (s.x - c.centerX as real) / w;
    }
    assert (c.y - p.y) * w == s.y - c.centerY as real by {
      assert c.y - p.y == (s.y - c.centerY as real) / w;
    }
  }

  /**
   * Moving a point d units along a world axis moves its image -d * worldScale
   * pixels along that screen axis, and leaves the other screen axis alone.
   */
  lemma ScreenShift(c: Camera, p: Point, d: real)
    ensures c.GetScreenPos(Point(p.x + d, p.y)).x == c.GetScreenPos(p).x - d * c.worldScale as real
    ensures c.GetScreenPos(Point(p.x + d, p.y)).y == c.GetScreenPos(p).y
    ensures c.GetScreenPos(Point(p.x, p.y + d)).y == c.GetScreenPos(p).y - d * c.worldScale as real
    ensures c.GetScreenPos(Point(p.x, p.y + d)).x == c.GetScreenPos(p).x
  {
    var w := c.worldScale as real;
    var moved, base := Point(p.x + d, p.y), c.GetScreenPos(p);
    assert c.GetScreenPos(moved).y == c.centerY as real + (c.y - p.y) * w == base.y;
    assert (c.x - (p.x + d)) * w == (c.x - p.x) * w - d * w;
    assert (c.y - (p.y + d)) * w == (c.y - p.y) * w - d * w;
  }
}
