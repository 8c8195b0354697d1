// The map image as the model sees it: only its red channel matters, so an
// image is a grid of red values indexed like pygame's `get_at((x, y))`.
module Bitmap {

  datatype Grid = Grid(width: nat, height: nat, red: seq<seq<int>>)

  /** A loaded image: `red[x][y]` is the red value of pixel (x, y). */
  type Image = g: Grid | |g.red| == g.width && forall x :: 0 <= x < |g.red| ==> |g.red[x]| == g.height
    witness Grid(0, 0, [])

  /** The pixel (x, y) lies inside the image. */
  predicate InBounds(img: Image, x: int, y: int) {
    0 <= x < img.width && 0 <= y < img.height
  }

  /** The red channel of pixel (x, y). */
  function RedAt(img: Image, x: int, y: int): int
    requires InBounds(img, x, y)
  {
    img.red[x][y]
  }
}
