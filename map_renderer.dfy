// The earlier tile-map revision (MapRenderer.py). Its classifier tests the
// bounds on the raw coordinates and truncates only when it samples a pixel.
module MapRenderer {
  import opened PyInt
  import opened Bitmap
  import opened Wrappers
  import Map

  const WALL := 0
  const GROUND := 1
  const DARK := 2

  const RED_THRESHOLD := 10

  class MapRenderer {
    /** None until a map is loaded. */
    var mapImage: Option<Image>

    constructor ()
      ensures mapImage == None
    {
      mapImage := None;
    }

    /** Replaces the current map image (the file read is outside the model). */
    method LoadMap(img: Image)
      modifies this
      ensures mapImage == Some(img)
    {
      mapImage := Some(img);
    }

    /**
     * The tile under a world position: DARK with no map or when the raw
     * position is outside [0, width) x [0, height); otherwise the red channel
     * of pixel (int(px), int(py)) decides WALL or GROUND.
     */
    function GetTileAtPixelPos(px: real, py: real): (t: int)
      reads this`mapImage
      ensures t == WALL || t == GROUND || t == DARK
      ensures mapImage.None? ==> t == DARK
      ensures mapImage.Some? ==>
                (t == DARK <==> !(0.0 <= px < mapImage.value.width as real && 0.0 <= py < mapImage.value.height as real))
      ensures mapImage.Some? && t != DARK ==>
                InBounds(mapImage.value, Trunc(px), Trunc(py)) &&
                (t == WALL <==> RedAt(mapImage.value, Trunc(px), Trunc(py)) < RED_THRESHOLD)
    {
      if mapImage.None? then DARK
      else if px < 0.0 || px >= mapImage.value.width as real || py < 0.0 || py >= mapImage.value.height as real then DARK
      else if RedAt(mapImage.value, Trunc(px), Trunc(py)) < RED_THRESHOLD then WALL
      else GROUND
    }
  }

  /** Both revisions use the same tile codes. */
  lemma SameTileCodes()
    ensures WALL == Map.WALL && GROUND == Map.GROUND && DARK == Map.DARK
  {
  }

  /** On non-negative coordinates the two revisions classify alike. */
  lemma AgreesWithMap(r: MapRenderer, m: Map.Map, px: real, py: real)
    requires r.mapImage == m.mapImage
    requires 0.0 <= px && 0.0 <= py
    ensures r.GetTileAtPixelPos(px, py) == m.GetTileAtPixelPos(px, py)
  {
    if r.mapImage.Some? {
      var img := r.mapImage.value;
      assert InBounds(img, Trunc(px), Trunc(py)) <==>
             (px < img.width as real && py < img.height as real);
    }
  }

  /**
   * For an x in (-1, 0) the revisions part: this one answers DARK, while
   * Map truncates x to column 0 and samples the image there.
   */
  lemma DiffersLeftOfZero(r: MapRenderer, m: Map.Map, px: real, py: real)
    requires r.mapImage == m.mapImage && r.mapImage.Some?
    requires -1.0 < px < 0.0
    requires r.mapImage.value.width > 0 && 0.0 <= py < r.mapImage.value.height as real
    ensures r.GetTileAtPixelPos(px, py) == DARK
    ensures m.GetTileAtPixelPos(px, py) != DARK
    ensures m.GetTileAtPixelPos(px, py) == m.GetTileAtPixelPos(0.0, py)
  {
    assert Trunc(px) == 0;
  }
}
