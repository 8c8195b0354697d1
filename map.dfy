// The tile map (Map.py): a loaded image whose pixels are tiles, a classifier
// from a world position to a tile kind, and the draw pass that lays the
// visible tiles on screen with a sub-tile scroll offset.
module Map {
  import opened PyInt
  import opened Bitmap
  import opened Wrappers

  /** Tile kinds, which are also indices into TILE_IMAGES. */
  const WALL := 0
  const GROUND := 1
  const DARK := 2

  /** Side of one tile on screen, in pixels. */
  const TILE_SIZE := 128

  /** Red values below this are walls, the rest ground. */
  const RED_THRESHOLD := 10

  /** The tile sprites `drawTile` picks from, by tile kind. */
  const TILE_IMAGES: seq<string> := [
    "./img/map/tiles_beeg_stones.png",
    "./img/map/tiles_smol_stones.png",
    "./img/map/tiles_dark_stone.png"
  ]

  /** One `drawTile` call: which tile, and where its top-left corner goes on screen. */
  datatype TileDraw = TileDraw(tile: int, screenX: int, screenY: int)

  /** Python's `range(0, n)` has max(n, 0) elements. */
  function RangeLength(n: int): (k: nat)
    ensures n >= 0 ==> k == n
    ensures n <= 0 ==> k == 0
  {
    if n > 0 then n else 0
  }

  /** How many tile columns `drawMap` covers for a view `width` pixels wide (one overscan column included). */
  function VisibleColumns(width: int): (k: nat)
    ensures width >= 0 ==> k == width / TILE_SIZE + 1
    ensures width < -TILE_SIZE ==> k == 0
  {
    RangeLength(FloorDiv(width, TILE_SIZE) + 1)
  }

  class Map {
    /** None until a map is loaded. */
    var mapImage: Option<Image>

    constructor ()
      ensures mapImage == None
    {
      mapImage := None;
    }

    /** Replaces the current map image (the file read is outside the model). */
    method LoadMap(img: Image)
      modifies this
      ensures mapImage == Some(img)
    {
      mapImage := Some(img);
    }

    /**
     * The tile under a world position. Both coordinates are first truncated
     * toward zero (Python `int()`); with no map, or outside the image, the
     * tile is DARK; inside, the red channel decides WALL or GROUND.
     */
    function GetTileAtPixelPos(px: real, py: real): (t: int)
      reads this`mapImage
      ensures 0 <= t < |TILE_IMAGES|
      ensures mapImage.None? ==> t == DARK
      ensures mapImage.Some? ==>
                (t == DARK <==> !InBounds(mapImage.value, Trunc(px), Trunc(py)))
      ensures mapImage.Some? && InBounds(mapImage.value, Trunc(px), Trunc(py)) ==>
                (t == WALL <==> RedAt(mapImage.value, Trunc(px), Trunc(py)) < RED_THRESHOLD)
    {
      var x, y := Trunc(px), Trunc(py);
      if mapImage.None? then DARK
      else if x < 0 || x >= mapImage.value.width || y < 0 || y >= mapImage.value.height then DARK
      else if RedAt(mapImage.value, x, y) < RED_THRESHOLD then WALL
      else GROUND
    }

    /**
     * The draw for loop cell (x, y) of `drawMap`, given the truncated top-left
     * corner of the view: the tile under map cell (leftPx // 128 + x,
     * topPx // 128 + y), drawn at that cell's pixel position relative to the
     * view, so the scroll offset lies in (-TILE_SIZE, 0].
     */
    function CellDraw(leftPx: int, topPx: int, x: int, y: int): (d: TileDraw)
      reads this`mapImage
      ensures 0 <= d.tile < |TILE_IMAGES|
      ensures d.tile == GetTileAtPixelPos((FloorDiv(leftPx, TILE_SIZE) + x) as real, (FloorDiv(topPx, TILE_SIZE) + y) as real)
    {
      var sampleX := FloorDiv(leftPx, TILE_SIZE) + x;
      var sampleY := FloorDiv(topPx, TILE_SIZE) + y;
      var offsetX := -FloorMod(leftPx, TILE_SIZE);
      var offsetY := -FloorMod(topPx, TILE_SIZE);
      TileDraw(GetTileAtPixelPos(sampleX as real, sampleY as real),
               offsetX + x * TILE_SIZE, offsetY + y * TILE_SIZE)
    }

    /** Column x of the layout: the cells (x, 0) .. (x, rows - 1), top to bottom. */
    function Column(leftPx: int, topPx: int, x: int, rows: nat): (c: seq<TileDraw>)
      reads this`mapImage
      ensures |c| == rows
    {
      if rows == 0 then [] else Column(leftPx, topPx, x, rows - 1) + [CellDraw(leftPx, topPx, x, rows - 1)]
    }

    /** The first `cols` columns of the layout, left to right. */
    function Layout(leftPx: int, topPx: int, cols: nat, rows: nat): seq<TileDraw>
      reads this`mapImage
    {
      if cols == 0 then [] else Layout(leftPx, topPx, cols - 1, rows) + Column(leftPx, topPx, cols - 1, rows)
    }

    /**
     * Lays out the tiles visible in a view whose top-left corner is
     * (left, top) and whose size is width x height pixels, x as the outer
     * loop and y as the inner one. The view is passed in because the
     * camera has no `getCameraBounds`.
     */
    method DrawMap(left: real, top: real, width: int, height: int) returns (draws: seq<TileDraw>)
      ensures mapImage.None? ==> draws == []
      ensures mapImage.Some? ==>
                draws == Layout(Trunc(left), Trunc(top), VisibleColumns(width), VisibleColumns(height))
    {
      draws := [];
      if mapImage.None? {
        return;
      }
      var topPx, leftPx := Trunc(top), Trunc(left);
      var columns := FloorDiv(width, TILE_SIZE) + 1;
      var rows := FloorDiv(height, TILE_SIZE) + 1;
      ghost var cols, rws := VisibleColumns(width), VisibleColumns(height);
      assert cols == RangeLength(columns) && rws == RangeLength(rows);
      var x := 0;
      while x < columns
        invariant 0 <= x <= cols
        invariant draws == Layout(leftPx, topPx, x, rws)
      {
        var column := DrawColumn(leftPx, topPx, x, rows);
        draws := draws + column;
        x := x + 1;
      }
    }

    /** The inner loop of `drawMap`: the cells of column x, top to bottom. */
    method DrawColumn(leftPx: int, topPx: int, x: int, rows: int) returns (column: seq<TileDraw>)
      ensures column == Column(leftPx, topPx, x, RangeLength(rows))
    {
      column := [];
      var y := 0;
      while y < rows
        invariant 0 <= y <= RangeLength(rows)
        invariant column == Column(leftPx, topPx, x, y)
      {
        column := column + [CellDraw(leftPx, topPx, x, y)];
        y := y + 1;
      }
    }
  }

  /**
   * Loop cell (x, y) is drawn at its map cell's pixel position relative to
   * the view corner, so the scroll offset lies in (-TILE_SIZE, 0] on each axis.
   */
  lemma CellDrawPlacement(m: Map, leftPx: int, topPx: int, x: int, y: int)
    ensures m.CellDraw(leftPx, topPx, x, y).screenX == (FloorDiv(leftPx, TILE_SIZE) + x) * TILE_SIZE - leftPx
    ensures m.CellDraw(leftPx, topPx, x, y).screenY == (FloorDiv(topPx, TILE_SIZE) + y) * TILE_SIZE - topPx
    ensures -TILE_SIZE < m.CellDraw(leftPx, topPx, x, y).screenX - x * TILE_SIZE <= 0
    ensures -TILE_SIZE < m.CellDraw(leftPx, topPx, x, y).screenY - y * TILE_SIZE <= 0
  {
  }

  /**
   * The layout holds cols * rows draws, column after column: cell (x, y) is
   * the (x * rows + y)-th draw, so x is the outer loop and y the inner one.
   */
  lemma LayoutAt(m: Map, leftPx: int, topPx: int, cols: nat, rows: nat, x: nat, y: nat)
    requires x < cols && y < rows
    ensures |m.Layout(leftPx, topPx, cols, rows)| == cols * rows
    ensures m.Layout(leftPx, topPx, cols, rows)[x * rows + y] == m.CellDraw(leftPx, topPx, x, y)
  {
    LayoutLength(m, leftPx, topPx, cols, rows);
    CellAtColumnStart(m, leftPx, topPx, cols, rows, x, y);
    ColumnStartIsProduct(x, rows);
  }

  /** Where column x starts in the layout: after x columns of `rows` draws each. */
  function ColumnStart(x: nat, rows: nat): nat {
    if x == 0 then 0 else ColumnStart(x - 1, rows) + rows
  }

  lemma {:induction false} ColumnStartIsProduct(x: nat, rows: nat)
    ensures ColumnStart(x, rows) == x * rows
  {
    if x > 0 {
      ColumnStartIsProduct(x - 1, rows);
      assert x * rows == (x - 1) * rows + rows;
    }
  }

  /** A cell of an earlier column lies before the start of a later one. */
  lemma {:induction false} ColumnStartBefore(x: nat, y: nat, c: nat, rows: nat)
    requires x < c && y < rows
    ensures ColumnStart(x, rows) + y < ColumnStart(c, rows)
  {
    if x < c - 1 {
      ColumnStartBefore(x, y, c - 1, rows);
    }
  }

  /** The layout of `cols` columns ends where column `cols` would start. */
  lemma {:induction false} LayoutEndsAtColumnStart(m: Map, leftPx: int, topPx: int, cols: nat, rows: nat)
    ensures |m.Layout(leftPx, topPx, cols, rows)| == ColumnStart(cols, rows)
  {
    if cols > 0 {
      LayoutEndsAtColumnStart(m, leftPx, topPx, cols - 1, rows);
    }
  }

  /** Cell (x, y) sits y draws after the start of column x. */
  lemma {:induction false} CellAtColumnStart(m: Map, leftPx: int, topPx: int, cols: nat, rows: nat, x: nat, y: nat)
    requires x < cols && y < rows
    ensures ColumnStart(x, rows) + y < |m.Layout(leftPx, topPx, cols, rows)|
    ensures m.Layout(leftPx, topPx, cols, rows)[ColumnStart(x, rows) + y] == m.CellDraw(leftPx, topPx, x, y)
  {
    var prev := m.Layout(leftPx, topPx, cols - 1, rows);
    var last := m.Column(leftPx, topPx, cols - 1, rows);
    assert m.Layout(leftPx, topPx, cols, rows) == prev + last;
    LayoutEndsAtColumnStart(m, leftPx, topPx, cols - 1, rows);
    var k := ColumnStart(x, rows) + y;
    if x < cols - 1 {
      ColumnStartBefore(x, y, cols - 1, rows);
      CellAtColumnStart(m, leftPx, topPx, cols - 1, rows, x, y);
      assert (prev + last)[k] == prev[k];
    } else {
      ColumnAt(m, leftPx, topPx, x, rows, y);
      assert (prev + last)[k] == last[y];
    }
  }

  /** Row y of column x is cell (x, y). */
  lemma {:induction false} ColumnAt(m: Map, leftPx: int, topPx: int, x: int, rows: nat, y: nat)
    requires y < rows
    ensures m.Column(leftPx, topPx, x, rows)[y] == m.CellDraw(leftPx, topPx, x, y)
  {
    if y < rows - 1 {
      ColumnAt(m, leftPx, topPx, x, rows - 1, y);
    }
  }

  /** The layout of `cols` columns of `rows` tiles has cols * rows draws. */
  lemma LayoutLength(m: Map, leftPx: int, topPx: int, cols: nat, rows: nat)
    ensures |m.Layout(leftPx, topPx, cols, rows)| == cols * rows
  {
    LayoutEndsAtColumnStart(m, leftPx, topPx, cols, rows);
    ColumnStartIsProduct(cols, rows);
  }

}
