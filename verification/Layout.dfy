/** Geometry of the stitched flyer image: the canvas size and where each tile is
    pasted. Tile rows are numbered bottom-up in file names while image rows run
    top-down, so the vertical offset is flipped. */
module Layout {

  /** A pixel rectangle: left and top edges, width and height. */
  datatype Rect = Rect(left: int, top: int, width: int, height: int)

  predicate Inside(r: Rect, canvasWidth: int, canvasHeight: int)
  {
    0 <= r.left && r.left + r.width <= canvasWidth && 0 <= r.top && r.top + r.height <= canvasHeight
  }

  predicate Disjoint(a: Rect, b: Rect)
  {
    a.left + a.width <= b.left || b.left + b.width <= a.left
    || a.top + a.height <= b.top || b.top + b.height <= a.top
  }

  /** Canvas width: `(max_x + 1) * tile_width`. */
  function CanvasWidth(maxX: int, tileWidth: int): int
  {
    (maxX + 1) * tileWidth
  }

  /** Canvas height: `(max_y + 1) * tile_height`. */
  function CanvasHeight(maxY: int, tileHeight: int): int
  {
    (maxY + 1) * tileHeight
  }

  /** The rectangle a tile of the uniform size occupies when pasted at
      `(x * tile_width, (max_y - y) * tile_height)`. */
  function Cell(x: int, y: int, maxY: int, tileWidth: int, tileHeight: int): Rect
  {
    Rect(x * tileWidth, (maxY - y) * tileHeight, tileWidth, tileHeight)
  }

  lemma MulMonotone(a: int, b: int, k: int)
    requires a <= b && 0 <= k
    ensures a * k <= b * k
  {
    assert b * k - a * k == (b - a) * k;
  }

  /** A tile with `0 <= x <= max_x` and `0 <= y <= max_y` lies inside the canvas. */
  lemma CellInsideCanvas(x: int, y: int, maxX: int, maxY: int, tileWidth: int, tileHeight: int)
    requires 0 <= x <= maxX && 0 <= y <= maxY
    requires 0 < tileWidth && 0 < tileHeight
    ensures Inside(Cell(x, y, maxY, tileWidth, tileHeight), CanvasWidth(maxX, tileWidth), CanvasHeight(maxY, tileHeight))
  {
    MulMonotone(0, x, tileWidth);
    MulMonotone(x + 1, maxX + 1, tileWidth);
    MulMonotone(0, maxY - y, tileHeight);
    MulMonotone(maxY - y + 1, maxY + 1, tileHeight);
  }

  /** Different tile coordinates get rectangles that do not overlap. */
  lemma CellsDisjoint(x1: int, y1: int, x2: int, y2: int, maxY: int, tileWidth: int, tileHeight: int)
    requires (x1, y1) != (x2, y2)
    requires 0 < tileWidth && 0 < tileHeight
    ensures Disjoint(Cell(x1, y1, maxY, tileWidth, tileHeight), Cell(x2, y2, maxY, tileWidth, tileHeight))
  {
    if x1 < x2 {
      MulMonotone(x1 + 1, x2, tileWidth);
    } else if x2 < x1 {
      MulMonotone(x2 + 1, x1, tileWidth);
    } else if y1 < y2 {
      MulMonotone(maxY - y2 + 1, maxY - y1, tileHeight);
    } else {
      MulMonotone(maxY - y1 + 1, maxY - y2, tileHeight);
    }
  }

  /** Row 0 of the file names is the bottom strip of the canvas and row `max_y`
      the top strip; a higher file-name row is pasted strictly higher up. */
  lemma RowZeroAtBottom(x: int, y1: int, y2: int, maxY: int, tileWidth: int, tileHeight: int)
    requires 0 < tileHeight && y1 < y2
    ensures Cell(x, 0, maxY, tileWidth, tileHeight).top + tileHeight == CanvasHeight(maxY, tileHeight)
    ensures Cell(x, maxY, maxY, tileWidth, tileHeight).top == 0
    ensures Cell(x, y2, maxY, tileWidth, tileHeight).top < Cell(x, y1, maxY, tileWidth, tileHeight).top
  {
    MulMonotone(maxY - y2 + 1, maxY - y1, tileHeight);
  }
}
