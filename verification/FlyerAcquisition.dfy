/** The flyer acquisition pipeline: find a flyer's tile path in the listing,
    discover its tiles row by row, stitch them into one image and chain the
    stages. HTTP calls become inputs: the listing is a `ListingResponse`,
    the tile host a `TileHost` per flyer path. */
module FlyerAcquisition {
  import opened Wrappers
  import opened PyStrings
  import opened TileGrid
  import opened Layout

  // ---------------------------------------------------------------- locator

  /** A flyer's `id` as the listing's JSON gives it: a number or a string. */
  datatype FlyerId = IntId(n: int) | TextId(s: string)

  /** One entry of the listing's `flyers` array. A missing `merchant` reads as
      `""`, a missing `categories` as `[]`, a missing `id` or `path` as None. */
  datatype FlyerRecord = FlyerRecord(merchant: string, categories: seq<string>,
                                     id: Option<FlyerId>, path: Option<string>)

  /** What fetching the listing gives: the `flyers` array (empty when the key is
      missing), or an error (request failure, bad status, undecodable JSON). */
  datatype ListingResponse = Listing(flyers: seq<FlyerRecord>) | ListingUnavailable

  /** The locator's answer: the flyer id, rendered with `str`, and its tile path. */
  datatype LocatedFlyer = LocatedFlyer(flyerId: string, path: string)

  /** Python truthiness of the `id` and `path` values. */
  predicate IdTruthy(id: Option<FlyerId>)
  {
    match id
    case None => false
    case Some(IntId(n)) => n != 0
    case Some(TextId(s)) => s != []
  }

  predicate PathTruthy(path: Option<string>)
  {
    path.Some? && path.value != []
  }

  /** `str(flyer_id)`. */
  function IdText(id: FlyerId): string
  {
    match id
    case IntId(n) => IntToStr(n)
    case TextId(s) => s
  }

  /** The stripped merchant equals `merchantName` ignoring case, and `category` is
      one of the stripped categories (compared exactly). */
  predicate Matches(f: FlyerRecord, merchantName: string, category: string)
  {
    && Lower(Strip(f.merchant)) == Lower(merchantName)
    && exists i :: 0 <= i < |f.categories| && Strip(f.categories[i]) == category
  }

  /** A matching flyer that can be returned: its id and path are both truthy. */
  predicate Eligible(f: FlyerRecord, merchantName: string, category: string)
  {
    Matches(f, merchantName, category) && IdTruthy(f.id) && PathTruthy(f.path)
  }

  /** The scan over `flyers` from index `k` on: the index of the first eligible
      flyer, or `|flyers|` when there is none. A matching flyer with a falsy id
      or path is skipped and the scan goes on. */
  function FirstEligible(flyers: seq<FlyerRecord>, k: nat, merchantName: string, category: string): (i: nat)
    requires k <= |flyers|
    ensures k <= i <= |flyers|
    ensures i < |flyers| ==> Eligible(flyers[i], merchantName, category)
    ensures forall j :: k <= j < i ==> !Eligible(flyers[j], merchantName, category)
    decreases |flyers| - k
  {
    if k == |flyers| || Eligible(flyers[k], merchantName, category) then k
    else FirstEligible(flyers, k + 1, merchantName, category)
  }

  function Located(f: FlyerRecord): (r: LocatedFlyer)
    requires IdTruthy(f.id) && PathTruthy(f.path)
    ensures r.flyerId != [] && r.path != []
  {
    LocatedFlyer(IdText(f.id.value), f.path.value)
  }

  /** `find_flyer_path_from_flipp`: the id and path of the first eligible flyer in
      listing order, or None when the listing is unavailable or empty or no flyer
      is eligible. */
  function FindFlyerPathFromFlipp(response: ListingResponse, merchantName: string, category: string): (r: Option<LocatedFlyer>)
    ensures r.None? <==> response.ListingUnavailable?
                         || forall i :: 0 <= i < |response.flyers| ==> !Eligible(response.flyers[i], merchantName, category)
    ensures r.Some? ==> exists i :: 0 <= i < |response.flyers|
                          && Eligible(response.flyers[i], merchantName, category)
                          && (forall j :: 0 <= j < i ==> !Eligible(response.flyers[j], merchantName, category))
                          && r.value == Located(response.flyers[i])
    ensures r.Some? ==> r.value.flyerId != [] && r.value.path != []
  {
    match response
    case ListingUnavailable => None
    case Listing(flyers) =>
      if flyers == [] then None
      else
        var i := FirstEligible(flyers, 0, merchantName, category);
        if i < |flyers| then Some(Located(flyers[i])) else None
  }

  // ------------------------------------------------------- tile discovery

  /** What discovery hands to stitching: the recorded tiles in the order they
      were recorded (the keys of `downloaded_tiles`), `max_x_found`,
      `max_y_found`, and the tile size read from the first tile. */
  datatype Discovery = Discovery(tiles: seq<Tile>, maxX: int, maxY: int, tileWidth: int, tileHeight: int)

  /** The row and column scan of `download_and_stitch_flyer_image`. Columns of a
      row are requested 0, 1, 2, ... until the first failed download; rows are
      scanned 0, 1, 2, ... until a row yields nothing. Returns the discovery (None
      when the function gives up) and the tiles requested, in order. */
  method DiscoverTiles(host: TileHost) returns (d: Option<Discovery>, probes: seq<Tile>)
    ensures Tile(0, 0) !in host.present ==> d.None? && probes == [Tile(0, 0)]
    ensures Tile(0, 0) in host.present && host.decode(Tile(0, 0)).None? ==> d.None? && probes == [Tile(0, 0)]
    ensures d.Some? <==> Tile(0, 0) in host.present && host.decode(Tile(0, 0)).Some?
    ensures d.Some? ==>
      var n := RowCount(host.present);
      && d.value.tiles == GridTiles(host.present, n)
      && d.value.maxX == WidestRow(host.present, n) - 1
      && d.value.maxY == n - 1
      && d.value.tileWidth == host.decode(Tile(0, 0)).value.width
      && d.value.tileHeight == host.decode(Tile(0, 0)).value.height
      && probes == Probes(host.present, n + 1)
  {
    var present := host.present;
    var downloaded: seq<Tile> := [];
    var maxXFound: int, maxYFound: int := -1, -1;
    var tileWidth: int, tileHeight: int := -1, -1;
    var foundAnyTile := false;
    probes := [];
    var y: int := 0;
    while true
      invariant 0 <= y
      invariant forall r :: 0 <= r < y ==> Tile(0, r) in present
      invariant foundAnyTile <==> y > 0
      invariant downloaded == GridTiles(present, y)
      invariant probes == Probes(present, y)
      invariant maxYFound == y - 1
      invariant maxXFound == WidestRow(present, y) - 1
      invariant y > 0 ==> host.decode(Tile(0, 0)).Some?
                          && tileWidth == host.decode(Tile(0, 0)).value.width
                          && tileHeight == host.decode(Tile(0, 0)).value.height
      invariant y == 0 ==> tileWidth == -1
      decreases RowsFrom(present, y)
    {
      var x: nat := 0;
      var rowFoundTile := false;
      var currentRowMaxX: int := -1;
      while true
        invariant forall c :: 0 <= c < x ==> Tile(c, y) in present
        invariant rowFoundTile <==> x > 0
        invariant currentRowMaxX == x - 1
        invariant downloaded == GridTiles(present, y) + RowTiles(y, x)
        invariant probes == Probes(present, y) + RowTiles(y, x)
        invariant foundAnyTile <==> (y > 0 || x > 0)
        invariant maxYFound == if x > 0 then y else y - 1
        invariant y > 0 || x > 0 ==> host.decode(Tile(0, 0)).Some?
                                     && tileWidth == host.decode(Tile(0, 0)).value.width
                                     && tileHeight == host.decode(Tile(0, 0)).value.height
        invariant y == 0 && x == 0 ==> tileWidth == -1
        decreases RowFrom(present, y, x)
      {
        probes := probes + [Tile(x, y)];
        if Tile(x, y) in present {
          downloaded := downloaded + [Tile(x, y)];
          rowFoundTile := true;
          foundAnyTile := true;
          currentRowMaxX := x;
          if maxYFound < y { maxYFound := y; }
          if tileWidth == -1 {
            match host.decode(Tile(x, y))
            case None =>
              return None, probes;
            case Some(size) =>
              tileWidth, tileHeight := size.width, size.height;
          }
          RowTilesGrow(y, x);
          assert Tile(x, y) in RowFrom(present, y, x) - RowFrom(present, y, x + 1);
          x := x + 1;
        } else {
          break;
        }
      }
      // The row ended at its first absent column.
      assert x == RowLength(present, y);
      assert probes == Probes(present, y) + RowTiles(y, x) + [Tile(x, y)];
      NextRow(present, y);

      if rowFoundTile {
        if currentRowMaxX > maxXFound { maxXFound := currentRowMaxX; }
        assert Tile(0, y) in RowsFrom(present, y) - RowsFrom(present, y + 1);
        y := y + 1;
      } else {
        if foundAnyTile {
          break;
        } else {
          if y == 0 && x == 0 {
            return None, probes;
          }
          // No tile found yet means this is row 0, and an empty row 0 has
          // returned just above: the search for a first non-empty row past
          // row 0, with its safety stop after row 15, is never reached.
          assert false;
          y := y + 1;
          if y > 15 {
            return None, probes;
          }
        }
      }
    }
    assert y == RowCount(present);
    d := Some(Discovery(downloaded, maxXFound, maxYFound, tileWidth, tileHeight));
  }

  // ------------------------------------------------------------ stitching

  /** One paste onto the canvas: the tile and the rectangle it covers. */
  datatype Placement = Placement(tile: Tile, area: Rect)

  /** The stitched page: canvas size and the pastes in the order they happen.
      Pixel content is not modelled; the canvas starts white. */
  datatype StitchedImage = StitchedImage(width: int, height: int, pasted: seq<Placement>)

  /** Where tile `t` goes: `(x * tile_width, (max_y - y) * tile_height)`, at the
      size of the tile's own image. */
  function PasteArea(t: Tile, maxY: int, tileWidth: int, tileHeight: int, size: Size): Rect
  {
    Rect(t.x * tileWidth, (maxY - t.y) * tileHeight, size.width, size.height)
  }

  /** What opening a tile file and pasting it gives at paste time: the image's
      size when both its header and its pixel data can be read, else None. */
  function PasteOpen(host: TileHost): Tile -> Option<Size>
  {
    t => if host.loads(t) then host.decode(t) else None
  }

  /** The pastes made for `tiles`, in order; a tile whose file cannot be opened
      and pasted (`pasteOpen` gives None) is skipped. */
  function Pastes(tiles: seq<Tile>, maxY: int, tileWidth: int, tileHeight: int, pasteOpen: Tile -> Option<Size>): seq<Placement>
  {
    if tiles == [] then []
    else
      var prev := Pastes(tiles[..|tiles| - 1], maxY, tileWidth, tileHeight, pasteOpen);
      var t := tiles[|tiles| - 1];
      match pasteOpen(t)
      case None => prev
      case Some(size) => prev + [Placement(t, PasteArea(t, maxY, tileWidth, tileHeight, size))]
  }

  /** The compositing part of `download_and_stitch_flyer_image`: give up when
      nothing was recorded or the tile size is not positive, else paste every
      recorded tile onto a canvas of `(max_x + 1) * w` by `(max_y + 1) * h`. */
  method StitchTiles(d: Discovery, pasteOpen: Tile -> Option<Size>) returns (image: Option<StitchedImage>)
    ensures image.None? <==> d.tiles == [] || d.tileWidth <= 0 || d.tileHeight <= 0
    ensures image.Some? ==>
      && image.value.width == CanvasWidth(d.maxX, d.tileWidth)
      && image.value.height == CanvasHeight(d.maxY, d.tileHeight)
      && image.value.pasted == Pastes(d.tiles, d.maxY, d.tileWidth, d.tileHeight, pasteOpen)
  {
    if |d.tiles| == 0 || d.tileWidth <= 0 || d.tileHeight <= 0 {
      return None;
    }
    var gridWidthTiles := d.maxX + 1;
    var gridHeightTiles := d.maxY + 1;
    var totalPixelWidth := gridWidthTiles * d.tileWidth;
    var totalPixelHeight := gridHeightTiles * d.tileHeight;
    var pasted: seq<Placement> := [];
    for i := 0 to |d.tiles|
      invariant pasted == Pastes(d.tiles[..i], d.maxY, d.tileWidth, d.tileHeight, pasteOpen)
    {
      var t := d.tiles[i];
      assert d.tiles[..i + 1][..i] == d.tiles[..i];
      match pasteOpen(t)
      case None =>
      case Some(size) =>
        var pasteX := t.x * d.tileWidth;
        var pasteY := (d.maxY - t.y) * d.tileHeight;
        pasted := pasted + [Placement(t, Rect(pasteX, pasteY, size.width, size.height))];
    }
    assert d.tiles[..|d.tiles|] == d.tiles;
    image := Some(StitchedImage(totalPixelWidth, totalPixelHeight, pasted));
  }

  /** What `download_and_stitch_flyer_image` produces for a flyer path whose
      tiles the host serves: None for an empty path, a missing first tile, a
      first tile whose header cannot be read or a non-positive tile size. */
  function ExpectedImage(flyerPath: string, host: TileHost): Option<StitchedImage>
  {
    if flyerPath == [] || Tile(0, 0) !in host.present then None
    else match host.decode(Tile(0, 0))
      case None => None
      case Some(size) =>
        if size.width == 0 || size.height == 0 then None
        else
          var n := RowCount(host.present);
          Some(StitchedImage(WidestRow(host.present, n) * size.width, n * size.height,
                             Pastes(GridTiles(host.present, n), n - 1, size.width, size.height, PasteOpen(host))))
  }

  /** The tiles `download_and_stitch_flyer_image` requests, in order. */
  function ExpectedProbes(flyerPath: string, host: TileHost): seq<Tile>
  {
    if flyerPath == [] then []
    else if Tile(0, 0) !in host.present || host.decode(Tile(0, 0)).None? then [Tile(0, 0)]
    else Probes(host.present, RowCount(host.present) + 1)
  }

  /** `download_and_stitch_flyer_image`: an empty path gives None before any
      request; otherwise discovery, then stitching. */
  method DownloadAndStitchFlyerImage(flyerPath: string, host: TileHost) returns (image: Option<StitchedImage>, probes: seq<Tile>)
    ensures flyerPath == [] ==> image.None? && probes == []
    ensures Tile(0, 0) !in host.present ==> image.None? && |probes| <= 1
    ensures image == ExpectedImage(flyerPath, host)
    ensures probes == ExpectedProbes(flyerPath, host)
  {
    if flyerPath == [] {
      return None, [];
    }
    var discovery;
    discovery, probes := DiscoverTiles(host);
    if discovery.None? {
      return None, probes;
    }
    GridTilesAreRowPrefixes(host.present, RowCount(host.present), Tile(0, 0));
    image := StitchTiles(discovery.value, PasteOpen(host));
  }

  /** Each paste comes from a recorded tile that opens, at that tile's position;
      every recorded tile that opens is pasted; pastes keep the tiles' order. */
  lemma {:induction false} PastesFacts(tiles: seq<Tile>, maxY: int, tileWidth: int, tileHeight: int, pasteOpen: Tile -> Option<Size>)
    ensures var p := Pastes(tiles, maxY, tileWidth, tileHeight, pasteOpen);
      && (forall i :: 0 <= i < |p| ==>
            p[i].tile in tiles && pasteOpen(p[i].tile).Some?
            && p[i].area == PasteArea(p[i].tile, maxY, tileWidth, tileHeight, pasteOpen(p[i].tile).value))
      && (forall t :: t in tiles && pasteOpen(t).Some? ==> exists i :: 0 <= i < |p| && p[i].tile == t)
      && (StrictlyIncreasing(tiles) ==> forall i, j :: 0 <= i < j < |p| ==> Before(p[i].tile, p[j].tile))
  {
    if tiles != [] {
      var init := tiles[..|tiles| - 1];
      var last := tiles[|tiles| - 1];
      PastesFacts(init, maxY, tileWidth, tileHeight, pasteOpen);
      assert tiles == init + [last];
      var p := Pastes(tiles, maxY, tileWidth, tileHeight, pasteOpen);
      var prev := Pastes(init, maxY, tileWidth, tileHeight, pasteOpen);
      assert p[..|prev|] == prev;
      assert |p| == |prev| || (|p| == |prev| + 1 && p[|prev|].tile == last && pasteOpen(last).Some?
                               && p[|prev|].area == PasteArea(last, maxY, tileWidth, tileHeight, pasteOpen(last).value));
      forall i | 0 <= i < |p|
        ensures p[i].tile in tiles && pasteOpen(p[i].tile).Some?
        ensures p[i].area == PasteArea(p[i].tile, maxY, tileWidth, tileHeight, pasteOpen(p[i].tile).value)
      {
        if i < |prev| {
          assert p[i] == prev[i];
          assert prev[i].tile in init;
        }
      }
      forall t | t in tiles && pasteOpen(t).Some? ensures exists i :: 0 <= i < |p| && p[i].tile == t {
        if t == last {
          assert p[|p| - 1].tile == t;
        } else {
          assert t in init;
          var i :| 0 <= i < |prev| && prev[i].tile == t;
          assert p[i] == prev[i];
        }
      }
      if StrictlyIncreasing(tiles) {
        forall i, j | 0 <= i < j < |p| ensures Before(p[i].tile, p[j].tile) {
          assert p[i] == prev[i];
          if j < |prev| {
            assert p[j] == prev[j];
            assert StrictlyIncreasing(init);
          } else {
            assert prev[i].tile in init;
            var k :| 0 <= k < |init| && init[k] == prev[i].tile;
            assert tiles[k] == init[k] && tiles[|tiles| - 1] == last;
          }
        }
      }
    }
  }

  /** One paste of a stitched page: it starts at the corner of its tile's cell,
      the cell lies inside the canvas, a tile of the first tile's size fills its
      cell exactly, and a row-0 tile's cell ends on the bottom edge. */
  lemma PlacementInCanvas(present: set<Tile>, pl: Placement, size: Size, pasteOpen: Tile -> Option<Size>)
    requires size.width > 0 && size.height > 0
    requires pl.tile in GridTiles(present, RowCount(present))
    requires pasteOpen(pl.tile).Some?
    requires pl.area == PasteArea(pl.tile, RowCount(present) - 1, size.width, size.height, pasteOpen(pl.tile).value)
    ensures var n := RowCount(present);
      var cell := Cell(pl.tile.x, pl.tile.y, n - 1, size.width, size.height);
      && pl.area.left == cell.left && pl.area.top == cell.top
      && Inside(cell, CanvasWidth(WidestRow(present, n) - 1, size.width), CanvasHeight(n - 1, size.height))
      && (pasteOpen(pl.tile) == Some(size) ==> pl.area == cell)
      && (pl.tile.y == 0 ==> cell.top + cell.height == CanvasHeight(n - 1, size.height))
  {
    var n := RowCount(present);
    GridWithinExtents(present, pl.tile);
    CellInsideCanvas(pl.tile.x, pl.tile.y, WidestRow(present, n) - 1, n - 1, size.width, size.height);
  }

  /** Geometry of the stitched page. Every paste starts at the top-left corner of
      its tile's cell `(x * w, (max_y - y) * h, w, h)`; every cell lies inside the
      canvas; the cells of two pastes never overlap; row 0 is the bottom strip.
      The pasted tiles are exactly the recorded tiles whose header reads and whose
      pixel data loads; any other recorded tile, the first one included, leaves
      its cell white. Where the tile images have the size of the first tile
      (which the source takes for granted and does not check), each pasted
      rectangle is its cell. */
  lemma StitchedLayout(flyerPath: string, host: TileHost)
    requires ExpectedImage(flyerPath, host).Some?
    ensures var img := ExpectedImage(flyerPath, host).value;
      var size := host.decode(Tile(0, 0)).value;
      var n := RowCount(host.present);
      var p := img.pasted;
      && img.width == CanvasWidth(WidestRow(host.present, n) - 1, size.width)
      && img.height == CanvasHeight(n - 1, size.height)
      && (forall i :: 0 <= i < |p| ==>
            var cell := Cell(p[i].tile.x, p[i].tile.y, n - 1, size.width, size.height);
            && p[i].area.left == cell.left && p[i].area.top == cell.top
            && Inside(cell, img.width, img.height)
            && (host.decode(p[i].tile) == Some(size) ==> p[i].area == cell)
            && (p[i].tile.y == 0 ==> cell.top + cell.height == img.height))
      && (forall i, j :: 0 <= i < j < |p| ==>
            Disjoint(Cell(p[i].tile.x, p[i].tile.y, n - 1, size.width, size.height),
                     Cell(p[j].tile.x, p[j].tile.y, n - 1, size.width, size.height)))
      && (forall t :: (exists i :: 0 <= i < |p| && p[i].tile == t) <==>
            t in GridTiles(host.present, n) && host.decode(t).Some? && host.loads(t))
  {
    var size := host.decode(Tile(0, 0)).value;
    var n := RowCount(host.present);
    var open := PasteOpen(host);
    var tiles := GridTiles(host.present, n);
    var p := Pastes(tiles, n - 1, size.width, size.height, open);
    var img := ExpectedImage(flyerPath, host).value;
    assert img == StitchedImage(WidestRow(host.present, n) * size.width, n * size.height, p);
    PastesInCells(host.present, size, open, p);
    PastesInDisjointCells(host.present, size, open, p);
    forall i | 0 <= i < |p| && host.decode(p[i].tile) == Some(size)
      ensures open(p[i].tile) == Some(size)
    {
      assert open(p[i].tile).Some?;
    }
    PastesFacts(tiles, n - 1, size.width, size.height, open);
    forall t ensures (exists i :: 0 <= i < |p| && p[i].tile == t) <==> t in tiles && host.decode(t).Some? && host.loads(t) {
      assert open(t).Some? <==> host.decode(t).Some? && host.loads(t);
    }
  }

  /** The per-paste half of `StitchedLayout`, for any paste-time oracle. */
  lemma PastesInCells(present: set<Tile>, size: Size, pasteOpen: Tile -> Option<Size>, p: seq<Placement>)
    requires size.width > 0 && size.height > 0
    requires p == Pastes(GridTiles(present, RowCount(present)), RowCount(present) - 1, size.width, size.height, pasteOpen)
    ensures forall i :: 0 <= i < |p| ==>
      var n := RowCount(present);
      var cell := Cell(p[i].tile.x, p[i].tile.y, n - 1, size.width, size.height);
      && pasteOpen(p[i].tile).Some?
      && p[i].area.left == cell.left && p[i].area.top == cell.top
      && Inside(cell, CanvasWidth(WidestRow(present, n) - 1, size.width), CanvasHeight(n - 1, size.height))
      && (pasteOpen(p[i].tile) == Some(size) ==> p[i].area == cell)
      && (p[i].tile.y == 0 ==> cell.top + cell.height == CanvasHeight(n - 1, size.height))
  {
    var n: int := RowCount(present);
    PastesFacts(GridTiles(present, n), n - 1, size.width, size.height, pasteOpen);
    forall i | 0 <= i < |p|
      ensures var cell := Cell(p[i].tile.x, p[i].tile.y, n - 1, size.width, size.height);
        && pasteOpen(p[i].tile).Some?
        && p[i].area.left == cell.left && p[i].area.top == cell.top
        && Inside(cell, CanvasWidth(WidestRow(present, n) - 1, size.width), CanvasHeight(n - 1, size.height))
        && (pasteOpen(p[i].tile) == Some(size) ==> p[i].area == cell)
        && (p[i].tile.y == 0 ==> cell.top + cell.height == CanvasHeight(n - 1, size.height))
    {
      PlacementInCanvas(present, p[i], size, pasteOpen);
    }
  }

  /** The pairwise half of `StitchedLayout`: no two pastes share a cell. */
  lemma PastesInDisjointCells(present: set<Tile>, size: Size, pasteOpen: Tile -> Option<Size>, p: seq<Placement>)
    requires size.width > 0 && size.height > 0
    requires p == Pastes(GridTiles(present, RowCount(present)), RowCount(present) - 1, size.width, size.height, pasteOpen)
    ensures forall i, j :: 0 <= i < j < |p| ==>
      Disjoint(Cell(p[i].tile.x, p[i].tile.y, RowCount(present) - 1, size.width, size.height),
               Cell(p[j].tile.x, p[j].tile.y, RowCount(present) - 1, size.width, size.height))
  {
    var n: int := RowCount(present);
    var tiles := GridTiles(present, n);
    PastesFacts(tiles, n - 1, size.width, size.height, pasteOpen);
    GridTilesIncreasing(present, n);
    forall i, j | 0 <= i < j < |p|
      ensures Disjoint(Cell(p[i].tile.x, p[i].tile.y, n - 1, size.width, size.height),
                       Cell(p[j].tile.x, p[j].tile.y, n - 1, size.width, size.height))
    {
      assert Before(p[i].tile, p[j].tile);
      CellsDisjoint(p[i].tile.x, p[i].tile.y, p[j].tile.x, p[j].tile.y, n - 1, size.width, size.height);
    }
  }

  // --------------------------------------------------------- orchestrator

  /** The PNG bytes of a stitched image and the flyer id they belong to. */
  datatype FlyerImage = FlyerImage(flyerId: string, png: seq<bv8>)

  /** `get_flyer_image_data_and_id`: locate the flyer, download and stitch its
      tiles, encode the result as PNG; None as soon as a stage fails. The tile
      host for each flyer path and zoom level is `tileHosts`, and `encodePng`
      is PIL's PNG encoder (None when it raises). */
  method GetFlyerImageDataAndId(listing: ListingResponse, merchantName: string, category: string, zoomLevel: int,
                                tileHosts: (string, int) -> TileHost, encodePng: StitchedImage -> Option<seq<bv8>>)
    returns (result: Option<FlyerImage>)
    ensures var located := FindFlyerPathFromFlipp(listing, merchantName, category);
      && (located.None? ==> result.None?)
      && (located.Some? ==>
            var image := ExpectedImage(located.value.path, tileHosts(located.value.path, zoomLevel));
            && (result.Some? <==> image.Some? && encodePng(image.value).Some?)
            && (result.Some? ==> result.value == FlyerImage(located.value.flyerId, encodePng(image.value).value)))
  {
    var located := FindFlyerPathFromFlipp(listing, merchantName, category);
    if located.None? || located.value.path == [] || located.value.flyerId == [] {
      return None;
    }
    var flyerId, flyerPath := located.value.flyerId, located.value.path;
    var stitched, _ := DownloadAndStitchFlyerImage(flyerPath, tileHosts(flyerPath, zoomLevel));
    if stitched.None? {
      return None;
    }
    match encodePng(stitched.value)
    case None =>
      return None;
    case Some(bytes) =>
      return Some(FlyerImage(flyerId, bytes));
  }

  /** A listing with one Walmart flyer whose categories are Groceries and Flyer:
      asking for "walmart" (other case) and "Groceries" gives id "42" and path "abc/". */
  lemma ScenarioLocateWalmart()
    ensures FindFlyerPathFromFlipp(
              Listing([FlyerRecord("Walmart", ["Groceries", "Flyer"], Some(IntId(42)), Some("abc/"))]),
              "walmart", "Groceries")
            == Some(LocatedFlyer("42", "abc/"))
  {
    var f := FlyerRecord("Walmart", ["Groceries", "Flyer"], Some(IntId(42)), Some("abc/"));
    assert StripLeft("Walmart") == "Walmart";
    assert StripRight("Walmart") == "Walmart";
    assert Lower("Walmart") == "walmart";
    assert Lower("walmart") == "walmart";
    assert StripLeft("Groceries") == "Groceries";
    assert StripRight("Groceries") == "Groceries";
    assert Strip(f.categories[0]) == "Groceries";
    assert Matches(f, "walmart", "Groceries");
    assert NatToDecimal(42) == "42";
  }
}
