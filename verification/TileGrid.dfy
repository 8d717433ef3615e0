/** What tile discovery finds on the tile host, stated as functions of the
    finite set of tiles the host serves for one flyer path and zoom level.
    The discovery method in FlyerAcquisition is proved against these. */
module TileGrid {
  import opened Wrappers

  /** The column and row of a tile as they appear in its file name
      `{zoom}_{x}_{y}.jpg`; row 0 is the bottom row of the flyer page. */
  datatype Tile = Tile(x: nat, y: nat)

  /** Pixel size of a decoded tile image. */
  datatype Size = Size(width: nat, height: nat)

  /** The tile host for one flyer path and zoom level:
      - `present`: the tiles whose download succeeds;
      - `decode`: what opening a downloaded file gives, which reads only the
        image header (None when it is not a readable image);
      - `loads`: whether the file's pixel data loads in full, which pasting
        needs (a truncated file has a header but does not load). */
  datatype TileHost = TileHost(present: set<Tile>, decode: Tile -> Option<Size>, loads: Tile -> bool)

  /** Tiles of row `y` at column `x` or further right. */
  function RowFrom(present: set<Tile>, y: nat, x: nat): set<Tile>
  {
    set t | t in present && t.y == y && x <= t.x
  }

  /** The first column at or after `x` whose tile in row `y` is absent. */
  function RunFrom(present: set<Tile>, y: nat, x: nat): (k: nat)
    ensures x <= k
    ensures forall c :: x <= c < k ==> Tile(c, y) in present
    ensures Tile(k, y) !in present
    decreases RowFrom(present, y, x)
  {
    if Tile(x, y) in present then
      assert Tile(x, y) in RowFrom(present, y, x) - RowFrom(present, y, x + 1);
      RunFrom(present, y, x + 1)
    else x
  }

  /** Number of tiles found in row `y`: its columns 0, 1, ... up to the first
      absent one. */
  function RowLength(present: set<Tile>, y: nat): nat
  {
    RunFrom(present, y, 0)
  }

  /** Tiles in row `y` or above. */
  function RowsFrom(present: set<Tile>, y: nat): set<Tile>
  {
    set t | t in present && y <= t.y
  }

  /** The first row at or after `y` whose column-0 tile is absent. */
  function EmptyRowFrom(present: set<Tile>, y: nat): (n: nat)
    ensures y <= n
    ensures forall r :: y <= r < n ==> Tile(0, r) in present
    ensures Tile(0, n) !in present
    decreases RowsFrom(present, y)
  {
    if Tile(0, y) in present then
      assert Tile(0, y) in RowsFrom(present, y) - RowsFrom(present, y + 1);
      EmptyRowFrom(present, y + 1)
    else y
  }

  /** Number of non-empty rows discovery walks through before the first empty row. */
  function RowCount(present: set<Tile>): nat
  {
    EmptyRowFrom(present, 0)
  }

  /** The tiles `(0, y), (1, y), ..., (k - 1, y)`, left to right. */
  function RowTiles(y: nat, k: nat): (r: seq<Tile>)
    ensures |r| == k
  {
    seq(k, c requires 0 <= c => Tile(c, y))
  }

  /** The tiles discovery records in rows `0 .. n - 1`, in the order it records them. */
  function GridTiles(present: set<Tile>, n: nat): seq<Tile>
  {
    if n == 0 then [] else GridTiles(present, n - 1) + RowTiles(n - 1, RowLength(present, n - 1))
  }

  /** The tiles discovery requests in rows `0 .. n - 1`: each row's run of present
      tiles followed by the absent tile that ends the row. */
  function Probes(present: set<Tile>, n: nat): seq<Tile>
  {
    if n == 0 then [] else Probes(present, n - 1) + RowTiles(n - 1, RowLength(present, n - 1) + 1)
  }

  /** The longest row among rows `0 .. n - 1`. */
  function WidestRow(present: set<Tile>, n: nat): (w: nat)
    ensures forall r :: 0 <= r < n ==> RowLength(present, r) <= w
    ensures n > 0 ==> exists r :: 0 <= r < n && RowLength(present, r) == w
  {
    if n == 0 then 0
    else
      var w := WidestRow(present, n - 1);
      var k := RowLength(present, n - 1);
      if k > w then k else w
  }

  /** Row-major order on tiles: lower rows first, then left to right. */
  predicate Before(a: Tile, b: Tile)
  {
    a.y < b.y || (a.y == b.y && a.x < b.x)
  }

  predicate StrictlyIncreasing(s: seq<Tile>)
  {
    forall i, j :: 0 <= i < j < |s| ==> Before(s[i], s[j])
  }

  /** Discovery's view of one more row: the row's run of present tiles is
      recorded, and the run plus the absent tile that ends it is requested. */
  lemma NextRow(present: set<Tile>, y: nat)
    ensures var k := RowLength(present, y);
      && GridTiles(present, y + 1) == GridTiles(present, y) + RowTiles(y, k)
      && Probes(present, y + 1) == Probes(present, y) + RowTiles(y, k) + [Tile(k, y)]
  {
    RowTilesGrow(y, RowLength(present, y));
  }

  /** A row's run of tiles grows by one tile at its right end. */
  lemma RowTilesGrow(y: nat, k: nat)
    ensures RowTiles(y, k) + [Tile(k, y)] == RowTiles(y, k + 1)
  {
  }

  /** The discovered tiles are exactly the union, over rows `y < n`, of the row's
      prefix of columns `0 .. RowLength(y) - 1`; all of them are present on the host. */
  lemma {:induction false} GridTilesAreRowPrefixes(present: set<Tile>, n: nat, t: Tile)
    ensures t in GridTiles(present, n) <==> t.y < n && t.x < RowLength(present, t.y)
    ensures t in GridTiles(present, n) ==> t in present
  {
    if n > 0 {
      GridTilesAreRowPrefixes(present, n - 1, t);
      var row := RowTiles(n - 1, RowLength(present, n - 1));
      if t.y == n - 1 && t.x < RowLength(present, t.y) {
        assert row[t.x] == t;
      }
    }
  }

  /** Discovery records tiles in row-major order, so no tile is recorded twice. */
  lemma {:induction false} GridTilesIncreasing(present: set<Tile>, n: nat)
    ensures StrictlyIncreasing(GridTiles(present, n))
    ensures forall t :: t in GridTiles(present, n) ==> t.y < n
  {
    if n > 0 {
      GridTilesIncreasing(present, n - 1);
      var prev := GridTiles(present, n - 1);
      var row := RowTiles(n - 1, RowLength(present, n - 1));
      assert forall t :: t in row ==> t.y == n - 1;
      assert forall i :: 0 <= i < |prev| ==> prev[i].y < n - 1;
    }
  }

  /** Tiles are requested in row-major order, and each request is for a new tile. */
  lemma {:induction false} ProbesIncreasing(present: set<Tile>, n: nat)
    ensures StrictlyIncreasing(Probes(present, n))
    ensures forall t :: t in Probes(present, n) ==> t.y < n
  {
    if n > 0 {
      ProbesIncreasing(present, n - 1);
      var prev := Probes(present, n - 1);
      var row := RowTiles(n - 1, RowLength(present, n - 1) + 1);
      assert forall t :: t in row ==> t.y == n - 1;
      assert forall i :: 0 <= i < |prev| ==> prev[i].y < n - 1;
    }
  }

  /** Every request in rows `0 .. n - 1` but the last of each row is for a present
      tile; the requests are the recorded tiles plus one absent tile per row. */
  lemma {:induction false} ProbesCount(present: set<Tile>, n: nat)
    ensures |Probes(present, n)| == |GridTiles(present, n)| + n
    ensures forall y :: 0 <= y < n ==>
      Tile(RowLength(present, y), y) in Probes(present, n) && Tile(RowLength(present, y), y) !in present
  {
    if n > 0 {
      ProbesCount(present, n - 1);
      var k := RowLength(present, n - 1);
      var row := RowTiles(n - 1, k + 1);
      assert row[k] == Tile(k, n - 1);
      assert Probes(present, n) == Probes(present, n - 1) + row;
    }
  }

  /** With `n = RowCount(present)`, the last non-empty row is `n - 1` and the
      widest row bounds every column: every recorded tile `(x, y)` has
      `x <= WidestRow - 1` and `y <= n - 1`. */
  lemma GridWithinExtents(present: set<Tile>, t: Tile)
    requires t in GridTiles(present, RowCount(present))
    ensures t.x < WidestRow(present, RowCount(present))
    ensures t.y < RowCount(present)
  {
    GridTilesAreRowPrefixes(present, RowCount(present), t);
  }

  /** Discovery stops at the first empty row: the last request is for the
      column-0 tile of row `RowCount`, which is absent, and nothing above it is asked for. */
  lemma StopsAtFirstEmptyRow(present: set<Tile>)
    ensures var n := RowCount(present);
      var p := Probes(present, n + 1);
      p != [] && p[|p| - 1] == Tile(0, n) && Tile(0, n) !in present
      && forall t :: t in p ==> t.y <= n
  {
    var n := RowCount(present);
    ProbesIncreasing(present, n + 1);
    assert RowLength(present, n) == 0;
  }

  /** Tiles (0,0) and (1,0) present, (2,0) absent, row 1 empty: discovery
      records (0,0) and (1,0), with max_x 1 and max_y 0, after four requests. */
  lemma ScenarioOneRowOfTwo()
    ensures var present := {Tile(0, 0), Tile(1, 0)};
      && RowCount(present) == 1
      && GridTiles(present, 1) == [Tile(0, 0), Tile(1, 0)]
      && WidestRow(present, 1) - 1 == 1
      && Probes(present, 2) == [Tile(0, 0), Tile(1, 0), Tile(2, 0), Tile(0, 1)]
  {
    var present := {Tile(0, 0), Tile(1, 0)};
    assert RunFrom(present, 0, 2) == 2;
    assert RunFrom(present, 0, 1) == 2;
    assert RowLength(present, 0) == 2;
    assert RowLength(present, 1) == 0;
    assert EmptyRowFrom(present, 1) == 1;
    assert RowCount(present) == 1;
    assert RowTiles(0, 2) == [Tile(0, 0), Tile(1, 0)];
    assert RowTiles(0, 3) == [Tile(0, 0), Tile(1, 0), Tile(2, 0)];
    assert RowTiles(1, 1) == [Tile(0, 1)];
  }

  /** Tiles in rows 0 and 1 and none in row 2: discovery ends with max_y = 1 and
      its last request is the first tile of row 2. */
  lemma ScenarioTwoRows()
    ensures var present := {Tile(0, 0), Tile(1, 0), Tile(0, 1)};
      && RowCount(present) == 2
      && var p := Probes(present, 3); p[|p| - 1] == Tile(0, 2)
  {
    var present := {Tile(0, 0), Tile(1, 0), Tile(0, 1)};
    assert EmptyRowFrom(present, 2) == 2;
    assert EmptyRowFrom(present, 1) == 2;
    assert RowCount(present) == 2;
    assert RowLength(present, 2) == 0;
    assert RowTiles(2, 1) == [Tile(0, 2)];
  }
}
