/** The tile map's grid arithmetic: which cells a rectangle covers, the spatial
    query over a sparse layer of tiles, the layer search by name, the map size and
    the tile id of a global tile id.

    A layer's tiles are a sparse map from cell to tile reference; the tile set
    behind a reference (texture, drawing rectangle) is not part of this model. */
module TiledMap {
  import opened Geometry

  datatype Cell = Cell(x: int, y: int)

  /** A half-open cell range `[startX, endX) x [startY, endY)`. */
  datatype CellRange = CellRange(startX: int, startY: int, endX: int, endY: int)

  predicate InRange(rg: CellRange, c: Cell)
  {
    rg.startX <= c.x < rg.endX && rg.startY <= c.y < rg.endY
  }

  /** Row-major order: rows top to bottom, cells left to right within a row. */
  predicate Before(a: Cell, b: Cell)
  {
    a.y < b.y || (a.y == b.y && a.x < b.x)
  }

  /** The on-screen bounds of a cell's tile. */
  function TileBounds(c: Cell, tileW: real, tileH: real): Rect
  {
    Rect(c.x as real * tileW, c.y as real * tileH, tileW, tileH)
  }

  /** The cells a rectangle touches: floor of its near edges, ceiling of its far
      edges, each divided by the tile size.  A cell is in the range exactly when the
      open extent of its tile overlaps the half-open extent of the rectangle on both
      axes. */
  function CellRangeOf(region: Rect, tileW: real, tileH: real): (rg: CellRange)
    requires tileW > 0.0 && tileH > 0.0
    ensures forall c: Cell :: InRange(rg, c) <==>
      && c.x as real * tileW < region.Right() && region.left < (c.x + 1) as real * tileW
      && c.y as real * tileH < region.Bottom() && region.top < (c.y + 1) as real * tileH
  {
    var rg := CellRange(Floor(region.left / tileW), Floor(region.top / tileH),
                        Ceil(region.Right() / tileW), Ceil(region.Bottom() / tileH));
    forall c: Cell
      ensures InRange(rg, c) <==>
        && c.x as real * tileW < region.Right() && region.left < (c.x + 1) as real * tileW
        && c.y as real * tileH < region.Bottom() && region.top < (c.y + 1) as real * tileH
    {
      FloorBound(region.left, tileW, c.x);
      CeilBound(region.Right(), tileW, c.x);
      FloorBound(region.top, tileH, c.y);
      CeilBound(region.Bottom(), tileH, c.y);
    }
    rg
  }

  /** `n` is at least `floor(v / t)` iff cell `n` ends past `v`. */
  lemma FloorBound(v: real, t: real, n: int)
    requires t > 0.0
    ensures Floor(v / t) <= n <==> v < (n + 1) as real * t
  {
    var f := Floor(v / t);
    assert (v / t) * t == v;
    if f <= n {
      assert v / t < (n + 1) as real;
      MulLess(v / t, (n + 1) as real, t);
    } else {
      assert (n + 1) as real <= v / t;
      MulLeq((n + 1) as real, v / t, t);
    }
  }

  /** `n` is below `ceil(v / t)` iff cell `n` starts before `v`. */
  lemma CeilBound(v: real, t: real, n: int)
    requires t > 0.0
    ensures n < Ceil(v / t) <==> n as real * t < v
  {
    var c := Ceil(v / t);
    assert (v / t) * t == v;
    if n < c {
      assert n as real < v / t;
      MulLess(n as real, v / t, t);
    } else {
      assert v / t <= n as real;
      MulLeq(v / t, n as real, t);
    }
  }

  lemma MulLess(a: real, b: real, t: real)
    requires t > 0.0 && a < b
    ensures a * t < b * t
  {
  }

  lemma MulLeq(a: real, b: real, t: real)
    requires t > 0.0 && a <= b
    ensures a * t <= b * t
  {
  }

  /** For a rectangle of positive size, the range holds exactly the cells whose tile
      intersects it. */
  lemma CellRangeIsOverlap(region: Rect, tileW: real, tileH: real, c: Cell)
    requires tileW > 0.0 && tileH > 0.0 && region.width > 0.0 && region.height > 0.0
    ensures InRange(CellRangeOf(region, tileW, tileH), c) <==> Intersects(TileBounds(c, tileW, tileH), region)
  {
    assert (c.x + 1) as real * tileW == c.x as real * tileW + tileW;
    assert (c.y + 1) as real * tileH == c.y as real * tileH + tileH;
  }

  /** The region of the map on screen, in cells: the same range computation. */
  function VisibleRegion(visible: Rect, tileSize: Vec): (rg: CellRange)
    requires tileSize.x > 0.0 && tileSize.y > 0.0
    ensures rg == CellRangeOf(visible, tileSize.x, tileSize.y)
  {
    CellRange(Floor(visible.left / tileSize.x), Floor(visible.top / tileSize.y),
              Ceil((visible.left + visible.width) / tileSize.x),
              Ceil((visible.top + visible.height) / tileSize.y))
  }

  // ---------------------------------------------------------------------------
  // Spatial query

  /** One query result: the cell, the tile found there, and its bounds.  Tiles are
      static: their velocity is always zero. */
  datatype TileHit = TileHit(cell: Cell, tile: nat, bounds: Rect)

  function Velocity(t: TileHit): Vec
  {
    Zero
  }

  function CellsOf(hits: seq<TileHit>): set<Cell>
  {
    set k | 0 <= k < |hits| :: hits[k].cell
  }

  /** The occupied cells of `rg` that come before `cursor` in row-major order. */
  function OccupiedBefore(tiles: map<Cell, nat>, rg: CellRange, cursor: Cell): set<Cell>
  {
    set c | c in tiles && InRange(rg, c) && Before(c, cursor)
  }

  /** Every result is an occupied cell of the range, with that cell's tile and bounds. */
  predicate WellFormedHits(hits: seq<TileHit>, tiles: map<Cell, nat>, rg: CellRange, tileW: real, tileH: real)
  {
    forall k :: 0 <= k < |hits| ==>
      && InRange(rg, hits[k].cell) && hits[k].cell in tiles
      && hits[k].tile == tiles[hits[k].cell]
      && hits[k].bounds == TileBounds(hits[k].cell, tileW, tileH)
  }

  predicate RowMajor(hits: seq<TileHit>)
  {
    forall i, j :: 0 <= i < j < |hits| ==> Before(hits[i].cell, hits[j].cell)
  }

  /** Moving the cursor one cell right within a row of the range adds at most the
      cell passed over. */
  lemma OccupiedStep(tiles: map<Cell, nat>, rg: CellRange, x: int, y: int)
    requires rg.startX <= x < rg.endX && rg.startY <= y < rg.endY
    ensures OccupiedBefore(tiles, rg, Cell(x + 1, y))
      == OccupiedBefore(tiles, rg, Cell(x, y)) + (if Cell(x, y) in tiles then {Cell(x, y)} else {})
  {
  }

  /** Past the last column of a row, the cursor may as well start the next row. */
  lemma OccupiedRowEnd(tiles: map<Cell, nat>, rg: CellRange, x: int, y: int)
    requires x >= rg.endX
    ensures OccupiedBefore(tiles, rg, Cell(x, y)) == OccupiedBefore(tiles, rg, Cell(rg.startX, y + 1))
  {
  }

  /** Past the last row, every occupied cell of the range has been passed. */
  lemma OccupiedAll(tiles: map<Cell, nat>, rg: CellRange, y: int)
    requires y >= rg.endY
    ensures OccupiedBefore(tiles, rg, Cell(rg.startX, y)) == set c | c in tiles && InRange(rg, c)
  {
  }

  /** The cells of a strictly row-major sequence are as many as its elements. */
  lemma {:induction false} RowMajorCount(hits: seq<TileHit>)
    requires RowMajor(hits)
    ensures |CellsOf(hits)| == |hits|
    decreases |hits|
  {
    if hits != [] {
      var p := hits[..|hits| - 1];
      var last := hits[|hits| - 1];
      assert RowMajor(p);
      RowMajorCount(p);
      assert CellsOf(hits) == CellsOf(p) + {last.cell};
      assert last.cell !in CellsOf(p);
    }
  }

  lemma CellsOfSnoc(hits: seq<TileHit>, h: TileHit)
    ensures CellsOf(hits + [h]) == CellsOf(hits) + {h.cell}
  {
    var s := hits + [h];
    forall c | c in CellsOf(hits)
      ensures c in CellsOf(s)
    {
      var k :| 0 <= k < |hits| && hits[k].cell == c;
      assert s[k].cell == c;
    }
    assert s[|hits|].cell == h.cell;
  }

  /** One row of the scan: append the occupied cells of row `y`, left to right. */
  method ScanRow(tiles: map<Cell, nat>, rg: CellRange, tileW: real, tileH: real, y: int, prefix: seq<TileHit>)
    returns (hits: seq<TileHit>)
    requires rg.startY <= y < rg.endY
    requires WellFormedHits(prefix, tiles, rg, tileW, tileH) && RowMajor(prefix)
    requires forall k :: 0 <= k < |prefix| ==> prefix[k].cell.y < y
    requires CellsOf(prefix) == OccupiedBefore(tiles, rg, Cell(rg.startX, y))
    ensures WellFormedHits(hits, tiles, rg, tileW, tileH) && RowMajor(hits)
    ensures forall k :: 0 <= k < |hits| ==> hits[k].cell.y < y + 1
    ensures CellsOf(hits) == OccupiedBefore(tiles, rg, Cell(rg.startX, y + 1))
  {
    hits := prefix;
    var x := rg.startX;
    while x < rg.endX
      invariant x == rg.startX || rg.startX <= x <= rg.endX
      invariant WellFormedHits(hits, tiles, rg, tileW, tileH)
      invariant RowMajor(hits)
      invariant forall k :: 0 <= k < |hits| ==> Before(hits[k].cell, Cell(x, y))
      invariant CellsOf(hits) == OccupiedBefore(tiles, rg, Cell(x, y))
      decreases rg.endX - x
    {
      var key := Cell(x, y);
      OccupiedStep(tiles, rg, x, y);
      if key in tiles {
        var hit := TileHit(key, tiles[key], TileBounds(key, tileW, tileH));
        CellsOfSnoc(hits, hit);
        hits := hits + [hit];
      }
      x := x + 1;
    }
    OccupiedRowEnd(tiles, rg, x, y);
  }

  /** The occupied cells of a range, rows top to bottom, cells left to right. */
  method QueryRange(tiles: map<Cell, nat>, rg: CellRange, tileW: real, tileH: real)
    returns (hits: seq<TileHit>)
    ensures WellFormedHits(hits, tiles, rg, tileW, tileH) && RowMajor(hits)
    ensures CellsOf(hits) == set c | c in tiles && InRange(rg, c)
  {
    hits := [];
    var y := rg.startY;
    while y < rg.endY
      invariant y == rg.startY || rg.startY <= y <= rg.endY
      invariant WellFormedHits(hits, tiles, rg, tileW, tileH)
      invariant RowMajor(hits)
      invariant forall k :: 0 <= k < |hits| ==> hits[k].cell.y < y
      invariant CellsOf(hits) == OccupiedBefore(tiles, rg, Cell(rg.startX, y))
      decreases rg.endY - y
    {
      hits := ScanRow(tiles, rg, tileW, tileH, y, hits);
      y := y + 1;
    }
    OccupiedAll(tiles, rg, y);
  }

  /** The tiles of a layer that lie under `region`: each occupied cell of the range
      exactly once, in row-major order.  Each call builds its result afresh. */
  method QueryRegion(tiles: map<Cell, nat>, tileW: real, tileH: real, region: Rect)
    returns (hits: seq<TileHit>)
    requires tileW > 0.0 && tileH > 0.0
    ensures WellFormedHits(hits, tiles, CellRangeOf(region, tileW, tileH), tileW, tileH)
    ensures CellsOf(hits) == set c | c in tiles && InRange(CellRangeOf(region, tileW, tileH), c)
    ensures RowMajor(hits)
  {
    hits := QueryRange(tiles, CellRangeOf(region, tileW, tileH), tileW, tileH);
  }

  /** Row-major order is strict, so no cell is reported twice. */
  lemma RowMajorNoRepeat(hits: seq<TileHit>)
    requires RowMajor(hits)
    ensures forall i, j :: 0 <= i < j < |hits| ==> hits[i].cell != hits[j].cell
  {
  }

  /** With 32x32 tiles, a tile-sized region at the origin covers cell (0, 0) only. */
  method QueryOneTile(tiles: map<Cell, nat>) returns (hits: seq<TileHit>)
    requires Cell(0, 0) in tiles
    ensures |hits| == 1 && hits[0].cell == Cell(0, 0) && hits[0].bounds == Rect(0.0, 0.0, 32.0, 32.0)
  {
    hits := QueryRegion(tiles, 32.0, 32.0, Rect(0.0, 0.0, 32.0, 32.0));
    var rg := CellRangeOf(Rect(0.0, 0.0, 32.0, 32.0), 32.0, 32.0);
    assert rg == CellRange(0, 0, 1, 1);
    assert CellsOf(hits) == {Cell(0, 0)};
    RowMajorCount(hits);
    assert hits[0].cell in CellsOf(hits);
  }

  /** With 32x32 tiles, a 2x2 region straddling the corner of four tiles reports all
      four, row by row. */
  method QueryCorner(tiles: map<Cell, nat>) returns (hits: seq<TileHit>)
    requires Cell(0, 0) in tiles && Cell(1, 0) in tiles && Cell(0, 1) in tiles && Cell(1, 1) in tiles
    ensures |hits| == 4
    ensures hits[0].cell == Cell(0, 0) && hits[1].cell == Cell(1, 0)
    ensures hits[2].cell == Cell(0, 1) && hits[3].cell == Cell(1, 1)
  {
    hits := QueryRegion(tiles, 32.0, 32.0, Rect(31.0, 31.0, 2.0, 2.0));
    var rg := CellRangeOf(Rect(31.0, 31.0, 2.0, 2.0), 32.0, 32.0);
    assert rg == CellRange(0, 0, 2, 2);
    var four := {Cell(0, 0), Cell(1, 0), Cell(0, 1), Cell(1, 1)};
    assert CellsOf(hits) == four;
    SortedFour(hits, four);
  }

  /** A row-major sequence whose cells are exactly the four cells of the 2x2 block
      at the origin lists them in reading order. */
  lemma SortedFour(hits: seq<TileHit>, four: set<Cell>)
    requires four == {Cell(0, 0), Cell(1, 0), Cell(0, 1), Cell(1, 1)}
    requires RowMajor(hits) && CellsOf(hits) == four
    ensures |hits| == 4
    ensures hits[0].cell == Cell(0, 0) && hits[1].cell == Cell(1, 0)
    ensures hits[2].cell == Cell(0, 1) && hits[3].cell == Cell(1, 1)
  {
    RowMajorCount(hits);
    assert |four| == 4;
    assert hits[0].cell in four && hits[1].cell in four && hits[2].cell in four && hits[3].cell in four;
    assert Before(hits[0].cell, hits[1].cell) && Before(hits[1].cell, hits[2].cell) && Before(hits[2].cell, hits[3].cell);
  }

  // ---------------------------------------------------------------------------
  // Layers, map size and tile ids

  /** The 32-bit unsigned maximum, returned when no layer has the name. */
  const NoLayer: nat := 0xFFFF_FFFF

  /** The index of the first layer called `name`, counted in a 32-bit unsigned
      integer, or `NoLayer` when no layer has that name. */
  method GetLayerIndexByName(layers: seq<string>, name: string) returns (index: nat)
    ensures (forall k :: 0 <= k < |layers| ==> layers[k] != name) ==> index == NoLayer
    ensures forall k :: 0 <= k < |layers| && layers[k] == name && (forall j :: 0 <= j < k ==> layers[j] != name) ==> index == k % 0x1_0000_0000
  {
    var i := 0;
    var counter := 0;
    while i < |layers|
      invariant 0 <= i <= |layers|
      invariant counter == i % 0x1_0000_0000
      invariant forall j :: 0 <= j < i ==> layers[j] != name
    {
      if layers[i] == name {
        return counter;
      }
      counter := (counter + 1) % 0x1_0000_0000;
      i := i + 1;
    }
    return NoLayer;
  }

  /** Map size in pixels: tile size times tile count on each axis, so the map's
      rectangle covers exactly the cells `[0, columns) x [0, rows)`. */
  function MapSize(tileSize: Vec, columns: nat, rows: nat): (size: Vec)
    ensures tileSize.x > 0.0 && tileSize.y > 0.0 ==>
      CellRangeOf(Rect(0.0, 0.0, size.x, size.y), tileSize.x, tileSize.y) == CellRange(0, 0, columns, rows)
  {
    var size := Vec(tileSize.x * columns as real, tileSize.y * rows as real);
    if tileSize.x > 0.0 && tileSize.y > 0.0 then
      MapCoversGrid(tileSize, columns, rows);
      size
    else size
  }

  /** A rectangle of `columns` by `rows` tiles from the origin covers exactly the
      cells `[0, columns) x [0, rows)`. */
  lemma MapCoversGrid(tileSize: Vec, columns: nat, rows: nat)
    requires tileSize.x > 0.0 && tileSize.y > 0.0
    ensures CellRangeOf(Rect(0.0, 0.0, tileSize.x * columns as real, tileSize.y * rows as real),
                        tileSize.x, tileSize.y) == CellRange(0, 0, columns, rows)
  {
    assert (tileSize.x * columns as real) / tileSize.x == columns as real;
    assert (tileSize.y * rows as real) / tileSize.y == rows as real;
    assert 0.0 / tileSize.x == 0.0 && 0.0 / tileSize.y == 0.0;
  }

  /** A tile's id within its tile set: `gid - firstgid + 1` in 32-bit unsigned
      arithmetic. */
  function TileId(gid: nat, firstGid: nat): (id: nat)
    requires gid < 0x1_0000_0000 && firstGid < 0x1_0000_0000
    ensures id < 0x1_0000_0000 && (id - (gid - firstGid + 1)) % 0x1_0000_0000 == 0
    ensures firstGid <= gid < firstGid + 0x1_0000_0000 - 1 ==> id == gid - firstGid + 1
  {
    ((gid - firstGid + 1) % 0x1_0000_0000) as nat
  }

  /** Within a tile set the first global id is tile 1 and consecutive global ids are
      consecutive tile ids, so the global id is recovered as `firstgid + id - 1`. */
  lemma TileIdRoundTrip(gid: nat, firstGid: nat)
    requires firstGid <= gid < 0x1_0000_0000 - 1
    ensures TileId(gid, firstGid) >= 1 && firstGid + TileId(gid, firstGid) - 1 == gid
  {
  }
}
