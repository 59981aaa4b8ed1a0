/**
 * The grid compositor of the shape viewer (`renderShapes`): N tiles of
 * 56 x 56 pixels are laid out row by row in at most eight columns, on an
 * image just large enough to hold them.
 *
 * Drawing itself (the canvas, the per-shape renderer and PNG encoding) is
 * not part of this model: each `drawImage` call is recorded as a `Tile`,
 * the shape drawn and the pixel offset it is drawn at.
 */
module Grid {

  /** The side of one tile, in pixels. */
  const TileSize := 56

  /** The most tiles one row holds. */
  const MaxColumns := 8

  /** The grid for a number of tiles and the size of the image that holds it. */
  datatype Layout = Layout(columns: nat, rows: nat, width: nat, height: nat)

  /** The top-left pixel of a tile. */
  datatype Offset = Offset(x: nat, y: nat)

  /** One `drawImage` call: the tile for `shapes[index]`, drawn at `at`. */
  datatype Tile<D> = Tile(index: nat, shape: D, at: Offset)

  /** The layout for `n` tiles: `min(n, 8)` columns, as many rows as it takes
      (`ceil(n / columns)`), and an image of 56 pixels per column and per row. */
  function GridLayout(n: nat): (g: Layout)
    requires n > 0
    ensures g.columns == if n < MaxColumns then n else MaxColumns
    ensures 1 <= g.columns <= MaxColumns
    ensures 0 < g.rows && (g.rows - 1) * g.columns < n <= g.rows * g.columns
    ensures g.width == TileSize * g.columns && g.height == TileSize * g.rows
  {
    var columns := if n < MaxColumns then n else MaxColumns;
    var rows := (n + columns - 1) / columns;
    CeilingDivision(n, columns);
    Layout(columns, rows, TileSize * columns, TileSize * rows)
  }

  /** `(n + c - 1) / c` is the least number of rows of `c` that hold `n`. */
  lemma CeilingDivision(n: nat, c: nat)
    requires n > 0 && c > 0
    ensures var q := (n + c - 1) / c; 0 < q && (q - 1) * c < n <= q * c
  {
    var q, r := (n + c - 1) / c, (n + c - 1) % c;
    assert n + c - 1 == q * c + r && 0 <= r < c;
    assert (q - 1) * c == q * c - c;
  }

  /** Where tile `i` is drawn in a grid of `columns` columns: column `i mod columns`,
      row `i div columns`, 56 pixels apart. */
  function TileOffset(i: nat, columns: nat): Offset
    requires columns > 0
  {
    Offset((i % columns) * TileSize, (i / columns) * TileSize)
  }

  /** The index of the tile drawn at a grid-aligned offset, counting row by row. */
  function IndexAt(o: Offset, columns: nat): nat
  {
    (o.y / TileSize) * columns + o.x / TileSize
  }

  /** Offsets are row-major: the tile at the offset of tile `i` is tile `i`. */
  lemma OffsetThenIndex(i: nat, columns: nat)
    requires columns > 0
    ensures IndexAt(TileOffset(i, columns), columns) == i
  {
    var col, row := i % columns, i / columns;
    assert (col * TileSize) / TileSize == col;
    assert (row * TileSize) / TileSize == row;
  }

  /** And back: every grid-aligned offset inside the columns is the offset of the tile it names. */
  lemma IndexThenOffset(o: Offset, columns: nat)
    requires columns > 0
    requires o.x % TileSize == 0 && o.y % TileSize == 0 && o.x < TileSize * columns
    ensures TileOffset(IndexAt(o, columns), columns) == o
  {
    var col, row := o.x / TileSize, o.y / TileSize;
    assert col < columns;
    var i := row * columns + col;
    assert i % columns == col && i / columns == row by {
      DivModUnique(i, columns, row, col);
    }
  }

  /** Quotient and remainder are determined by `i == q * c + r` with `0 <= r < c`. */
  lemma DivModUnique(i: nat, c: nat, q: nat, r: nat)
    requires c > 0 && r < c && i == q * c + r
    ensures i / c == q && i % c == r
  {
    var q', r' := i / c, i % c;
    assert q' * c + r' == q * c + r;
    if q' < q {
      MultipleGap(q', q, c);
    } else if q' > q {
      MultipleGap(q, q', c);
    }
  }

  /** Two different multiples of `c` are at least `c` apart. */
  lemma MultipleGap(a: nat, b: nat, c: nat)
    requires a < b
    ensures a * c + c <= b * c
  {
    var k := b - a;
    assert b * c == a * c + k * c;
    assert k * c >= c by {
      assert k * c == (k - 1) * c + c;
    }
  }

  /** Whether a whole tile drawn at `o` lies on the image of `g`. */
  predicate Inside(o: Offset, g: Layout)
  {
    o.x + TileSize <= g.width && o.y + TileSize <= g.height
  }

  /** Whether tiles drawn at `o` and `p` share no pixel. */
  predicate Disjoint(o: Offset, p: Offset)
  {
    o.x + TileSize <= p.x || p.x + TileSize <= o.x || o.y + TileSize <= p.y || p.y + TileSize <= o.y
  }

  /** Every one of the `n` tiles lies entirely on the image. */
  lemma TileInside(n: nat, i: nat)
    requires 0 <= i < n
    ensures Inside(TileOffset(i, GridLayout(n).columns), GridLayout(n))
  {
    var g := GridLayout(n);
    var c := g.columns;
    var col, row := i % c, i / c;
    assert (col + 1) * TileSize <= c * TileSize;
    assert row < g.rows by {
      assert row * c <= i;
      if row >= g.rows {
        MultipleGap(g.rows - 1, row, c);
      }
    }
    assert (row + 1) * TileSize <= g.rows * TileSize;
  }

  /** Distinct tiles occupy distinct cells, so no two tiles overlap. */
  lemma TilesDisjoint(columns: nat, i: nat, j: nat)
    requires columns > 0 && i != j
    ensures Disjoint(TileOffset(i, columns), TileOffset(j, columns))
  {
    var ci, ri, cj, rj := i % columns, i / columns, j % columns, j / columns;
    assert ci != cj || ri != rj by {
      assert i == ri * columns + ci && j == rj * columns + cj;
    }
    if ci < cj {
      assert (ci + 1) * TileSize <= cj * TileSize;
    } else if cj < ci {
      assert (cj + 1) * TileSize <= ci * TileSize;
    } else if ri < rj {
      assert (ri + 1) * TileSize <= rj * TileSize;
    } else {
      assert (rj + 1) * TileSize <= ri * TileSize;
    }
  }

  /** The tiles `renderShapes` draws: one per shape, in order, each at its grid offset. */
  function Placements<D>(shapes: seq<D>, columns: nat): (tiles: seq<Tile<D>>)
    requires columns > 0
    ensures |tiles| == |shapes|
  {
    seq(|shapes|, i requires 0 <= i < |shapes| => Tile(i, shapes[i], TileOffset(i, columns)))
  }

  /** Whether every tile lies on the image and no two tiles overlap. */
  predicate WellPlaced<D>(tiles: seq<Tile<D>>, layout: Layout)
  {
    && (forall i :: 0 <= i < |tiles| ==> Inside(tiles[i].at, layout))
    && (forall i, j :: 0 <= i < j < |tiles| ==> Disjoint(tiles[i].at, tiles[j].at))
  }

  /** The layout for `n` tiles puts every tile on the image and no two on the same pixels. */
  lemma PlacementsWellPlaced<D>(shapes: seq<D>)
    requires |shapes| > 0
    ensures WellPlaced(Placements(shapes, GridLayout(|shapes|).columns), GridLayout(|shapes|))
  {
    var n, g := |shapes|, GridLayout(|shapes|);
    var tiles := Placements(shapes, g.columns);
    forall i | 0 <= i < n
      ensures Inside(tiles[i].at, g)
    {
      TileInside(n, i);
    }
    forall i, j | 0 <= i < j < n
      ensures Disjoint(tiles[i].at, tiles[j].at)
    {
      TilesDisjoint(g.columns, i, j);
    }
  }

  /** `renderShapes`: the layout is computed once, then each shape's tile is
      drawn in order at its grid offset. The caller never passes an empty list. */
  method RenderShapes<D>(shapes: seq<D>) returns (layout: Layout, tiles: seq<Tile<D>>)
    requires |shapes| > 0
    ensures layout == GridLayout(|shapes|)
    ensures tiles == Placements(shapes, layout.columns)
    ensures WellPlaced(tiles, layout)
  {
    layout := GridLayout(|shapes|);
    tiles := [];
    for index := 0 to |shapes|
      invariant |tiles| == index
      invariant forall i :: 0 <= i < index ==> tiles[i] == Tile(i, shapes[i], TileOffset(i, layout.columns))
    {
      tiles := tiles + [Tile(index, shapes[index], TileOffset(index, layout.columns))];
    }
    PlacementsWellPlaced(shapes);
  }

  /** Ten tiles: eight columns, two rows, a 448 x 112 image; tiles 8 and 9
      start the second row. */
  lemma TenTilesExample()
    ensures GridLayout(10) == Layout(8, 2, 448, 112)
    ensures TileOffset(8, 8) == Offset(0, 56) && TileOffset(9, 8) == Offset(56, 56)
  {
  }

  /** One tile: one column, one row, a single 56 x 56 image. */
  lemma OneTileExample()
    ensures GridLayout(1) == Layout(1, 1, 56, 56)
  {
  }
}
