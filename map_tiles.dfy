/** Tile ids and flip bits, tilesets, the tileset lookup and the
    per-tileset vertex buckets of the Tiled (.tmj) map loader
    (code/anker/game/anker_map.cpp). */
module MapTiles {
  import St = Status
  import opened Wrappers
  import opened Vertices

  // ---------------------------------------------------------------------
  // Tile ids

  /** The `u32` values of the loader (tile numbers, layer width and
      height). */
  type U32 = x: int | 0 <= x < 0x1_0000_0000

  /** `TileId = u32`. The bit operations of the source are written on the
      number: for a 32-bit value, clearing bits 31, 30 and 29 leaves the
      remainder modulo 2^29, and bit `k` is set iff `(t / 2^k) % 2 == 1`. */
  type TileId = U32

  const EmptyTile: TileId := 0
  const FlipHorizontal: nat := 0x8000_0000
  const FlipVertical: nat := 0x4000_0000
  const FlipDiagonal: nat := 0x2000_0000

  /** `tile & bit` is non-zero, for a single bit `bit`. */
  predicate HasBit(tile: TileId, bit: nat)
    requires bit > 0
  {
    (tile / bit) % 2 == 1
  }

  /** `tile & ~FlipMask`: the global id, the low 29 bits of the tile. */
  function Gid(tile: TileId): (g: nat)
    ensures g < FlipDiagonal
  {
    tile % FlipDiagonal
  }

  /** The three flip flags of a tile. */
  datatype Flips = Flips(horizontal: bool, vertical: bool, diagonal: bool)

  function FlipsOf(tile: TileId): Flips {
    Flips(HasBit(tile, FlipHorizontal), HasBit(tile, FlipVertical), HasBit(tile, FlipDiagonal))
  }

  /** The tile number Tiled writes for a global id and its flip flags. */
  function EncodeTile(gid: nat, f: Flips): TileId
    requires gid < FlipDiagonal
  {
    gid
      + (if f.horizontal then FlipHorizontal else 0)
      + (if f.vertical then FlipVertical else 0)
      + (if f.diagonal then FlipDiagonal else 0)
  }

  /** Decoding recovers the global id and the flags of every tile number,
      and every tile number is the encoding of its decoded parts. */
  lemma DecodeEncode(gid: nat, f: Flips)
    requires gid < FlipDiagonal
    ensures Gid(EncodeTile(gid, f)) == gid
    ensures FlipsOf(EncodeTile(gid, f)) == f
  {
  }

  lemma EncodeDecode(tile: TileId)
    ensures EncodeTile(Gid(tile), FlipsOf(tile)) == tile
  {
  }

  // ---------------------------------------------------------------------
  // Texture corners under the flip flags

  /** The four texture-coordinate variables of `loadTileLayerVertices`,
      named by the vertex corner they are used for. */
  datatype UvCorners = UvCorners(tl: Corner, tr: Corner, bl: Corner, br: Corner)

  /** The swaps of the source: start from the texture rectangle's own
      corners, then vertical (`tl<->bl`, `tr<->br`), then horizontal
      (`tl<->tr`, `bl<->br`), then diagonal (`tr<->bl`). */
  function UvCornersOf(f: Flips): UvCorners {
    var q0 := UvCorners(TopLeft, TopRight, BottomLeft, BottomRight);
    var q1 := if f.vertical then UvCorners(q0.bl, q0.br, q0.tl, q0.tr) else q0;
    var q2 := if f.horizontal then UvCorners(q1.tr, q1.tl, q1.br, q1.bl) else q1;
    if f.diagonal then UvCorners(q2.tl, q2.bl, q2.tr, q2.br) else q2
  }

  /** The texture corner used at vertex corner `c`. */
  function UvAt(q: UvCorners, c: Corner): Corner {
    match c
    case TopLeft => q.tl
    case TopRight => q.tr
    case BottomLeft => q.bl
    case BottomRight => q.br
  }

  function MirrorVertically(c: Corner): Corner {
    match c
    case TopLeft => BottomLeft
    case TopRight => BottomRight
    case BottomLeft => TopLeft
    case BottomRight => TopRight
  }

  function MirrorHorizontally(c: Corner): Corner {
    match c
    case TopLeft => TopRight
    case TopRight => TopLeft
    case BottomLeft => BottomRight
    case BottomRight => BottomLeft
  }

  /** Reflection in the main diagonal: top-left and bottom-right stay. */
  function Transpose(c: Corner): Corner {
    match c
    case TopLeft => TopLeft
    case TopRight => BottomLeft
    case BottomLeft => TopRight
    case BottomRight => BottomRight
  }

  /** The flips act on the tile image as a composition of reflections: the
      diagonal reflection is applied first, then the horizontal, then the
      vertical one (Tiled's order), although the swaps of the source run in
      the opposite order. The corners are therefore a permutation, and no
      flag leaves the texture as it is. */
  lemma UvCornersMeaning(f: Flips, c: Corner)
    ensures UvAt(UvCornersOf(f), c)
         == (var d := if f.diagonal then Transpose(c) else c;
             var h := if f.horizontal then MirrorHorizontally(d) else d;
             if f.vertical then MirrorVertically(h) else h)
    ensures f == Flips(false, false, false) ==> UvAt(UvCornersOf(f), c) == c
  {
  }

  lemma UvCornersPermute(f: Flips, c1: Corner, c2: Corner)
    requires c1 != c2
    ensures UvAt(UvCornersOf(f), c1) != UvAt(UvCornersOf(f), c2)
  {
    UvCornersMeaning(f, c1);
    UvCornersMeaning(f, c2);
  }

  /** Horizontal plus diagonal is a quarter turn: each corner takes the
      texture of the next corner clockwise. */
  lemma HorizontalDiagonalRotates()
    ensures var q := UvCornersOf(Flips(true, false, true));
            q == UvCorners(TopRight, BottomRight, TopLeft, BottomLeft)
  {
  }

  // ---------------------------------------------------------------------
  // Tilesets

  /** `Tileset`: first global id, the grid of tiles (`tileCount`), the tile
      size in pixels and the texture identifier. */
  datatype Tileset = Tileset(firstTileId: nat, columns: nat, rows: nat,
                             tileWidth: nat, tileHeight: nat, texture: string)

  lemma GridBound(index: nat, columns: nat, rows: nat)
    requires index < columns * rows
    ensures columns > 0 && index / columns < rows
  {
    if columns > 0 {
      MulMonotone(rows, index / columns, columns);
    }
  }

  lemma MulMonotone(a: nat, b: nat, c: nat)
    ensures a <= b ==> a * c <= b * c
  {
  }

  /** `Tileset::textureCoordinates(gid)`: the column and row of the tile in
      the tileset image, `index % columns` and `index / columns` with
      `index = gid - firstTileId`. The source asserts that the id belongs to
      the tileset. The rectangle it builds from the cell (size and offset
      in texture space) is given by the cell and the tileset's sizes. */
  function TexCell(t: Tileset, gid: nat): (cell: (nat, nat))
    requires t.firstTileId <= gid && gid - t.firstTileId < t.columns * t.rows
    ensures cell.0 < t.columns && cell.1 < t.rows
  {
    var index := gid - t.firstTileId;
    GridBound(index, t.columns, t.rows);
    (index % t.columns, index / t.columns)
  }

  /** The cell of an id is its index read row by row ... */
  lemma TexCellMeaning(t: Tileset, gid: nat)
    requires t.firstTileId <= gid && gid - t.firstTileId < t.columns * t.rows
    ensures TexCell(t, gid).1 * t.columns + TexCell(t, gid).0 == gid - t.firstTileId
    ensures TexCell(t, gid) == ((gid - t.firstTileId) % t.columns, (gid - t.firstTileId) / t.columns)
  {
    GridBound(gid - t.firstTileId, t.columns, t.rows);
  }

  /** ... so distinct ids of one tileset lie in distinct cells. */
  lemma TexCellInjective(t: Tileset, g1: nat, g2: nat)
    requires t.firstTileId <= g1 && g1 - t.firstTileId < t.columns * t.rows
    requires t.firstTileId <= g2 && g2 - t.firstTileId < t.columns * t.rows
    requires TexCell(t, g1) == TexCell(t, g2)
    ensures g1 == g2
  {
    TexCellMeaning(t, g1);
    TexCellMeaning(t, g2);
  }

  /** `tileCount.y = tileCountTotal / tileCount.x` in `loadTileset` (a zero
      column count divides by zero in the source). */
  function TilesetRows(tileCount: nat, columns: nat): (rows: nat)
    requires columns > 0
    ensures rows * columns <= tileCount < (rows + 1) * columns
  {
    tileCount / columns
  }

  /** Every id from `firstTileId` on that is counted by `tilecount` (and fits
      the whole rows) has a texture cell. */
  lemma TilesetCoversFullRows(first: nat, tileCount: nat, columns: nat, gid: nat)
    requires columns > 0
    requires first <= gid < first + TilesetRows(tileCount, columns) * columns
    ensures gid - first < columns * TilesetRows(tileCount, columns)
  {
  }

  /** `findTilesetIndex(gid)`: the index of the first tileset whose
      `firstTileId` does not exceed `gid`, or `|tilesets|` when there is
      none (the end iterator). */
  function FindTilesetIndex(tilesets: seq<Tileset>, gid: nat): (r: nat)
    ensures r <= |tilesets|
    ensures forall j | 0 <= j < r :: gid < tilesets[j].firstTileId
    ensures r < |tilesets| ==> tilesets[r].firstTileId <= gid
  {
    if |tilesets| == 0 then 0
    else if gid >= tilesets[0].firstTileId then 0
    else 1 + FindTilesetIndex(tilesets[1..], gid)
  }

  /** The order `loadTilesets` sorts into. */
  predicate StrictlyDescending(tilesets: seq<Tileset>) {
    forall i, j | 0 <= i < j < |tilesets| :: tilesets[i].firstTileId > tilesets[j].firstTileId
  }

  predicate DistinctFirstIds(tilesets: seq<Tileset>) {
    forall i, j | 0 <= i < j < |tilesets| :: tilesets[i].firstTileId != tilesets[j].firstTileId
  }

  /** In the sorted list the linear lookup finds the tileset a global id
      belongs to: the one with the greatest first id not above it; no
      tileset is found exactly when the id is below every first id. */
  lemma FindInSorted(tilesets: seq<Tileset>, gid: nat)
    requires StrictlyDescending(tilesets)
    ensures var r := FindTilesetIndex(tilesets, gid);
            r < |tilesets| ==>
              forall j | 0 <= j < |tilesets| && tilesets[j].firstTileId <= gid ::
                tilesets[j].firstTileId <= tilesets[r].firstTileId
    ensures FindTilesetIndex(tilesets, gid) == |tilesets|
        <==> forall j | 0 <= j < |tilesets| :: gid < tilesets[j].firstTileId
  {
  }

  /** Insertion into a list kept in the comparator's order: `t` goes before
      the first element it compares `>=` to. */
  function Insert(t: Tileset, sorted: seq<Tileset>): seq<Tileset> {
    if |sorted| == 0 then [t]
    else if t.firstTileId >= sorted[0].firstTileId then [t] + sorted
    else [sorted[0]] + Insert(t, sorted[1..])
  }

  /** The result of `std::ranges::sort` with the comparator
      `a.firstTileId >= b.firstTileId`. */
  function SortTilesets(tilesets: seq<Tileset>): seq<Tileset> {
    if |tilesets| == 0 then [] else Insert(tilesets[0], SortTilesets(tilesets[1..]))
  }

  lemma {:induction false} InsertPermutes(t: Tileset, sorted: seq<Tileset>)
    ensures multiset(Insert(t, sorted)) == multiset(sorted) + multiset{t}
  {
    if |sorted| > 0 && t.firstTileId < sorted[0].firstTileId {
      InsertPermutes(t, sorted[1..]);
      assert sorted == [sorted[0]] + sorted[1..];
    }
  }

  lemma {:induction false} InsertSorted(t: Tileset, sorted: seq<Tileset>)
    requires StrictlyDescending(sorted)
    requires forall k | 0 <= k < |sorted| :: sorted[k].firstTileId != t.firstTileId
    ensures StrictlyDescending(Insert(t, sorted))
  {
    if |sorted| > 0 && t.firstTileId < sorted[0].firstTileId {
      var rest := sorted[1..];
      forall k | 0 <= k < |rest| ensures rest[k].firstTileId != t.firstTileId {
        assert rest[k] == sorted[k + 1];
      }
      InsertSorted(t, rest);
      InsertPermutes(t, rest);
      var r := Insert(t, rest);
      forall j | 0 <= j < |r| ensures r[j].firstTileId < sorted[0].firstTileId {
        assert r[j] in multiset(rest) + multiset{t};
        if r[j] != t {
          var k :| 0 <= k < |rest| && rest[k] == r[j];
          assert rest[k] == sorted[k + 1];
        }
      }
      assert Insert(t, sorted) == [sorted[0]] + r;
    }
  }

  /** The sort only reorders. */
  lemma {:induction false} SortTilesetsPermutes(tilesets: seq<Tileset>)
    ensures multiset(SortTilesets(tilesets)) == multiset(tilesets)
  {
    if |tilesets| > 0 {
      SortTilesetsPermutes(tilesets[1..]);
      InsertPermutes(tilesets[0], SortTilesets(tilesets[1..]));
      assert tilesets == [tilesets[0]] + tilesets[1..];
    }
  }

  /** An element of a permutation of `s` is an element of `s`. */
  lemma PermutationMember(p: seq<Tileset>, s: seq<Tileset>, k: nat)
    requires multiset(p) == multiset(s) && k < |p|
    ensures exists m | 0 <= m < |s| :: s[m] == p[k]
  {
    assert p[k] in multiset(p);
    assert p[k] in s;
  }

  lemma {:induction false} SortTilesetsSorted(tilesets: seq<Tileset>)
    requires DistinctFirstIds(tilesets)
    ensures StrictlyDescending(SortTilesets(tilesets))
  {
    if |tilesets| > 0 {
      var rest := tilesets[1..];
      assert DistinctFirstIds(rest) by {
        forall i, j | 0 <= i < j < |rest| ensures rest[i].firstTileId != rest[j].firstTileId {
          assert rest[i] == tilesets[i + 1] && rest[j] == tilesets[j + 1];
        }
      }
      SortTilesetsSorted(rest);
      SortTilesetsPermutes(rest);
      var s := SortTilesets(rest);
      forall k | 0 <= k < |s| ensures s[k].firstTileId != tilesets[0].firstTileId {
        PermutationMember(s, rest, k);
        var m :| 0 <= m < |rest| && rest[m] == s[k];
        assert rest[m] == tilesets[m + 1];
      }
      InsertSorted(tilesets[0], s);
    }
  }

  /** With distinct first ids (which the non-strict comparator needs to be a
      valid ordering), the sort yields a permutation in strictly descending
      order of first ids. */
  lemma SortTilesetsCorrect(tilesets: seq<Tileset>)
    requires DistinctFirstIds(tilesets)
    ensures multiset(SortTilesets(tilesets)) == multiset(tilesets)
    ensures StrictlyDescending(SortTilesets(tilesets))
  {
    SortTilesetsPermutes(tilesets);
    SortTilesetsSorted(tilesets);
  }

  // ---------------------------------------------------------------------
  // Tile layer vertices

  /** A vertex of a tile quad. The position is corner `corner` (in world
      space) of the unit rectangle at grid offset (`cellX`, `cellY`); the
      texture coordinate is corner `uv` of cell (`texColumn`, `texRow`) of
      tileset `tileset`. */
  datatype TileVertex = TileVertex(cellX: int, cellY: int, corner: Corner,
                                   tileset: nat, texColumn: nat, texRow: nat, uv: Corner)

  /** The tile at `tileIndex` sits in column `tileIndex % width` and row
      `tileIndex / width`; the row grows downwards while the y axis grows
      upwards, so the unit rectangle is offset to `-(row) - 1`. */
  function Cell(tileIndex: nat, width: nat): (cell: (int, int))
    requires width > 0
    ensures 0 <= cell.0 < width && cell.1 <= -1
  {
    ((tileIndex % width) as int, -((tileIndex / width) as int) - 1)
  }

  /** Tile `tileIndex` is read row by row: column `tileIndex % width`, row
      `tileIndex / width`, offset downwards by one unit. */
  lemma CellMeaning(tileIndex: nat, width: nat)
    requires width > 0
    ensures var cell := Cell(tileIndex, width);
            && (-cell.1 - 1) * width + cell.0 == tileIndex
            && cell == (tileIndex % width, -(tileIndex / width) - 1)
  {
  }

  /** A non-empty tile whose global id falls into a tileset and into that
      tileset's grid (the source indexes `m_tilesets` with the lookup result
      and asserts the grid bound). */
  predicate Resolves(tilesets: seq<Tileset>, tile: TileId) {
    tile == EmptyTile
    || (var g := Gid(tile);
        var k := FindTilesetIndex(tilesets, g);
        k < |tilesets| && g - tilesets[k].firstTileId < tilesets[k].columns * tilesets[k].rows)
  }

  predicate AllResolve(tilesets: seq<Tileset>, tiles: seq<TileId>) {
    forall i | 0 <= i < |tiles| :: Resolves(tilesets, tiles[i])
  }

  /** The six vertices a non-empty tile contributes: the corners in the
      order TL, BL, TR, TR, BL, BR, each with the texture corner chosen by
      the flip flags. */
  function TileQuad(tilesets: seq<Tileset>, tileIndex: nat, tile: TileId, width: nat): (q: seq<TileVertex>)
    requires width > 0 && tile != EmptyTile && Resolves(tilesets, tile)
    ensures |q| == 6
    ensures forall i | 0 <= i < |q| :: q[i].tileset == FindTilesetIndex(tilesets, Gid(tile))
  {
    var g := Gid(tile);
    var k := FindTilesetIndex(tilesets, g);
    var cell := Cell(tileIndex, width);
    var tex := TexCell(tilesets[k], g);
    var uv := UvCornersOf(FlipsOf(tile));
    [QuadVertex(cell, k, tex, uv, TopLeft), QuadVertex(cell, k, tex, uv, BottomLeft),
     QuadVertex(cell, k, tex, uv, TopRight), QuadVertex(cell, k, tex, uv, TopRight),
     QuadVertex(cell, k, tex, uv, BottomLeft), QuadVertex(cell, k, tex, uv, BottomRight)]
  }

  /** The vertex at corner `c` of a tile's quad. */
  function QuadVertex(cell: (int, int), k: nat, tex: (nat, nat), uv: UvCorners, c: Corner): TileVertex {
    TileVertex(cell.0, cell.1, c, k, tex.0, tex.1, UvAt(uv, c))
  }

  /** Where the loop of `loadTileLayerVertices` puts the vertices of one
      tile: nowhere for an empty tile, otherwise its quad into the bucket of
      its tileset. */
  datatype Placement = Skipped | Placed(bucket: nat, quad: seq<TileVertex>)

  function Place(tilesets: seq<Tileset>, tileIndex: nat, tile: TileId, width: nat): (p: Placement)
    requires width > 0 && Resolves(tilesets, tile)
    ensures p.Skipped? <==> tile == EmptyTile
    ensures p.Placed? ==> p.bucket == FindTilesetIndex(tilesets, Gid(tile)) < |tilesets|
  {
    if tile == EmptyTile then Skipped
    else Placed(FindTilesetIndex(tilesets, Gid(tile)), TileQuad(tilesets, tileIndex, tile, width))
  }

  /** The placement of every tile of a layer. */
  function Placements(tilesets: seq<Tileset>, tiles: seq<TileId>, width: nat): (ps: seq<Placement>)
    requires (width > 0 || |tiles| == 0) && AllResolve(tilesets, tiles)
    ensures |ps| == |tiles|
    ensures forall i | 0 <= i < |tiles| :: ps[i] == Place(tilesets, i, tiles[i], width)
    ensures forall i | 0 <= i < |tiles| :: ps[i].Skipped? <==> tiles[i] == EmptyTile
  {
    seq(|tiles|, i requires 0 <= i < |tiles| => Place(tilesets, i, tiles[i], width))
  }

  /** Every placed quad has six vertices, all of them naming the bucket the
      quad goes to. */
  predicate WellPlaced(ps: seq<Placement>) {
    forall i | 0 <= i < |ps| && ps[i].Placed? ::
      |ps[i].quad| == 6 && forall j | 0 <= j < |ps[i].quad| :: ps[i].quad[j].tileset == ps[i].bucket
  }

  /** Every placement goes to one of the first `m` buckets. */
  predicate BucketsBelow(ps: seq<Placement>, m: nat) {
    forall i | 0 <= i < |ps| && ps[i].Placed? :: ps[i].bucket < m
  }

  lemma PlacementsWellPlaced(tilesets: seq<Tileset>, tiles: seq<TileId>, width: nat)
    requires (width > 0 || |tiles| == 0) && AllResolve(tilesets, tiles)
    ensures WellPlaced(Placements(tilesets, tiles, width))
    ensures BucketsBelow(Placements(tilesets, tiles, width), |tilesets|)
  {
    var ps := Placements(tilesets, tiles, width);
    forall i | 0 <= i < |ps| && ps[i].Placed?
      ensures |ps[i].quad| == 6 && forall j | 0 <= j < |ps[i].quad| :: ps[i].quad[j].tileset == ps[i].bucket
    {
      assert ps[i] == Place(tilesets, i, tiles[i], width);
    }
  }

  /** The vertices the first `n` placements put into bucket `b`, in tile
      order. */
  function BucketOf(ps: seq<Placement>, b: nat, n: nat): seq<TileVertex>
    requires n <= |ps|
  {
    if n == 0 then []
    else BucketOf(ps, b, n - 1) + (if ps[n - 1].Placed? && ps[n - 1].bucket == b then ps[n - 1].quad else [])
  }

  /** The vertices a whole layer puts into bucket `b`. */
  function Bucket(tilesets: seq<Tileset>, tiles: seq<TileId>, width: nat, b: nat): seq<TileVertex>
    requires (width > 0 || |tiles| == 0) && AllResolve(tilesets, tiles)
  {
    BucketOf(Placements(tilesets, tiles, width), b, |tiles|)
  }

  /** Bucket `b` holds its initial vertices followed by those of the first
      `n` placements, for every `b`. */
  predicate BucketsUpTo(init: seq<seq<TileVertex>>, parts: seq<seq<TileVertex>>, ps: seq<Placement>, n: nat)
    requires n <= |ps|
  {
    |parts| == |init| && forall b | 0 <= b < |parts| :: parts[b] == init[b] + BucketOf(ps, b, n)
  }

  /** A placed quad is appended to its own bucket ... */
  lemma BucketStepOwn(ps: seq<Placement>, n: nat)
    requires n < |ps| && ps[n].Placed?
    ensures BucketOf(ps, ps[n].bucket, n + 1) == BucketOf(ps, ps[n].bucket, n) + ps[n].quad
  {
  }

  /** ... and to no other. */
  lemma BucketStepOther(ps: seq<Placement>, b: nat, n: nat)
    requires n < |ps| && (ps[n].Skipped? || ps[n].bucket != b)
    ensures BucketOf(ps, b, n + 1) == BucketOf(ps, b, n)
  {
    assert BucketOf(ps, b, n + 1) == BucketOf(ps, b, n) + [];
  }

  /** One iteration of the loop of `loadTileLayerVertices` on an empty
      tile: every bucket stays as it is. */
  lemma SkipStep(init: seq<seq<TileVertex>>, parts: seq<seq<TileVertex>>, ps: seq<Placement>, n: nat)
    requires n < |ps| && ps[n].Skipped? && BucketsUpTo(init, parts, ps, n)
    ensures BucketsUpTo(init, parts, ps, n + 1)
  {
    forall b | 0 <= b < |parts| {
      BucketStepOther(ps, b, n);
    }
  }

  /** One iteration on any other tile: its quad is appended to the bucket
      of its tileset, and the other buckets stay as they are. */
  lemma PlaceStep(init: seq<seq<TileVertex>>, parts: seq<seq<TileVertex>>, ps: seq<Placement>, n: nat)
    requires n < |ps| && ps[n].Placed? && ps[n].bucket < |parts| && BucketsUpTo(init, parts, ps, n)
    ensures BucketsUpTo(init, parts[ps[n].bucket := parts[ps[n].bucket] + ps[n].quad], ps, n + 1)
  {
    var k, q := ps[n].bucket, ps[n].quad;
    var next := parts[k := parts[k] + q];
    forall b | 0 <= b < |next|
      ensures next[b] == init[b] + BucketOf(ps, b, n + 1)
    {
      if b == k {
        BucketStepOwn(ps, n);
        assert next[b] == (init[b] + BucketOf(ps, b, n)) + q;
      } else {
        BucketStepOther(ps, b, n);
      }
    }
  }

  /** `loadTileLayerVertices(verticesPerPart, tiles, width)`: every bucket
      grows by exactly the quads of the non-empty tiles of its tileset. */
  method LoadTileLayerVertices(tilesets: seq<Tileset>, verticesPerPart: seq<seq<TileVertex>>,
                               tiles: seq<TileId>, width: nat)
    returns (parts: seq<seq<TileVertex>>)
    requires |verticesPerPart| == |tilesets|
    requires width > 0 || |tiles| == 0
    requires AllResolve(tilesets, tiles)
    ensures |parts| == |verticesPerPart|
    ensures forall b | 0 <= b < |parts| :: parts[b] == verticesPerPart[b] + Bucket(tilesets, tiles, width, b)
  {
    parts := verticesPerPart;
    ghost var ps := Placements(tilesets, tiles, width);
    for n := 0 to |tiles|
      invariant BucketsUpTo(verticesPerPart, parts, ps, n)
    {
      var tile := tiles[n];
      assert ps[n] == Place(tilesets, n, tile, width);
      if tile != EmptyTile {
        var gid := Gid(tile);
        var k := FindTilesetIndex(tilesets, gid);
        var quad := TileQuad(tilesets, n, tile, width);
        PlaceStep(verticesPerPart, parts, ps, n);
        parts := parts[k := parts[k] + quad];
      } else {
        SkipStep(verticesPerPart, parts, ps, n);
      }
    }
  }

  /** The number of placements among the first `n` that go to bucket `b`,
      and that of all placements among the first `n`. */
  function CountFor(ps: seq<Placement>, b: nat, n: nat): nat
    requires n <= |ps|
  {
    if n == 0 then 0
    else CountFor(ps, b, n - 1) + (if ps[n - 1].Placed? && ps[n - 1].bucket == b then 1 else 0)
  }

  function PlacedCount(ps: seq<Placement>, n: nat): nat
    requires n <= |ps|
  {
    if n == 0 then 0 else PlacedCount(ps, n - 1) + (if ps[n - 1].Placed? then 1 else 0)
  }

  /** The counts of the buckets `0 .. m-1`. */
  function SumCounts(ps: seq<Placement>, m: nat, n: nat): nat
    requires n <= |ps|
  {
    if m == 0 then 0 else SumCounts(ps, m - 1, n) + CountFor(ps, m - 1, n)
  }

  /** Each bucket holds six vertices per placement into it, and each of
      them names that bucket. */
  lemma {:induction false} BucketShape(ps: seq<Placement>, b: nat, n: nat)
    requires n <= |ps| && WellPlaced(ps)
    ensures |BucketOf(ps, b, n)| == 6 * CountFor(ps, b, n)
    ensures forall i | 0 <= i < |BucketOf(ps, b, n)| :: BucketOf(ps, b, n)[i].tileset == b
  {
    if n > 0 {
      BucketShape(ps, b, n - 1);
      var pre := BucketOf(ps, b, n - 1);
      if ps[n - 1].Placed? && ps[n - 1].bucket == b {
        var q: seq<TileVertex> := ps[n - 1].quad;
        assert BucketOf(ps, b, n) == pre + q;
        forall i | 0 <= i < |pre + q| ensures (pre + q)[i].tileset == b {
          if i >= |pre| {
            assert (pre + q)[i] == q[i - |pre|];
          }
        }
      } else {
        assert BucketOf(ps, b, n) == pre + [];
      }
    }
  }

  lemma {:induction false} SumCountsStep(ps: seq<Placement>, m: nat, n: nat)
    requires 0 < n <= |ps|
    ensures SumCounts(ps, m, n)
         == SumCounts(ps, m, n - 1) + (if ps[n - 1].Placed? && ps[n - 1].bucket < m then 1 else 0)
  {
    if m > 0 {
      SumCountsStep(ps, m - 1, n);
    }
  }

  lemma {:induction false} SumCountsZero(ps: seq<Placement>, m: nat)
    ensures SumCounts(ps, m, 0) == 0
  {
    if m > 0 {
      SumCountsZero(ps, m - 1);
    }
  }

  /** With every bucket below `m`, each placement is counted in exactly one
      of the first `m` buckets. */
  lemma {:induction false} EveryPlacementCountedOnce(ps: seq<Placement>, m: nat, n: nat)
    requires n <= |ps| && BucketsBelow(ps, m)
    ensures SumCounts(ps, m, n) == PlacedCount(ps, n)
  {
    if n > 0 {
      EveryPlacementCountedOnce(ps, m, n - 1);
      SumCountsStep(ps, m, n);
    } else {
      SumCountsZero(ps, m);
    }
  }

  /** The number of non-empty tiles among the first `n`. */
  function NonEmpty(tiles: seq<TileId>, n: nat): nat
    requires n <= |tiles|
  {
    if n == 0 then 0 else NonEmpty(tiles, n - 1) + (if tiles[n - 1] != EmptyTile then 1 else 0)
  }

  lemma {:induction false} PlacedNonEmpty(tilesets: seq<Tileset>, tiles: seq<TileId>, width: nat, n: nat)
    requires n <= |tiles| && (width > 0 || |tiles| == 0) && AllResolve(tilesets, tiles)
    ensures PlacedCount(Placements(tilesets, tiles, width), n) == NonEmpty(tiles, n)
  {
    if n > 0 {
      PlacedNonEmpty(tilesets, tiles, width, n - 1);
    }
  }

  /** The buckets of a layer partition its non-empty tiles: bucket `b` holds
      six vertices, all naming tileset `b`, per non-empty tile of that
      tileset, and the counts over all tilesets add up to the number of
      non-empty tiles; empty tiles add nothing. */
  lemma BucketsPartitionTiles(tilesets: seq<Tileset>, tiles: seq<TileId>, width: nat)
    requires (width > 0 || |tiles| == 0) && AllResolve(tilesets, tiles)
    ensures var ps := Placements(tilesets, tiles, width);
            && SumCounts(ps, |tilesets|, |tiles|) == NonEmpty(tiles, |tiles|)
            && forall b: nat ::
                 && |Bucket(tilesets, tiles, width, b)| == 6 * CountFor(ps, b, |tiles|)
                 && forall i | 0 <= i < |Bucket(tilesets, tiles, width, b)| :: Bucket(tilesets, tiles, width, b)[i].tileset == b
  {
    var ps := Placements(tilesets, tiles, width);
    PlacementsWellPlaced(tilesets, tiles, width);
    EveryPlacementCountedOnce(ps, |tilesets|, |tiles|);
    PlacedNonEmpty(tilesets, tiles, width, |tiles|);
    forall b: nat
      ensures |Bucket(tilesets, tiles, width, b)| == 6 * CountFor(ps, b, |tiles|)
      ensures forall i | 0 <= i < |Bucket(tilesets, tiles, width, b)| :: Bucket(tilesets, tiles, width, b)[i].tileset == b
    {
      BucketShape(ps, b, |tiles|);
    }
  }

  /** The quad of a tile: positions at the corners TL, BL, TR, TR, BL, BR of
      its grid cell, texture coordinates in its tileset cell, and the two
      triangles sharing the TR-BL diagonal. */
  lemma TileQuadShape(tilesets: seq<Tileset>, tileIndex: nat, tile: TileId, width: nat, i: nat)
    requires width > 0 && tile != EmptyTile && Resolves(tilesets, tile) && i < 6
    ensures var q := TileQuad(tilesets, tileIndex, tile, width);
            var k := FindTilesetIndex(tilesets, Gid(tile));
            && q[i].corner == QuadCorners[i]
            && q[i].uv == UvAt(UvCornersOf(FlipsOf(tile)), QuadCorners[i])
            && (q[i].cellX, q[i].cellY) == Cell(tileIndex, width)
            && q[i].tileset == k
            && (q[i].texColumn, q[i].texRow) == TexCell(tilesets[k], Gid(tile))
            && q[2] == q[3] && q[1] == q[4]
  {
  }

  // ---------------------------------------------------------------------
  // Tile layer format

  /** The format checks of `loadTileLayer` as written: `encoding`
      (defaulting to empty) must be "base64", `compression` must be empty,
      `data` must be present, and the number of decoded 32-bit words must
      equal `width * height` computed in `u32`, so modulo 2^32. */
  function TileLayerStatusAsWritten(encoding: string, compression: string, data: Option<seq<TileId>>,
                                    width: U32, height: U32): (s: St.Status)
    ensures s.IsOk() || s.code == St.FormatError
    ensures s.IsOk() <==> encoding == "base64" && compression == "" && data.Some?
                          && |data.value| == (width * height) % 0x1_0000_0000
  {
    if encoding != "base64" || compression != "" then St.FromCode(St.FormatError)
    else if data.None? then St.FromCode(St.FormatError)
    else if |data.value| != (width * height) % 0x1_0000_0000 then St.FromCode(St.FormatError)
    else St.FromCode(St.OK)
  }

  /** The product wraps: a 65536 x 65536 layer without any tile data passes
      the length check. */
  lemma WrappedDimensionsAccepted()
    ensures TileLayerStatusAsWritten("base64", "", Some([]), 65536, 65536).IsOk()
    ensures 65536 * 65536 != 0
  {
  }

  /** The check with the product taken exactly. */
  function TileLayerStatus(encoding: string, compression: string, data: Option<seq<TileId>>,
                           width: U32, height: U32): (s: St.Status)
    ensures s.IsOk() || s.code == St.FormatError
    ensures s.IsOk() <==> encoding == "base64" && compression == "" && data.Some?
                          && |data.value| == width * height
  {
    if encoding != "base64" || compression != "" then St.FromCode(St.FormatError)
    else if data.None? then St.FromCode(St.FormatError)
    else if |data.value| != width * height then St.FromCode(St.FormatError)
    else St.FromCode(St.OK)
  }

  /** An accepted layer has exactly one tile per grid cell, and a layer with
      tiles has a positive width; the two checks agree whenever the product
      fits in 32 bits. */
  lemma TileLayerStatusMeaning(encoding: string, compression: string, data: Option<seq<TileId>>,
                               width: U32, height: U32)
    ensures TileLayerStatus(encoding, compression, data, width, height).IsOk() ==>
              (|data.value| > 0 ==>
                 && width > 0
                 && forall i | 0 <= i < |data.value| :: i / width < height)
    ensures width * height < 0x1_0000_0000 ==>
              TileLayerStatus(encoding, compression, data, width, height)
              == TileLayerStatusAsWritten(encoding, compression, data, width, height)
  {
    if TileLayerStatus(encoding, compression, data, width, height).IsOk() && |data.value| > 0 {
      forall i | 0 <= i < |data.value| ensures i / width < height {
        GridBound(i, width, height);
      }
    }
  }
}
