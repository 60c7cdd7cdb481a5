/** The `TmjLoader` of the Tiled map loader (code/anker/game/anker_map.cpp):
    reading the map document and its tilesets, walking the layer tree with
    the colour and parallax stacks, and building tile layers. The JSON
    documents are given by the values the `JsonReader::field` calls of the
    loader obtain (`None` where the field is absent or of another type). */
module MapLoader {
  import St = Status
  import opened Wrappers
  import opened Math
  import opened Ascii
  import FileUtils
  import opened MapTiles

  type Path = string

  /** A failing status. */
  type Failure = s: St.Status | !s.IsOk() witness St.Status(St.ReadError)

  /** A file read through the asset data loader and parsed: the document,
      or the failing status of the read or of the parse. A path no data
      source holds is not in the file map (the loader reports
      `ReadError`). */
  datatype FileData<T> = Readable(doc: T) | Unreadable(failure: Failure)

  /** An entry of the map's "tilesets" array. */
  datatype TilesetRef = TilesetRef(source: Option<string>, firstgid: Option<U32>)

  /** The fields of a .tsj tileset document. */
  datatype TsjDoc = TsjDoc(image: Option<string>, tilecount: Option<U32>, columns: Option<U32>,
                           tilewidth: Option<U32>, tileheight: Option<U32>)

  /** The fields of a tile layer; `data` is the base64-decoded field read as
      32-bit tile numbers. */
  datatype TileData = TileData(encoding: Option<string>, compression: Option<string>,
                               data: Option<seq<TileId>>, width: Option<U32>, height: Option<U32>)

  /** An entry of a "layers" array: the common fields, the tile-layer fields
      and the nested layers of a group. */
  datatype LayerDesc = LayerDesc(kind: Option<string>, name: Option<string>,
                                 x: Option<real>, y: Option<real>,
                                 tintcolor: Option<seq<Byte>>, opacity: Option<real>,
                                 parallaxx: Option<real>, parallaxy: Option<real>,
                                 tiles: TileData, layers: seq<LayerDesc>)

  /** The fields of a .tmj map document. */
  datatype TmjDoc = TmjDoc(kind: Option<string>, tilewidth: Option<real>, tileheight: Option<real>,
                           tilesets: seq<TilesetRef>, layers: seq<LayerDesc>)

  /** A scene node the loader creates: its name, the index of its parent
      node and its local offset. */
  datatype SceneEntry = SceneEntry(name: string, parent: Option<nat>, offset: Vec2)

  /** A vertex buffer of a tile layer paired with its tileset's texture. */
  datatype Part = Part(texture: string, vertices: seq<TileVertex>)

  /** The `TileLayer` component of a tile layer entity. */
  datatype TileLayer = TileLayer(name: string, color: Vec4, parallax: Vec2, parts: seq<Part>)

  // ---------------------------------------------------------------------
  // Paths

  /** `fs::path::replace_filename`: everything after the last '/' is
      replaced. */
  function ReplaceFilename(path: Path, name: string): (r: Path)
    ensures FileUtils.LastIndexOf(path, '/').None? ==> r == name
    ensures FileUtils.LastIndexOf(path, '/').Some? ==>
              var k := FileUtils.LastIndexOf(path, '/').value;
              r == path[..k + 1] + name
  {
    match FileUtils.LastIndexOf(path, '/')
    case Some(k) => path[..k + 1] + name
    case None => name
  }

  /** The texture identifier of a tileset image: the image path next to the
      tileset file, without extension, with forward slashes. */
  function TextureIdentifier(tsjPath: Path, image: string): string {
    FileUtils.WithForwardSlashes(FileUtils.StripPathExtension(ReplaceFilename(tsjPath, image)))
  }

  // ---------------------------------------------------------------------
  // Colour and parallax

  const OneColor := Vec4(1.0, 1.0, 1.0, 1.0)
  const OneParallax := Vec2(1.0, 1.0)

  /** `std::multiplies` on vectors: componentwise. */
  function MulColor(a: Vec4, b: Vec4): Vec4 { Vec4(a.x * b.x, a.y * b.y, a.z * b.z, a.w * b.w) }
  function MulParallax(a: Vec2, b: Vec2): Vec2 { Vec2(a.x * b.x, a.y * b.y) }

  /** `std::accumulate` with `std::multiplies`: a left fold from `acc`. */
  function FoldColor(acc: Vec4, s: seq<Vec4>): Vec4
    decreases s
  {
    if |s| == 0 then acc else FoldColor(MulColor(acc, s[0]), s[1..])
  }

  function FoldParallax(acc: Vec2, s: seq<Vec2>): Vec2
    decreases s
  {
    if |s| == 0 then acc else FoldParallax(MulParallax(acc, s[0]), s[1..])
  }

  /** `calcColor()`: the fold of the colour stack from `Vec4(1)`. */
  function ColorProduct(stack: seq<Vec4>): Vec4 {
    FoldColor(OneColor, stack)
  }

  /** `calcParallax()`: the fold of the parallax stack from `Vec2(1)`. */
  function ParallaxProduct(stack: seq<Vec2>): Vec2 {
    FoldParallax(OneParallax, stack)
  }

  /** Folding a concatenation folds the second part from the result of the
      first. */
  lemma {:induction false} FoldColorSplit(acc: Vec4, a: seq<Vec4>, b: seq<Vec4>)
    ensures FoldColor(acc, a + b) == FoldColor(FoldColor(acc, a), b)
    decreases a
  {
    if |a| > 0 {
      assert (a + b)[0] == a[0];
      assert (a + b)[1..] == a[1..] + b;
      FoldColorSplit(MulColor(acc, a[0]), a[1..], b);
    } else {
      assert a + b == b;
    }
  }

  lemma {:induction false} FoldParallaxSplit(acc: Vec2, a: seq<Vec2>, b: seq<Vec2>)
    ensures FoldParallax(acc, a + b) == FoldParallax(FoldParallax(acc, a), b)
    decreases a
  {
    if |a| > 0 {
      assert (a + b)[0] == a[0];
      assert (a + b)[1..] == a[1..] + b;
      FoldParallaxSplit(MulParallax(acc, a[0]), a[1..], b);
    } else {
      assert a + b == b;
    }
  }

  /** Pushing a value onto a stack multiplies its product by that value, so
      a layer's colour and parallax are the products of its ancestors' and
      its own; the empty stack's product is the unit. */
  lemma ColorProductPush(stack: seq<Vec4>, c: Vec4)
    ensures ColorProduct(stack + [c]) == MulColor(ColorProduct(stack), c)
    ensures ColorProduct([]) == OneColor
  {
    FoldColorSplit(OneColor, stack, [c]);
    assert [c][1..] == [];
  }

  lemma ParallaxProductPush(stack: seq<Vec2>, p: Vec2)
    ensures ParallaxProduct(stack + [p]) == MulParallax(ParallaxProduct(stack), p)
    ensures ParallaxProduct([]) == OneParallax
  {
    FoldParallaxSplit(OneParallax, stack, [p]);
    assert [p][1..] == [];
  }

  /** The colour a layer pushes: white, or the parsed "tintcolor" (a colour
      that does not parse leaves white), with "opacity" as alpha. The tint
      is read with hexadecimal digit values, the evident intent of
      `colorFromHtml`; `LayerColorAsWritten` reads it as the code does. */
  function LayerColor(l: LayerDesc): (c: Vec4)
    ensures c.w == l.opacity.GetOr(1.0)
    ensures l.tintcolor.None? ==> c == Vec4(1.0, 1.0, 1.0, l.opacity.GetOr(1.0))
  {
    var tint := match l.tintcolor
                case Some(t) => HtmlColorHex(t).GetOr(OneColor)
                case None => OneColor;
    match l.opacity
    case Some(a) => tint.(w := a)
    case None => tint
  }

  /** The colour a layer pushes with `colorFromHtml` as written, whose
      digit values are `c - '0'`. */
  function LayerColorAsWritten(l: LayerDesc): (c: Vec4)
    ensures c.w == l.opacity.GetOr(1.0)
    ensures l.tintcolor.None? ==> c == Vec4(1.0, 1.0, 1.0, l.opacity.GetOr(1.0))
  {
    var tint := match l.tintcolor
                case Some(t) => HtmlColor(t).GetOr(OneColor)
                case None => OneColor;
    match l.opacity
    case Some(a) => tint.(w := a)
    case None => tint
  }

  /** The hexadecimal layer colour and the one as written agree on an
      absent tint and on a tint of six decimal digits. */
  lemma LayerColorAgreement(l: LayerDesc)
    ensures (l.tintcolor.None?
             || (|StripHash(l.tintcolor.value)| == 6
                 && forall i | 0 <= i < 6 :: '0' <= StripHash(l.tintcolor.value)[i] <= '9'))
            ==> LayerColor(l) == LayerColorAsWritten(l)
  {
    if l.tintcolor.Some? {
      HexChannelsInUnitRange(l.tintcolor.value);
    }
  }

  /** They part on a letter digit: "#ff0000" is red 1 in the one and
      918/255 in the other. */
  lemma LayerColorsPartOnLetters(l: LayerDesc)
    requires l.tintcolor == Some("#ff0000")
    ensures LayerColor(l).x == 1.0 && LayerColorAsWritten(l).x == 918.0 / 255.0
  {
    assert StripHash("#ff0000") == "ff0000";
    var d := Lowered("ff0000");
    assert d[0] == 'f' && d[1] == 'f' && forall i | 2 <= i < 6 :: d[i] == '0';
  }

  /** The parallax a layer pushes: "parallaxx"/"parallaxy", 1 where
      absent. */
  function LayerParallax(l: LayerDesc): Vec2 {
    Vec2(l.parallaxx.GetOr(1.0), l.parallaxy.GetOr(1.0))
  }

  /** The scene node name of a layer: "name", or "Map Layer" when it is
      absent or empty. */
  function LayerName(l: LayerDesc): (name: string)
    ensures name != ""
    ensures l.name.Some? && l.name.value != "" ==> name == l.name.value
  {
    match l.name
    case Some(n) => if n == "" then "Map Layer" else n
    case None => "Map Layer"
  }

  /** `convertCoordinates`: pixels to metres, with the y axis flipped. */
  function ConvertCoordinates(v: Vec2, tileSize: real): (r: Vec2)
    requires tileSize != 0.0
    ensures r.x * tileSize == v.x && r.y * tileSize == -v.y
  {
    Vec2(v.x / tileSize, -(v.y / tileSize))
  }

  // ---------------------------------------------------------------------
  // Tilesets

  /** Every tileset document that has "columns" has a non-zero column count
      (`loadTileset` divides by it). */
  predicate ColumnsNonZero(files: map<Path, FileData<TsjDoc>>) {
    forall p | p in files && files[p].Readable? && files[p].doc.columns.Some? :: files[p].doc.columns.value > 0
  }

  /** One iteration of the `forEach("tilesets")` of `loadTilesets` together
      with `loadTileset`: the tileset read for the entry, or the status that
      stopped it. */
  function TilesetResult(r: TilesetRef, files: map<Path, FileData<TsjDoc>>, identifier: Path)
    : (res: (St.Status, Option<Tileset>))
    requires ColumnsNonZero(files)
    ensures res.0.IsOk() <==> res.1.Some?
    ensures res.1.Some? ==> r.source.Some? && r.firstgid.Some? && res.1.value.firstTileId == r.firstgid.value
    ensures r.source.None? || r.firstgid.None? ==> res.0.code == St.FormatError
    ensures r.source.Some? && r.firstgid.Some? && ReplaceFilename(identifier, r.source.value) !in files
            ==> res.0.code == St.ReadError
  {
    if r.source.None? || r.firstgid.None? then (St.FromCode(St.FormatError), None)
    else
      var path := ReplaceFilename(identifier, r.source.value);
      if path !in files then (St.FromCode(St.ReadError), None)
      else match files[path]
        case Unreadable(s) => (s, None)
        case Readable(doc) =>
          if doc.image.None? || doc.tilecount.None? || doc.columns.None?
             || doc.tilewidth.None? || doc.tileheight.None?
          then (St.FromCode(St.FormatError), None)
          else
            var columns := doc.columns.value;
            (St.FromCode(St.OK),
             Some(Tileset(r.firstgid.value, columns, TilesetRows(doc.tilecount.value, columns),
                          doc.tilewidth.value, doc.tileheight.value,
                          TextureIdentifier(path, doc.image.value))))
  }

  /** The outcome of every entry, each read as if it were the only one. */
  function Outcomes(refs: seq<TilesetRef>, files: map<Path, FileData<TsjDoc>>, identifier: Path)
    : (os: seq<(St.Status, Option<Tileset>)>)
    requires ColumnsNonZero(files)
    ensures |os| == |refs|
    ensures forall i | 0 <= i < |refs| :: os[i] == TilesetResult(refs[i], files, identifier)
  {
    if |refs| == 0 then []
    else
      var pre := Outcomes(refs[..|refs| - 1], files, identifier);
      pre + [TilesetResult(refs[|refs| - 1], files, identifier)]
  }

  /** The loop of `loadTilesets` over a sequence of entry outcomes: once an
      entry fails, the remaining ones are skipped; the status is that of the
      last entry read. */
  function Collect(os: seq<(St.Status, Option<Tileset>)>): (St.Status, seq<Tileset>) {
    if |os| == 0 then (St.DefaultStatus(), [])
    else
      var r := Collect(os[..|os| - 1]);
      if !r.0.IsOk() then r
      else
        var t := os[|os| - 1];
        (t.0, r.1 + (if t.1.Some? then [t.1.value] else []))
  }

  /** Reading one more entry extends the loop by one iteration. */
  lemma CollectStep(os: seq<(St.Status, Option<Tileset>)>, i: nat)
    requires i < |os|
    ensures var r := Collect(os[..i]);
            Collect(os[..i + 1])
              == if !r.0.IsOk() then r else (os[i].0, r.1 + (if os[i].1.Some? then [os[i].1.value] else []))
  {
    assert os[..i + 1][..i] == os[..i];
  }

  function TilesetsResult(refs: seq<TilesetRef>, files: map<Path, FileData<TsjDoc>>, identifier: Path)
    : (St.Status, seq<Tileset>)
    requires ColumnsNonZero(files)
  {
    Collect(Outcomes(refs, files, identifier))
  }

  /** Every outcome carries a tileset exactly when it succeeds. */
  predicate WellFormedOutcomes(os: seq<(St.Status, Option<Tileset>)>) {
    forall i | 0 <= i < |os| :: os[i].0.IsOk() <==> os[i].1.Some?
  }

  /** The loop succeeds iff every entry does, and then it holds one tileset
      per entry, in order. */
  lemma {:induction false} CollectOk(os: seq<(St.Status, Option<Tileset>)>)
    requires WellFormedOutcomes(os)
    ensures Collect(os).0.IsOk() <==> forall i | 0 <= i < |os| :: os[i].0.IsOk()
    ensures Collect(os).0.IsOk() ==>
              && |Collect(os).1| == |os|
              && forall i | 0 <= i < |os| :: os[i].1 == Some(Collect(os).1[i])
  {
    if |os| > 0 {
      var pre, last := os[..|os| - 1], os[|os| - 1];
      assert WellFormedOutcomes(pre) by {
        assert forall i | 0 <= i < |pre| :: pre[i] == os[i];
      }
      CollectOk(pre);
      var r := Collect(pre);
      if !r.0.IsOk() {
        var i :| 0 <= i < |pre| && !pre[i].0.IsOk();
        assert !os[i].0.IsOk();
      } else if last.0.IsOk() {
        var loaded := r.1 + [last.1.value];
        forall i | 0 <= i < |os| ensures os[i].1 == Some(loaded[i]) {
          if i < |pre| {
            assert os[i] == pre[i];
          }
        }
      }
    }
  }

  /** A failing loop reports the status of its first failing entry. */
  lemma {:induction false} CollectFailure(os: seq<(St.Status, Option<Tileset>)>)
    requires WellFormedOutcomes(os)
    ensures !Collect(os).0.IsOk() ==>
              exists i | 0 <= i < |os| :: Collect(os).0 == os[i].0
                && forall j | 0 <= j < i :: os[j].0.IsOk()
  {
    if |os| > 0 {
      var pre := os[..|os| - 1];
      assert WellFormedOutcomes(pre) by {
        assert forall i | 0 <= i < |pre| :: pre[i] == os[i];
      }
      CollectFailure(pre);
      CollectOk(pre);
      var r := Collect(pre);
      if !r.0.IsOk() {
        var i :| 0 <= i < |pre| && r.0 == pre[i].0 && forall j | 0 <= j < i :: pre[j].0.IsOk();
        assert os[i] == pre[i];
        assert forall j | 0 <= j < i :: os[j] == pre[j];
      } else {
        assert forall j | 0 <= j < |pre| :: os[j] == pre[j];
      }
    }
  }

  /** The tileset loop succeeds iff every entry does; then it reads one
      tileset per entry, in order, each with its entry's first id;
      otherwise its status is that of the first failing entry. */
  lemma TilesetsResultMeaning(refs: seq<TilesetRef>, files: map<Path, FileData<TsjDoc>>, identifier: Path)
    requires ColumnsNonZero(files)
    ensures var res := TilesetsResult(refs, files, identifier);
            res.0.IsOk() <==> forall i | 0 <= i < |refs| :: TilesetResult(refs[i], files, identifier).0.IsOk()
    ensures var res := TilesetsResult(refs, files, identifier);
            res.0.IsOk() ==>
              && |res.1| == |refs|
              && forall i | 0 <= i < |refs| ::
                   && TilesetResult(refs[i], files, identifier).1 == Some(res.1[i])
                   && res.1[i].firstTileId == refs[i].firstgid.value
    ensures var res := TilesetsResult(refs, files, identifier);
            !res.0.IsOk() ==>
              exists i | 0 <= i < |refs| :: res.0 == TilesetResult(refs[i], files, identifier).0
                && forall j | 0 <= j < i :: TilesetResult(refs[j], files, identifier).0.IsOk()
  {
    var os := Outcomes(refs, files, identifier);
    CollectOk(os);
    CollectFailure(os);
  }

  // ---------------------------------------------------------------------
  // Layers

  /** Every tile of every tile layer in the tree resolves against the
      tilesets (the source indexes `m_tilesets` with the lookup result). */
  predicate TreeResolves(layers: seq<LayerDesc>, tilesets: seq<Tileset>)
    decreases layers
  {
    forall i | 0 <= i < |layers| :: LayerResolves(layers[i], tilesets)
  }

  predicate LayerResolves(l: LayerDesc, tilesets: seq<Tileset>)
    decreases l
  {
    && (l.tiles.data.Some? ==> AllResolve(tilesets, l.tiles.data.value))
    && TreeResolves(l.layers, tilesets)
  }

  /** The parts of a tile layer built from the buckets of the first `n`
      tilesets: one per non-empty bucket, in tileset order. */
  function TileLayerParts(tilesets: seq<Tileset>, tiles: seq<TileId>, width: nat, n: nat): seq<Part>
    requires n <= |tilesets| && (width > 0 || |tiles| == 0) && AllResolve(tilesets, tiles)
  {
    if n == 0 then []
    else
      var v := Bucket(tilesets, tiles, width, n - 1);
      TileLayerParts(tilesets, tiles, width, n - 1)
        + (if |v| == 0 then [] else [Part(tilesets[n - 1].texture, v)])
  }

  lemma {:induction false} TileLayerPartsGrow(tilesets: seq<Tileset>, tiles: seq<TileId>, width: nat, m: nat, n: nat)
    requires m <= n <= |tilesets| && (width > 0 || |tiles| == 0) && AllResolve(tilesets, tiles)
    ensures |TileLayerParts(tilesets, tiles, width, m)| <= |TileLayerParts(tilesets, tiles, width, n)|
  {
    if m < n {
      TileLayerPartsGrow(tilesets, tiles, width, m, n - 1);
      var v := Bucket(tilesets, tiles, width, n - 1);
      assert TileLayerParts(tilesets, tiles, width, n)
          == TileLayerParts(tilesets, tiles, width, n - 1)
             + (if |v| == 0 then [] else [Part(tilesets[n - 1].texture, v)]);
    }
  }

  /** Each part pairs a non-empty bucket with its tileset's texture. */
  lemma {:induction false} TileLayerPartsMeaning(tilesets: seq<Tileset>, tiles: seq<TileId>, width: nat, n: nat)
    requires n <= |tilesets| && (width > 0 || |tiles| == 0) && AllResolve(tilesets, tiles)
    ensures forall p | p in TileLayerParts(tilesets, tiles, width, n) ::
              |p.vertices| > 0
              && exists b | 0 <= b < n :: p == Part(tilesets[b].texture, Bucket(tilesets, tiles, width, b))
    ensures |TileLayerParts(tilesets, tiles, width, n)| <= n
  {
    if n > 0 {
      TileLayerPartsMeaning(tilesets, tiles, width, n - 1);
      var prev := TileLayerParts(tilesets, tiles, width, n - 1);
      var v := Bucket(tilesets, tiles, width, n - 1);
      var last: seq<Part> := if |v| == 0 then [] else [Part(tilesets[n - 1].texture, v)];
      assert TileLayerParts(tilesets, tiles, width, n) == prev + last;
      forall p: Part | p in prev + last
        ensures |p.vertices| > 0
        ensures exists b | 0 <= b < n :: p == Part(tilesets[b].texture, Bucket(tilesets, tiles, width, b))
      {
        if p !in prev {
          assert p == Part(tilesets[n - 1].texture, v);
        }
      }
    }
  }

  /** `loadTileLayer`, with `color` and `parallax` the products of the
      stacks and `device` the outcome of every `createBuffer` call. The
      word count is checked against the exact `width * height`; the code's
      32-bit product agrees with it below 2^32. */
  function TileLayerResult(t: TileData, name: string, color: Vec4, parallax: Vec2,
                           tilesets: seq<Tileset>, device: St.Status): (res: (St.Status, seq<TileLayer>))
    requires t.data.Some? ==> AllResolve(tilesets, t.data.value)
    ensures |res.1| <= 1
    ensures !TileLayerStatus(t.encoding.GetOr(""), t.compression.GetOr(""), t.data,
                             t.width.GetOr(0), t.height.GetOr(0)).IsOk()
            ==> res.0.code == St.FormatError && res.1 == []
  {
    var width := t.width.GetOr(0);
    var height := t.height.GetOr(0);
    var s := TileLayerStatus(t.encoding.GetOr(""), t.compression.GetOr(""), t.data, width, height);
    if !s.IsOk() then (s, [])
    else
      TileLayerStatusMeaning(t.encoding.GetOr(""), t.compression.GetOr(""), t.data, width, height);
      var parts := TileLayerParts(tilesets, t.data.value, width, |tilesets|);
      if device.IsOk() || |parts| == 0 then (St.DefaultStatus(), [TileLayer(name, color, parallax, parts)])
      else (device, [TileLayer(name, color, parallax, [])])
  }

  /** One iteration of the `forEach("layers")` of `loadLayers`: the status
      of the layer and the tile layers it creates, given the colour and
      parallax stacks of its parent. */
  function LayerResult(l: LayerDesc, colors: seq<Vec4>, parallaxes: seq<Vec2>,
                       tilesets: seq<Tileset>, device: St.Status): (St.Status, seq<TileLayer>)
    requires LayerResolves(l, tilesets)
    decreases l
  {
    if l.kind.None? then (St.FromCode(St.FormatError), [])
    else
      var cs := colors + [LayerColor(l)];
      var ps := parallaxes + [LayerParallax(l)];
      var kind := l.kind.value;
      if kind == "tilelayer" then
        TileLayerResult(l.tiles, l.name.GetOr(""), ColorProduct(cs), ParallaxProduct(ps), tilesets, device)
      else if kind == "objectgroup" then (St.DefaultStatus(), [])
      else if kind == "group" then LayersResult(l.layers, cs, ps, tilesets, device)
      else (St.FromCode(St.FormatError), [])
  }

  /** `loadLayers` over the first layers of an array: a failing layer stops
      the walk, and the status is that of the last layer walked. */
  function LayersResult(layers: seq<LayerDesc>, colors: seq<Vec4>, parallaxes: seq<Vec2>,
                        tilesets: seq<Tileset>, device: St.Status): (St.Status, seq<TileLayer>)
    requires TreeResolves(layers, tilesets)
    decreases layers
  {
    if |layers| == 0 then (St.DefaultStatus(), [])
    else
      var pre := layers[..|layers| - 1];
      assert TreeResolves(pre, tilesets) by {
        assert forall i | 0 <= i < |pre| :: pre[i] == layers[i];
      }
      var r := LayersResult(pre, colors, parallaxes, tilesets, device);
      if !r.0.IsOk() then r
      else
        var x := LayerResult(layers[|layers| - 1], colors, parallaxes, tilesets, device);
        (x.0, r.1 + x.1)
  }

  /** Walking two arrays of layers one after the other: the second is
      walked only when the first succeeds, and the tile layers of both are
      created in order. */
  lemma {:induction false} LayersResultAppend(a: seq<LayerDesc>, b: seq<LayerDesc>, colors: seq<Vec4>,
                                              parallaxes: seq<Vec2>, tilesets: seq<Tileset>, device: St.Status)
    requires TreeResolves(a, tilesets) && TreeResolves(b, tilesets)
    ensures TreeResolves(a + b, tilesets)
    ensures var ra := LayersResult(a, colors, parallaxes, tilesets, device);
            var rb := LayersResult(b, colors, parallaxes, tilesets, device);
            LayersResult(a + b, colors, parallaxes, tilesets, device)
              == if !ra.0.IsOk() then ra else (rb.0, ra.1 + rb.1)
  {
    assert TreeResolves(a + b, tilesets) by {
      forall i | 0 <= i < |a + b| ensures LayerResolves((a + b)[i], tilesets) {
        if i < |a| {
          assert (a + b)[i] == a[i];
        } else {
          assert (a + b)[i] == b[i - |a|];
        }
      }
    }
    if |b| == 0 {
      assert a + b == a;
      var ra := LayersResult(a, colors, parallaxes, tilesets, device);
      assert ra.1 + [] == ra.1;
      if ra.0.IsOk() {
        assert ra.0 == St.DefaultStatus();
      }
    } else {
      var b' := b[..|b| - 1];
      assert TreeResolves(b', tilesets) by {
        assert forall i | 0 <= i < |b'| :: b'[i] == b[i];
      }
      LayersResultAppend(a, b', colors, parallaxes, tilesets, device);
      assert (a + b)[..|a + b| - 1] == a + b';
      assert (a + b)[|a + b| - 1] == b[|b| - 1];
      var ra := LayersResult(a, colors, parallaxes, tilesets, device);
      var rb' := LayersResult(b', colors, parallaxes, tilesets, device);
      if ra.0.IsOk() && rb'.0.IsOk() {
        var x := LayerResult(b[|b| - 1], colors, parallaxes, tilesets, device);
        assert LayersResult(b, colors, parallaxes, tilesets, device) == (x.0, rb'.1 + x.1);
        assert LayersResult(a + b, colors, parallaxes, tilesets, device) == (x.0, (ra.1 + rb'.1) + x.1);
        assert (ra.1 + rb'.1) + x.1 == ra.1 + (rb'.1 + x.1);
      }
    }
  }

  /** A layer without a "type", or with an unknown one, is a format error
      and creates no tile layer; an object layer succeeds without one; a
      group walks its children with its own colour and parallax pushed. */
  lemma LayerResultCases(l: LayerDesc, colors: seq<Vec4>, parallaxes: seq<Vec2>,
                         tilesets: seq<Tileset>, device: St.Status)
    requires LayerResolves(l, tilesets)
    ensures l.kind.None? || l.kind.value !in {"tilelayer", "objectgroup", "group"} ==>
              LayerResult(l, colors, parallaxes, tilesets, device) == (St.FromCode(St.FormatError), [])
    ensures l.kind == Some("objectgroup") ==>
              LayerResult(l, colors, parallaxes, tilesets, device) == (St.FromCode(St.OK), [])
    ensures l.kind == Some("group") ==>
              LayerResult(l, colors, parallaxes, tilesets, device)
              == LayersResult(l.layers, colors + [LayerColor(l)], parallaxes + [LayerParallax(l)], tilesets, device)
  {
  }

  /** A tile layer gets the product of its ancestors' colours times its own,
      and likewise for the parallax. */
  lemma TileLayerInheritsStacks(l: LayerDesc, colors: seq<Vec4>, parallaxes: seq<Vec2>,
                                tilesets: seq<Tileset>, device: St.Status)
    requires LayerResolves(l, tilesets) && l.kind == Some("tilelayer")
    ensures forall tl | tl in LayerResult(l, colors, parallaxes, tilesets, device).1 ::
              && tl.color == MulColor(ColorProduct(colors), LayerColor(l))
              && tl.parallax == MulParallax(ParallaxProduct(parallaxes), LayerParallax(l))
              && tl.name == l.name.GetOr("")
  {
    ColorProductPush(colors, LayerColor(l));
    ParallaxProductPush(parallaxes, LayerParallax(l));
  }

  // ---------------------------------------------------------------------
  // The map

  /** The outcome of `load(identifier)` on a fresh loader: the status, the
      sorted tilesets and the tile layers, with `loadTilesets` returning its
      loop's status (the corrected `LoadTilesets`). */
  function MapResult(identifier: Path, maps: map<Path, FileData<TmjDoc>>, files: map<Path, FileData<TsjDoc>>,
                     device: St.Status): (St.Status, seq<Tileset>, seq<TileLayer>)
    requires MapPreconditions(identifier, maps, files)
  {
    var path := identifier + ".tmj";
    if path !in maps then (St.FromCode(St.ReadError), [], [])
    else match maps[path]
      case Unreadable(s) => (s, [], [])
      case Readable(doc) =>
        if doc.kind != Some("map") then (St.FromCode(St.FormatError), [], [])
        else if doc.tilewidth.GetOr(256.0) != doc.tileheight.GetOr(256.0) then (St.FromCode(St.FormatError), [], [])
        else
          var ts := TilesetsResult(doc.tilesets, files, identifier);
          var sorted := SortTilesets(ts.1);
          if !ts.0.IsOk() then (ts.0, sorted, [])
          else
            var ls := LayersResult(doc.layers, [], [], sorted, device);
            (ls.0, sorted, ls.1)
  }

  /** `load(identifier)` with `loadTilesets` as written: a failing tileset
      entry does not stop the load, which goes on to the layers with the
      tilesets read before the failure. The layers are walked by
      `LayersResult`, with the corrected tint and word-count checks. */
  function MapResultAsWritten(identifier: Path, maps: map<Path, FileData<TmjDoc>>,
                              files: map<Path, FileData<TsjDoc>>, device: St.Status)
    : (St.Status, seq<Tileset>, seq<TileLayer>)
    requires MapPreconditions(identifier, maps, files)
  {
    var path := identifier + ".tmj";
    if path !in maps then (St.FromCode(St.ReadError), [], [])
    else match maps[path]
      case Unreadable(s) => (s, [], [])
      case Readable(doc) =>
        if doc.kind != Some("map") then (St.FromCode(St.FormatError), [], [])
        else if doc.tilewidth.GetOr(256.0) != doc.tileheight.GetOr(256.0) then (St.FromCode(St.FormatError), [], [])
        else
          var sorted := SortTilesets(TilesetsResult(doc.tilesets, files, identifier).1);
          var ls := LayersResult(doc.layers, [], [], sorted, device);
          (ls.0, sorted, ls.1)
  }

  /** The load as written and the corrected one read the same tilesets, and
      agree on every map that loads, or that fails before or after the
      tilesets; they differ only on a failing tileset entry, where the
      corrected load stops. */
  lemma MapResultsAgree(identifier: Path, maps: map<Path, FileData<TmjDoc>>,
                        files: map<Path, FileData<TsjDoc>>, device: St.Status)
    requires MapPreconditions(identifier, maps, files)
    ensures MapResultAsWritten(identifier, maps, files, device).1 == MapResult(identifier, maps, files, device).1
    ensures MapResult(identifier, maps, files, device).0.IsOk()
            ==> MapResultAsWritten(identifier, maps, files, device) == MapResult(identifier, maps, files, device)
    ensures var path := identifier + ".tmj";
            (path in maps && maps[path].Readable?
             && TilesetsResult(maps[path].doc.tilesets, files, identifier).0.IsOk())
            ==> MapResultAsWritten(identifier, maps, files, device) == MapResult(identifier, maps, files, device)
  {
  }

  /** A map whose only tileset entry has no "firstgid" and which has no
      layers: as written it loads `Ok` with no tileset, while the corrected
      load reports the entry's `FormatError`. */
  lemma AsWrittenLoadIgnoresTilesetFailure()
    ensures var maps := map["maps/level.tmj" := Readable(TmjDoc(Some("map"), None, None,
                                                                [TilesetRef(Some("tiles.tsj"), None)], []))];
            && MapPreconditions("maps/level", maps, map[])
            && MapResultAsWritten("maps/level", maps, map[], St.DefaultStatus()) == (St.DefaultStatus(), [], [])
            && MapResult("maps/level", maps, map[], St.DefaultStatus()).0.code == St.FormatError
  {
    var maps := map["maps/level.tmj" := Readable(TmjDoc(Some("map"), None, None,
                                                        [TilesetRef(Some("tiles.tsj"), None)], []))];
    assert "maps/level" + ".tmj" == "maps/level.tmj";
    MissingFirstGidFails();
    var ts := TilesetsResult([TilesetRef(Some("tiles.tsj"), None)], map[], "maps/level");
    TilesetsResultMeaning([TilesetRef(Some("tiles.tsj"), None)], map[], "maps/level");
    assert |ts.1| == 0;
  }

  /** What the readable map document must satisfy for `load` to be
      defined: a non-zero tile size, tilesets with distinct first ids (the
      sort comparator is `>=`) and non-zero column counts, and tiles that
      resolve against the sorted tilesets. */
  predicate MapPreconditions(identifier: Path, maps: map<Path, FileData<TmjDoc>>, files: map<Path, FileData<TsjDoc>>) {
    && ColumnsNonZero(files)
    && var path := identifier + ".tmj";
       path in maps && maps[path].Readable? ==>
         var doc := maps[path].doc;
         var ts := TilesetsResult(doc.tilesets, files, identifier).1;
         && doc.tilewidth != Some(0.0)
         && DistinctFirstIds(ts)
         && TreeResolves(doc.layers, SortTilesets(ts))
  }

  /** A map that loads has one tileset per "tilesets" entry, sorted by
      descending first id, with every entry's first id among them. */
  lemma LoadedMapTilesets(identifier: Path, maps: map<Path, FileData<TmjDoc>>, files: map<Path, FileData<TsjDoc>>,
                          device: St.Status)
    requires MapPreconditions(identifier, maps, files)
    requires MapResult(identifier, maps, files, device).0.IsOk()
    ensures var path := identifier + ".tmj";
            path in maps && maps[path].Readable? && maps[path].doc.kind == Some("map")
    ensures var doc := maps[identifier + ".tmj"].doc;
            var ts := MapResult(identifier, maps, files, device).1;
            && StrictlyDescending(ts)
            && |ts| == |doc.tilesets|
            && forall i | 0 <= i < |doc.tilesets| ::
                 doc.tilesets[i].firstgid.Some?
                 && exists j | 0 <= j < |ts| :: ts[j].firstTileId == doc.tilesets[i].firstgid.value
  {
    var doc := maps[identifier + ".tmj"].doc;
    var res := TilesetsResult(doc.tilesets, files, identifier);
    TilesetsResultMeaning(doc.tilesets, files, identifier);
    SortTilesetsCorrect(res.1);
    var ts := SortTilesets(res.1);
    assert |ts| == |multiset(ts)| == |multiset(res.1)| == |res.1|;
    forall i | 0 <= i < |doc.tilesets|
      ensures doc.tilesets[i].firstgid.Some?
      ensures exists j | 0 <= j < |ts| :: ts[j].firstTileId == doc.tilesets[i].firstgid.value
    {
      assert TilesetResult(doc.tilesets[i], files, identifier).1 == Some(res.1[i]);
      assert res.1[i] in multiset(ts);
    }
  }

  /** The loop status of `loadTilesets` reports a tileset entry without
      "firstgid" as a format error. */
  lemma MissingFirstGidFails()
    ensures TilesetsResult([TilesetRef(Some("tiles.tsj"), None)], map[], "maps/level").0.code == St.FormatError
  {
    var os := Outcomes([TilesetRef(Some("tiles.tsj"), None)], map[], "maps/level");
    assert os[..0] == [];
  }

  // ---------------------------------------------------------------------
  // The loader

  class TmjLoader {
    var identifier: Path
    var tilesets: seq<Tileset>
    var tileSize: real
    var colorStack: seq<Vec4>
    var parallaxStack: seq<Vec2>
    /** The scene nodes created so far; node 0 is the "Map" node. */
    var nodes: seq<SceneEntry>
    /** `m_layerSceneNode`. */
    var layerNode: nat
    var tileLayers: seq<TileLayer>

    /** Every node's parent was created before it, and the current layer
        node exists. */
    ghost predicate Valid()
      reads this
    {
      && layerNode < |nodes|
      && (forall i | 0 <= i < |nodes| :: nodes[i].parent.Some? ==> nodes[i].parent.value < i)
      && tileSize != 0.0
    }

    /** The state of a loader that has not loaded a map yet. */
    ghost predicate Fresh()
      reads this
    {
      tilesets == [] && colorStack == [] && parallaxStack == [] && tileLayers == []
    }

    /** The constructor creates the "Map" node and makes it the layer
        node. */
    constructor ()
      ensures Valid() && Fresh()
      ensures nodes == [SceneEntry("Map", None, Vec2(0.0, 0.0))] && layerNode == 0 && tileSize == 256.0
    {
      identifier := "";
      tilesets := [];
      tileSize := 256.0;
      colorStack := [];
      parallaxStack := [];
      nodes := [SceneEntry("Map", None, Vec2(0.0, 0.0))];
      layerNode := 0;
      tileLayers := [];
    }

    /** The `forEach("tilesets")` loop of `loadTilesets`: the status of the
        last entry read and the tilesets read so far. */
    static method ReadTilesetEntries(refs: seq<TilesetRef>, files: map<Path, FileData<TsjDoc>>, id: Path)
      returns (status: St.Status, loaded: seq<Tileset>)
      requires ColumnsNonZero(files)
      ensures (status, loaded) == TilesetsResult(refs, files, id)
    {
      status := St.DefaultStatus();
      loaded := [];
      ghost var os := Outcomes(refs, files, id);
      for i := 0 to |refs|
        invariant (status, loaded) == Collect(os[..i])
      {
        CollectStep(os, i);
        if status.IsOk() {
          var r := TilesetResult(refs[i], files, id);
          assert r == os[i];
          status := r.0;
          if r.1.Some? {
            loaded := loaded + [r.1.value];
          } else {
            assert loaded + [] == loaded;
          }
        }
      }
      assert os[..|refs|] == os;
    }

    /** The loop followed by the sort; returns the loop's status. */
    method ReadTilesets(refs: seq<TilesetRef>, files: map<Path, FileData<TsjDoc>>) returns (status: St.Status)
      requires ColumnsNonZero(files)
      requires DistinctFirstIds(tilesets + TilesetsResult(refs, files, identifier).1)
      modifies this
      ensures status == TilesetsResult(refs, files, old(identifier)).0
      ensures tilesets == SortTilesets(old(tilesets) + TilesetsResult(refs, files, old(identifier)).1)
      ensures StrictlyDescending(tilesets) && multiset(tilesets) == multiset(old(tilesets) + TilesetsResult(refs, files, old(identifier)).1)
      ensures identifier == old(identifier) && tileSize == old(tileSize) && colorStack == old(colorStack)
      ensures parallaxStack == old(parallaxStack) && nodes == old(nodes) && layerNode == old(layerNode)
      ensures tileLayers == old(tileLayers)
    {
      var loaded;
      status, loaded := ReadTilesetEntries(refs, files, identifier);
      SortTilesetsCorrect(tilesets + loaded);
      tilesets := SortTilesets(tilesets + loaded);
    }

    /** `loadTilesets` as written: it returns `Ok` whatever the loop
        reported. */
    method LoadTilesetsAsWritten(refs: seq<TilesetRef>, files: map<Path, FileData<TsjDoc>>) returns (status: St.Status)
      requires ColumnsNonZero(files)
      requires DistinctFirstIds(tilesets + TilesetsResult(refs, files, identifier).1)
      modifies this
      ensures status.IsOk()
      ensures tilesets == SortTilesets(old(tilesets) + TilesetsResult(refs, files, old(identifier)).1)
      ensures identifier == old(identifier) && tileSize == old(tileSize) && colorStack == old(colorStack)
      ensures parallaxStack == old(parallaxStack) && nodes == old(nodes) && layerNode == old(layerNode)
      ensures tileLayers == old(tileLayers)
    {
      var loopStatus := ReadTilesets(refs, files);
      status := St.FromCode(St.OK);
    }

    /** `loadTilesets` returning the loop's status, as `loadLayers` does. */
    method LoadTilesets(refs: seq<TilesetRef>, files: map<Path, FileData<TsjDoc>>) returns (status: St.Status)
      requires ColumnsNonZero(files)
      requires DistinctFirstIds(tilesets + TilesetsResult(refs, files, identifier).1)
      modifies this
      ensures status == TilesetsResult(refs, files, old(identifier)).0
      ensures tilesets == SortTilesets(old(tilesets) + TilesetsResult(refs, files, old(identifier)).1)
      ensures identifier == old(identifier) && tileSize == old(tileSize) && colorStack == old(colorStack)
      ensures parallaxStack == old(parallaxStack) && nodes == old(nodes) && layerNode == old(layerNode)
      ensures tileLayers == old(tileLayers)
    {
      status := ReadTilesets(refs, files);
    }

    /** `loadTileLayer`: the format checks, the vertex buckets, a scene
        node under the layer node, and a tile layer with the stack products
        and one part per non-empty bucket. */
    method LoadTileLayer(t: TileData, name: string, device: St.Status) returns (status: St.Status)
      requires Valid()
      requires t.data.Some? ==> AllResolve(tilesets, t.data.value)
      modifies this
      ensures Valid()
      ensures var r := TileLayerResult(t, name, ColorProduct(old(colorStack)), ParallaxProduct(old(parallaxStack)),
                                       old(tilesets), device);
              status == r.0 && tileLayers == old(tileLayers) + r.1
      ensures identifier == old(identifier) && tilesets == old(tilesets) && tileSize == old(tileSize)
      ensures colorStack == old(colorStack) && parallaxStack == old(parallaxStack) && layerNode == old(layerNode)
      ensures |nodes| >= |old(nodes)| && nodes[..|old(nodes)|] == old(nodes)
    {
      var width := t.width.GetOr(0);
      var height := t.height.GetOr(0);
      status := TileLayerStatus(t.encoding.GetOr(""), t.compression.GetOr(""), t.data, width, height);
      if !status.IsOk() {
        return;
      }
      var tiles := t.data.value;
      TileLayerStatusMeaning(t.encoding.GetOr(""), t.compression.GetOr(""), t.data, width, height);
      var empty: seq<seq<TileVertex>> := seq(|tilesets|, _ => []);
      var buckets := LoadTileLayerVertices(tilesets, empty, tiles, width);
      nodes := nodes + [SceneEntry(name, Some(layerNode), Vec2(0.0, 0.0))];
      var color := ColorProduct(colorStack);
      var parallax := ParallaxProduct(parallaxStack);
      var parts, stopped := CreateParts(tiles, width, buckets, device);
      if stopped {
        tileLayers := tileLayers + [TileLayer(name, color, parallax, [])];
        return device;
      }
      tileLayers := tileLayers + [TileLayer(name, color, parallax, parts)];
    }

    /** The loop over the buckets in `loadTileLayer`: a part for every
        non-empty bucket, stopping at the first one when the device fails
        to create its buffer. */
    method CreateParts(tiles: seq<TileId>, width: nat, buckets: seq<seq<TileVertex>>, device: St.Status)
      returns (parts: seq<Part>, stopped: bool)
      requires (width > 0 || |tiles| == 0) && AllResolve(tilesets, tiles)
      requires |buckets| == |tilesets|
      requires forall b | 0 <= b < |buckets| :: buckets[b] == [] + Bucket(tilesets, tiles, width, b)
      ensures stopped <==> !device.IsOk() && |TileLayerParts(tilesets, tiles, width, |tilesets|)| > 0
      ensures !stopped ==> parts == TileLayerParts(tilesets, tiles, width, |tilesets|)
    {
      parts := [];
      for b := 0 to |tilesets|
        invariant parts == TileLayerParts(tilesets, tiles, width, b)
        invariant !device.IsOk() ==> parts == []
      {
        assert buckets[b] == Bucket(tilesets, tiles, width, b);
        if |buckets[b]| > 0 {
          if !device.IsOk() {
            TileLayerPartsGrow(tilesets, tiles, width, b + 1, |tilesets|);
            return parts, true;
          }
          parts := parts + [Part(tilesets[b].texture, buckets[b])];
        }
      }
      stopped := false;
    }

    /** Entering a layer: a scene node for it under the current layer node,
        which it then becomes, and its colour and parallax pushed. */
    method EnterLayer(l: LayerDesc)
      requires Valid()
      modifies this
      ensures Valid()
      ensures nodes == old(nodes) + [SceneEntry(LayerName(l), Some(old(layerNode)),
                                                ConvertCoordinates(Vec2(l.x.GetOr(0.0), l.y.GetOr(0.0)), tileSize))]
      ensures layerNode == |old(nodes)|
      ensures colorStack == old(colorStack) + [LayerColor(l)]
      ensures parallaxStack == old(parallaxStack) + [LayerParallax(l)]
      ensures identifier == old(identifier) && tilesets == old(tilesets) && tileSize == old(tileSize)
      ensures tileLayers == old(tileLayers)
    {
      var offset := ConvertCoordinates(Vec2(l.x.GetOr(0.0), l.y.GetOr(0.0)), tileSize);
      nodes := nodes + [SceneEntry(LayerName(l), Some(layerNode), offset)];
      layerNode := |nodes| - 1;
      colorStack := colorStack + [LayerColor(l)];
      parallaxStack := parallaxStack + [LayerParallax(l)];
    }

    /** Leaving a layer: the colour and parallax are popped and the saved
        layer node restored. */
    method ExitLayer(saved: nat)
      requires Valid() && saved < |nodes| && |colorStack| > 0 && |parallaxStack| > 0
      modifies this
      ensures Valid()
      ensures colorStack == old(colorStack)[..|old(colorStack)| - 1]
      ensures parallaxStack == old(parallaxStack)[..|old(parallaxStack)| - 1]
      ensures layerNode == saved
      ensures identifier == old(identifier) && tilesets == old(tilesets) && tileSize == old(tileSize)
      ensures nodes == old(nodes) && tileLayers == old(tileLayers)
    {
      parallaxStack := parallaxStack[..|parallaxStack| - 1];
      colorStack := colorStack[..|colorStack| - 1];
      layerNode := saved;
    }

    /** One iteration of the `forEach("layers")` of `loadLayers`: the layer
        node, colour and parallax are pushed, the layer is dispatched on its
        type, and all three are restored on exit. */
    method LoadLayer(l: LayerDesc, device: St.Status) returns (status: St.Status)
      requires Valid() && LayerResolves(l, tilesets)
      modifies this
      decreases l
      ensures Valid()
      ensures var r := LayerResult(l, old(colorStack), old(parallaxStack), old(tilesets), device);
              status == r.0 && tileLayers == old(tileLayers) + r.1
      ensures identifier == old(identifier) && tilesets == old(tilesets) && tileSize == old(tileSize)
      ensures colorStack == old(colorStack) && parallaxStack == old(parallaxStack) && layerNode == old(layerNode)
      ensures |nodes| >= |old(nodes)| && nodes[..|old(nodes)|] == old(nodes)
    {
      if l.kind.None? {
        return St.FromCode(St.FormatError);
      }
      var saved := layerNode;
      ghost var nodes0, colors0, parallaxes0 := nodes, colorStack, parallaxStack;
      EnterLayer(l);
      ghost var nodes1 := nodes;
      var kind := l.kind.value;
      if kind == "tilelayer" {
        status := LoadTileLayer(l.tiles, l.name.GetOr(""), device);
      } else if kind == "objectgroup" {
        // Collision layers report `Ok`; object layers report nothing.
        status := St.DefaultStatus();
      } else if kind == "group" {
        status := LoadLayers(l.layers, device);
      } else {
        status := St.FromCode(St.FormatError);
      }
      assert nodes[..|nodes0|] == nodes1[..|nodes0|] == nodes0;
      assert colorStack[..|colorStack| - 1] == colors0;
      assert parallaxStack[..|parallaxStack| - 1] == parallaxes0;
      ExitLayer(saved);
    }

    /** `loadLayers`: walks the array until a layer fails. */
    method LoadLayers(layers: seq<LayerDesc>, device: St.Status) returns (status: St.Status)
      requires Valid() && TreeResolves(layers, tilesets)
      modifies this
      decreases layers
      ensures Valid()
      ensures var r := LayersResult(layers, old(colorStack), old(parallaxStack), old(tilesets), device);
              status == r.0 && tileLayers == old(tileLayers) + r.1
      ensures identifier == old(identifier) && tilesets == old(tilesets) && tileSize == old(tileSize)
      ensures colorStack == old(colorStack) && parallaxStack == old(parallaxStack) && layerNode == old(layerNode)
      ensures |nodes| >= |old(nodes)| && nodes[..|old(nodes)|] == old(nodes)
    {
      status := St.DefaultStatus();
      for i := 0 to |layers|
        invariant Valid()
        invariant identifier == old(identifier) && tilesets == old(tilesets) && tileSize == old(tileSize)
        invariant colorStack == old(colorStack) && parallaxStack == old(parallaxStack) && layerNode == old(layerNode)
        invariant |nodes| >= |old(nodes)| && nodes[..|old(nodes)|] == old(nodes)
        invariant TreeResolves(layers[..i], tilesets)
        invariant var r := LayersResult(layers[..i], colorStack, parallaxStack, tilesets, device);
                  status == r.0 && tileLayers == old(tileLayers) + r.1
      {
        assert layers[..i + 1][..i] == layers[..i];
        assert layers[..i + 1][i] == layers[i];
        assert TreeResolves(layers[..i + 1], tilesets);
        if status.IsOk() {
          status := LoadLayer(layers[i], device);
        }
      }
      assert layers[..|layers|] == layers;
    }

    /** `load(identifier)` on a fresh loader, with `loadTilesets` reporting
        its loop status. */
    method Load(id: Path, maps: map<Path, FileData<TmjDoc>>, files: map<Path, FileData<TsjDoc>>,
                device: St.Status) returns (status: St.Status)
      requires Valid() && Fresh()
      requires MapPreconditions(id, maps, files)
      modifies this
      ensures var r := MapResult(id, maps, files, device);
              status == r.0 && tileLayers == r.2
              && (id + ".tmj" in maps && maps[id + ".tmj"].Readable? && maps[id + ".tmj"].doc.kind == Some("map")
                  && maps[id + ".tmj"].doc.tilewidth.GetOr(256.0) == maps[id + ".tmj"].doc.tileheight.GetOr(256.0)
                  ==> tilesets == r.1)
      ensures colorStack == [] && parallaxStack == []
    {
      identifier := id;
      var path := id + ".tmj";
      if path !in maps {
        return St.FromCode(St.ReadError);
      }
      if maps[path].Unreadable? {
        return maps[path].failure;
      }
      var doc := maps[path].doc;
      if doc.kind != Some("map") {
        return St.FromCode(St.FormatError);
      }
      var width := doc.tilewidth.GetOr(256.0);
      var height := doc.tileheight.GetOr(256.0);
      if width != height {
        return St.FromCode(St.FormatError);
      }
      tileSize := width;
      status := LoadContents(doc, files, device);
    }

    /** The rest of `load` once the document has passed its checks: the
        tilesets, then, when they all load, the layers. */
    method LoadContents(doc: TmjDoc, files: map<Path, FileData<TsjDoc>>, device: St.Status)
      returns (status: St.Status)
      requires Valid() && Fresh() && ColumnsNonZero(files)
      requires var ts := TilesetsResult(doc.tilesets, files, identifier).1;
               DistinctFirstIds(ts) && TreeResolves(doc.layers, SortTilesets(ts))
      modifies this
      ensures var ts := TilesetsResult(doc.tilesets, files, old(identifier));
              && tilesets == SortTilesets(ts.1)
              && (!ts.0.IsOk() ==> status == ts.0 && tileLayers == [])
              && (ts.0.IsOk() ==>
                    var ls := LayersResult(doc.layers, [], [], SortTilesets(ts.1), device);
                    status == ls.0 && tileLayers == ls.1)
      ensures colorStack == [] && parallaxStack == []
    {
      ghost var ts := TilesetsResult(doc.tilesets, files, identifier);
      assert tilesets + ts.1 == ts.1;
      status := LoadTilesets(doc.tilesets, files);
      if !status.IsOk() {
        return;
      }
      status := LoadLayers(doc.layers, device);
    }
  }
}
