/**
 * The buffer assembly of render_regular_map (world_map.py:157-169): the
 * buffer is filled with the no-data value, then every placement's cut of its
 * tile is slice-assigned into the buffer, in order. The assignment follows
 * numpy: both slice bounds are normalised and clamped, and a source
 * dimension of 1 is broadcast.
 */
module Render {
  import opened Grid
  import opened Areas
  import opened Dispatch
  import opened Viewport

  /**
   * One slice assignment `buffer[top:bottom, left:right] = sub` after numpy
   * has normalised its bounds; `sub` has subH rows of subW cells.
   */
  datatype Write = Write(top: nat, bottom: nat, left: nat, right: nat, sub: Raster, subH: nat, subW: nat)

  /**
   * numpy accepts the assignment when each source dimension equals the
   * destination's or is 1.
   */
  predicate Broadcasts(w: Write)
  {
    && w.top <= w.bottom && w.left <= w.right
    && IsRect(w.sub, w.subH, w.subW)
    && (w.subH == w.bottom - w.top || w.subH == 1)
    && (w.subW == w.right - w.left || w.subW == 1)
  }

  /** The write reaches buffer cell (y, x). */
  predicate Covers(w: Write, y: int, x: int)
  {
    w.top <= y < w.bottom && w.left <= x < w.right
  }

  /** The source cell a write puts at (y, x): a dimension of 1 repeats its only index. */
  function SourceCell(w: Write, y: int, x: int): Node
    requires Broadcasts(w) && Covers(w, y, x)
  {
    w.sub[if w.subH == 1 then 0 else y - w.top][if w.subW == 1 then 0 else x - w.left]
  }

  /** The buffer after one slice assignment. */
  function Apply(buf: Raster, w: Write): (r: Raster)
    requires Broadcasts(w)
    ensures |r| == |buf| && forall i :: 0 <= i < |buf| ==> |r[i]| == |buf[i]|
  {
    seq(|buf|, i requires 0 <= i < |buf| =>
      seq(|buf[i]|, j requires 0 <= j < |buf[i]| => if Covers(w, i, j) then SourceCell(w, i, j) else buf[i][j]))
  }

  predicate AllBroadcast(ws: seq<Write>)
  {
    forall w :: w in ws ==> Broadcasts(w)
  }

  /** The buffer after the writes, applied first to last. */
  function Compose(buf: Raster, ws: seq<Write>): (r: Raster)
    requires AllBroadcast(ws)
    ensures |r| == |buf| && forall i :: 0 <= i < |buf| ==> |r[i]| == |buf[i]|
  {
    if ws == [] then buf else Apply(Compose(buf, ws[..|ws| - 1]), ws[|ws| - 1])
  }

  /** A cell no write reaches keeps its value. */
  lemma {:induction false} ComposeUntouched(buf: Raster, ws: seq<Write>, y: nat, x: nat)
    requires AllBroadcast(ws) && y < |buf| && x < |buf[y]|
    requires forall w :: w in ws ==> !Covers(w, y, x)
    ensures Compose(buf, ws)[y][x] == buf[y][x]
  {
    if ws != [] {
      assert ws[|ws| - 1] in ws;
      ComposeUntouched(buf, ws[..|ws| - 1], y, x);
    }
  }

  /** A cell some write reaches holds v when every write reaching it puts v there. */
  lemma {:induction false} ComposeAgreed(buf: Raster, ws: seq<Write>, y: nat, x: nat, v: Node)
    requires AllBroadcast(ws) && y < |buf| && x < |buf[y]|
    requires exists w :: w in ws && Covers(w, y, x)
    requires forall w :: w in ws && Covers(w, y, x) ==> SourceCell(w, y, x) == v
    ensures Compose(buf, ws)[y][x] == v
  {
    var last := ws[|ws| - 1];
    var init := ws[..|ws| - 1];
    assert last in ws;
    if !Covers(last, y, x) {
      var w :| w in ws && Covers(w, y, x);
      assert w in init by {
        var i :| 0 <= i < |ws| && ws[i] == w;
        assert i < |ws| - 1;
        assert init[i] == w;
      }
      ComposeAgreed(buf, init, y, x, v);
    }
  }

  // ---------------------------------------------------------------------
  // The writes of a frame
  // ---------------------------------------------------------------------

  /** The number of cells per row of the cut `sub_map` has: the length of its column slice. */
  function CutWidth(cut: Rect, w: nat, zoom: int): nat
    requires 1 <= zoom <= 5
  {
    var kept := Kept(w, Stride(zoom).value);
    SliceEnd(cut.startX, cut.endX, kept) - SliceBound(cut.startX, kept)
  }

  /**
   * The assignment line 169 performs for one placement: the tile's displayed
   * nodes at the placement's indexes, into the camera rectangle as numpy
   * clamps it to an h-by-w buffer.
   */
  function WriteOf(p: Placement, raster: Raster, zoom: int, h: nat, w: nat): Write
    requires 1 <= zoom <= 5
  {
    var sub := DisplayedNodes(raster, zoom, p.indexes).value;
    Write(
      SliceBound(p.camera.startY, h), SliceEnd(p.camera.startY, p.camera.endY, h),
      SliceBound(p.camera.startX, w), SliceEnd(p.camera.startX, p.camera.endX, w),
      sub, |sub|, CutWidth(p.indexes, w, zoom))
  }

  /** The placement's tile is loaded and numpy accepts its assignment. */
  predicate Writable(p: Placement, rasters: map<(int, int), Raster>, zoom: int, h: nat, w: nat)
    requires 1 <= zoom <= 5
  {
    p.position in rasters && Broadcasts(WriteOf(p, rasters[p.position], zoom, h, w))
  }

  /**
   * How many placements, from the first, are written before one fails (its
   * tile is missing, a KeyError, or numpy refuses the shapes).
   */
  function Written(ps: seq<Placement>, rasters: map<(int, int), Raster>, zoom: int, h: nat, w: nat): (k: nat)
    requires 1 <= zoom <= 5
    ensures k <= |ps|
    ensures forall i :: 0 <= i < k ==> Writable(ps[i], rasters, zoom, h, w)
    ensures k < |ps| ==> !Writable(ps[k], rasters, zoom, h, w)
  {
    if ps == [] || !Writable(ps[0], rasters, zoom, h, w) then 0
    else 1 + Written(ps[1..], rasters, zoom, h, w)
  }

  /** The first k writes of a frame. */
  function Writes(ps: seq<Placement>, rasters: map<(int, int), Raster>, zoom: int, h: nat, w: nat, k: nat): (ws: seq<Write>)
    requires 1 <= zoom <= 5 && k <= Written(ps, rasters, zoom, h, w)
    ensures |ws| == k && AllBroadcast(ws)
    ensures forall i :: 0 <= i < k ==> ws[i] == WriteOf(ps[i], rasters[ps[i].position], zoom, h, w)
  {
    seq(k, i requires 0 <= i < k => WriteOf(ps[i], rasters[ps[i].position], zoom, h, w))
  }

  /** A writable placement right after the first k written ones is written too. */
  lemma {:induction false} WrittenPast(ps: seq<Placement>, rasters: map<(int, int), Raster>, zoom: int, h: nat, w: nat, k: nat)
    requires 1 <= zoom <= 5 && k <= Written(ps, rasters, zoom, h, w)
    requires k < |ps| && Writable(ps[k], rasters, zoom, h, w)
    ensures k < Written(ps, rasters, zoom, h, w)
  {
    if k > 0 {
      assert ps[1..][k - 1] == ps[k];
      WrittenPast(ps[1..], rasters, zoom, h, w, k - 1);
    }
  }

  /**
   * When the placement after the first k written ones is writable too, it is
   * written, and applies its write on top of the earlier ones.
   */
  lemma ComposeWritesStep(buf: Raster, ps: seq<Placement>, rasters: map<(int, int), Raster>, zoom: int, h: nat, w: nat, k: nat)
    requires 1 <= zoom <= 5 && k <= Written(ps, rasters, zoom, h, w)
    requires k < |ps| && Writable(ps[k], rasters, zoom, h, w)
    ensures k < Written(ps, rasters, zoom, h, w)
    ensures Compose(buf, Writes(ps, rasters, zoom, h, w, k + 1))
      == Apply(Compose(buf, Writes(ps, rasters, zoom, h, w, k)), WriteOf(ps[k], rasters[ps[k].position], zoom, h, w))
  {
    WrittenPast(ps, rasters, zoom, h, w, k);
    var ws, ws' := Writes(ps, rasters, zoom, h, w, k), Writes(ps, rasters, zoom, h, w, k + 1);
    assert ws'[..k] == ws;
  }

  /**
   * The buffer render_regular_map leaves: None when get_array_and_camera
   * fails, otherwise the no-data fill with the writes that succeeded applied,
   * and whether all of them did.
   */
  function RenderedMap(cfg: Config, zoom: int, center: (int, int), verticalOffset: int, horizontalOffset: int,
                       rasters: map<(int, int), Raster>): Option<(Raster, bool)>
    requires ValidConfig(cfg)
  {
    match ArrayAndCamera(cfg, zoom, center, verticalOffset, horizontalOffset)
    case None => None
    case Some(ps) =>
      var k := Written(ps, rasters, zoom, cfg.mapHeight, cfg.mapWidth);
      Some((Compose(Filled(cfg.mapHeight, cfg.mapWidth), Writes(ps, rasters, zoom, cfg.mapHeight, cfg.mapWidth, k)), k == |ps|))
  }

  // ---------------------------------------------------------------------
  // What a frame writes when the offsets are within one tile
  // ---------------------------------------------------------------------

  /** A decimated side of n whole tiles keeps exactly one tile's worth of cells. */
  lemma KeptOfWholeTiles(chunk: nat, s: nat)
    requires s >= 1
    ensures Kept(s * chunk, s) == chunk
  {
    DivUnique(s * chunk + s - 1, s, chunk, s - 1);
  }

  /**
   * The facts the frame theorem works under: the level is known, the
   * offsets are within one tile, and the row and column spans tile the buffer.
   */
  predicate FrameTiles(cfg: Config, zoom: int, verticalOffset: int, horizontalOffset: int)
  {
    && ValidConfig(cfg) && 1 <= zoom <= 5 && zoom in cfg.startingIndexes
    && var info := ChunksAndInformations(cfg, zoom, verticalOffset, horizontalOffset).value;
    && Abs(verticalOffset) <= info.baseCameraHeight && Abs(horizontalOffset) <= info.baseCameraWidth
  }

  /** Under FrameTiles both axes are tiled and a decimated tile is one chunk on each side. */
  lemma FrameAxes(cfg: Config, zoom: int, verticalOffset: int, horizontalOffset: int)
    requires FrameTiles(cfg, zoom, verticalOffset, horizontalOffset)
    ensures var info := ChunksAndInformations(cfg, zoom, verticalOffset, horizontalOffset).value;
      var s := Stride(zoom).value;
      && TilesAxis(RowSpans(info, verticalOffset), cfg.mapHeight, info.baseCameraHeight)
      && TilesAxis(ColumnSpans(info, horizontalOffset), cfg.mapWidth, info.baseCameraWidth)
      && Kept(cfg.mapHeight, s) == info.baseCameraHeight && Kept(cfg.mapWidth, s) == info.baseCameraWidth
  {
    var info := ChunksAndInformations(cfg, zoom, verticalOffset, horizontalOffset).value;
    var n := Stride(zoom).value;
    assert n * info.baseCameraHeight == cfg.mapHeight && n * info.baseCameraWidth == cfg.mapWidth;
    assert info.chunksCount.0 == TileCount(n, verticalOffset) && info.chunksCount.1 == TileCount(n, horizontalOffset);
    AxisPartition(n, info.baseCameraHeight, verticalOffset);
    AxisPartition(n, info.baseCameraWidth, horizontalOffset);
    KeptOfWholeTiles(info.baseCameraHeight, n);
    KeptOfWholeTiles(info.baseCameraWidth, n);
  }

  /** The placement a row span and a column span make for a tile at `position`. */
  function SpanPlacement(position: (int, int), ySpan: Span, xSpan: Span): Placement
  {
    Placement(position,
      Rect(ySpan.startIndex, ySpan.endIndex, xSpan.startIndex, xSpan.endIndex),
      Rect(ySpan.cameraStart, ySpan.cameraEnd, xSpan.cameraStart, xSpan.cameraEnd))
  }

  /** What WriteOfSpans asks of its spans. */
  predicate SpansFit(ySpan: Span, xSpan: Span, zoom: int, h: nat, w: nat)
    requires 1 <= zoom <= 5
  {
    && 0 <= ySpan.startIndex <= ySpan.endIndex <= Kept(h, Stride(zoom).value)
    && 0 <= xSpan.startIndex <= xSpan.endIndex <= Kept(w, Stride(zoom).value)
    && DestHi(ySpan, h) - DestLo(ySpan, h) == ySpan.endIndex - ySpan.startIndex
    && DestHi(xSpan, w) - DestLo(xSpan, w) == xSpan.endIndex - xSpan.startIndex
  }

  /**
   * A write whose source spans lie inside one decimated tile and match their
   * clamped destinations in length is taken by numpy as is, into the
   * clamped destination spans.
   */
  lemma WriteOfSpansShape(position: (int, int), ySpan: Span, xSpan: Span, raster: Raster, zoom: int, h: nat, w: nat)
    requires 1 <= zoom <= 5 && IsRect(raster, h, w) && SpansFit(ySpan, xSpan, zoom, h, w)
    ensures var wr := WriteOf(SpanPlacement(position, ySpan, xSpan), raster, zoom, h, w);
      && Broadcasts(wr)
      && wr.subH == wr.bottom - wr.top && wr.subW == wr.right - wr.left
      && wr.top == DestLo(ySpan, h) && wr.bottom == DestHi(ySpan, h)
      && wr.left == DestLo(xSpan, w) && wr.right == DestHi(xSpan, w)
      && wr.sub == DisplayedNodes(raster, zoom, SpanPlacement(position, ySpan, xSpan).indexes).value
  {
    var p := SpanPlacement(position, ySpan, xSpan);
    DisplayedNodesSamples(raster, zoom, p.indexes, h, w);
  }

  /** Without broadcasting, a write puts its source cell at the same offset into its block. */
  lemma SourceCellUnbroadcast(w: Write, y: int, x: int)
    requires Broadcasts(w) && Covers(w, y, x)
    requires w.subH == w.bottom - w.top && w.subW == w.right - w.left
    ensures SourceCell(w, y, x) == w.sub[y - w.top][x - w.left]
  {
  }

  /**
   * The node a tile shows at buffer cell (y, x) through a row span and a
   * column span: its cell at the matching source index, scaled by the
   * level's stride.
   */
  function SpanCell(raster: Raster, ySpan: Span, xSpan: Span, zoom: int, h: nat, w: nat, y: int, x: int): Node
    requires 1 <= zoom <= 5 && IsRect(raster, h, w) && SpansFit(ySpan, xSpan, zoom, h, w)
    requires DestLo(ySpan, h) <= y < DestHi(ySpan, h) && DestLo(xSpan, w) <= x < DestHi(xSpan, w)
  {
    var cut, i, j := SpanCut(ySpan, xSpan), y - DestLo(ySpan, h), x - DestLo(xSpan, w);
    DisplayedNodesCell(raster, zoom, cut, h, w, i, j);
    raster[(cut.startY + i) * Stride(zoom).value][(cut.startX + j) * Stride(zoom).value]
  }

  /** The cut of a tile a row span and a column span select. */
  function SpanCut(ySpan: Span, xSpan: Span): Rect
  {
    Rect(ySpan.startIndex, ySpan.endIndex, xSpan.startIndex, xSpan.endIndex)
  }

  /** SpanCell is the cell of the tile's displayed nodes at the offset of (y, x) into the destination. */
  lemma SpanCellIsDisplayed(raster: Raster, ySpan: Span, xSpan: Span, zoom: int, h: nat, w: nat, y: int, x: int)
    requires 1 <= zoom <= 5 && IsRect(raster, h, w) && SpansFit(ySpan, xSpan, zoom, h, w)
    requires DestLo(ySpan, h) <= y < DestHi(ySpan, h) && DestLo(xSpan, w) <= x < DestHi(xSpan, w)
    ensures var sub := DisplayedNodes(raster, zoom, SpanCut(ySpan, xSpan)).value;
      && IsRect(sub, ySpan.endIndex - ySpan.startIndex, xSpan.endIndex - xSpan.startIndex)
      && SpanCell(raster, ySpan, xSpan, zoom, h, w, y, x) == sub[y - DestLo(ySpan, h)][x - DestLo(xSpan, w)]
  {
    var cut, i, j := SpanCut(ySpan, xSpan), y - DestLo(ySpan, h), x - DestLo(xSpan, w);
    DisplayedNodesCell(raster, zoom, cut, h, w, i, j);
    var cell := raster[(cut.startY + i) * Stride(zoom).value][(cut.startX + j) * Stride(zoom).value];
    assert DisplayedNodes(raster, zoom, cut).value[i][j] == cell;
    assert SpanCell(raster, ySpan, xSpan, zoom, h, w, y, x) == cell;
  }

  /**
   * The cell such a write puts at (y, x) is the cell of the tile's
   * displayed nodes at the offset of (y, x) into the destination.
   */
  lemma WriteOfSpansCell(position: (int, int), ySpan: Span, xSpan: Span, raster: Raster, zoom: int, h: nat, w: nat,
                         wr: Write, y: int, x: int)
    requires 1 <= zoom <= 5 && IsRect(raster, h, w) && SpansFit(ySpan, xSpan, zoom, h, w)
    requires wr == WriteOf(SpanPlacement(position, ySpan, xSpan), raster, zoom, h, w)
    requires DestLo(ySpan, h) <= y < DestHi(ySpan, h) && DestLo(xSpan, w) <= x < DestHi(xSpan, w)
    ensures Broadcasts(wr) && Covers(wr, y, x)
    ensures wr.sub == DisplayedNodes(raster, zoom, SpanCut(ySpan, xSpan)).value
    ensures SourceCell(wr, y, x) == wr.sub[y - DestLo(ySpan, h)][x - DestLo(xSpan, w)]
  {
    WriteOfSpansShape(position, ySpan, xSpan, raster, zoom, h, w);
    SourceCellUnbroadcast(wr, y, x);
  }

  // ---------------------------------------------------------------------
  // The frame theorem
  // ---------------------------------------------------------------------

  /** Every tile the frame places is loaded, with the buffer's shape. */
  predicate TilesLoaded(cfg: Config, zoom: int, center: (int, int), verticalOffset: int, horizontalOffset: int,
                        rasters: map<(int, int), Raster>)
    requires FrameTiles(cfg, zoom, verticalOffset, horizontalOffset)
  {
    forall p :: p in ArrayAndCamera(cfg, zoom, center, verticalOffset, horizontalOffset).value ==>
      p.position in rasters && IsRect(rasters[p.position], cfg.mapHeight, cfg.mapWidth)
  }

  /** When every placement can be written, all of them are. */
  lemma {:induction false} WrittenAll(ps: seq<Placement>, rasters: map<(int, int), Raster>, zoom: int, h: nat, w: nat)
    requires 1 <= zoom <= 5
    requires forall p :: p in ps ==> Writable(p, rasters, zoom, h, w)
    ensures Written(ps, rasters, zoom, h, w) == |ps|
  {
    if ps != [] {
      assert ps[0] in ps;
      forall p | p in ps[1..]
        ensures Writable(p, rasters, zoom, h, w)
      {
        assert p in ps;
      }
      WrittenAll(ps[1..], rasters, zoom, h, w);
    }
  }

  /**
   * The tile (k, j) in the frame's own terms: its placement is the spans of
   * row k and column j, and those spans fit the decimated tile.
   */
  lemma TileAt(cfg: Config, zoom: int, center: (int, int), verticalOffset: int, horizontalOffset: int, k: nat, j: nat)
    requires FrameTiles(cfg, zoom, verticalOffset, horizontalOffset)
    requires var info := ChunksAndInformations(cfg, zoom, verticalOffset, horizontalOffset).value;
      k < |RowSpans(info, verticalOffset)| && j < |ColumnSpans(info, horizontalOffset)| && RowShown(cfg, center, info, k)
    ensures var info := ChunksAndInformations(cfg, zoom, verticalOffset, horizontalOffset).value;
      var ys, xs := RowSpans(info, verticalOffset), ColumnSpans(info, horizontalOffset);
      var p := PlacementAt(cfg, center, info, ys, xs, k, j);
      && p == SpanPlacement(p.position, ys[k], xs[j])
      && SpansFit(ys[k], xs[j], zoom, cfg.mapHeight, cfg.mapWidth)
      && p in ArrayAndCamera(cfg, zoom, center, verticalOffset, horizontalOffset).value
  {
    var info := ChunksAndInformations(cfg, zoom, verticalOffset, horizontalOffset).value;
    var ys, xs := RowSpans(info, verticalOffset), ColumnSpans(info, horizontalOffset);
    FrameAxes(cfg, zoom, verticalOffset, horizontalOffset);
    PlacementsUpToMembers(cfg, center, info, ys, xs, |ys|);
  }

  /** Every placement of the frame is the tile of some shown row and some column. */
  lemma PlacementIsTile(cfg: Config, zoom: int, center: (int, int), verticalOffset: int, horizontalOffset: int, p: Placement)
      returns (k: nat, j: nat)
    requires FrameTiles(cfg, zoom, verticalOffset, horizontalOffset)
    requires p in ArrayAndCamera(cfg, zoom, center, verticalOffset, horizontalOffset).value
    ensures var info := ChunksAndInformations(cfg, zoom, verticalOffset, horizontalOffset).value;
      var ys, xs := RowSpans(info, verticalOffset), ColumnSpans(info, horizontalOffset);
      && k < |ys| && j < |xs| && RowShown(cfg, center, info, k)
      && p == PlacementAt(cfg, center, info, ys, xs, k, j)
  {
    var info := ChunksAndInformations(cfg, zoom, verticalOffset, horizontalOffset).value;
    var ys, xs := RowSpans(info, verticalOffset), ColumnSpans(info, horizontalOffset);
    PlacementsUpToMembers(cfg, center, info, ys, xs, |ys|);
    k, j :| k < |ys| && j < |xs| && RowShown(cfg, center, info, k) && p == PlacementAt(cfg, center, info, ys, xs, k, j);
  }

  /** With the offsets within one tile and every tile loaded, no write of the frame fails. */
  lemma FrameWritable(cfg: Config, zoom: int, center: (int, int), verticalOffset: int, horizontalOffset: int,
                      rasters: map<(int, int), Raster>)
    requires FrameTiles(cfg, zoom, verticalOffset, horizontalOffset)
    requires TilesLoaded(cfg, zoom, center, verticalOffset, horizontalOffset, rasters)
    ensures var ps := ArrayAndCamera(cfg, zoom, center, verticalOffset, horizontalOffset).value;
      Written(ps, rasters, zoom, cfg.mapHeight, cfg.mapWidth) == |ps|
  {
    var ps := ArrayAndCamera(cfg, zoom, center, verticalOffset, horizontalOffset).value;
    var info := ChunksAndInformations(cfg, zoom, verticalOffset, horizontalOffset).value;
    var ys, xs := RowSpans(info, verticalOffset), ColumnSpans(info, horizontalOffset);
    forall p | p in ps
      ensures Writable(p, rasters, zoom, cfg.mapHeight, cfg.mapWidth)
    {
      var k, j := PlacementIsTile(cfg, zoom, center, verticalOffset, horizontalOffset, p);
      TileAt(cfg, zoom, center, verticalOffset, horizontalOffset, k, j);
      WriteOfSpansShape(p.position, ys[k], xs[j], rasters[p.position], zoom, cfg.mapHeight, cfg.mapWidth);
    }
    WrittenAll(ps, rasters, zoom, cfg.mapHeight, cfg.mapWidth);
  }

  /**
   * What buffer cell (y, x) must show: with k the row of tiles and j the
   * column of tiles whose clamped spans hold it, the no-data value when row k
   * lies outside the grid, otherwise the node of tile (k, j) at the matching
   * source index, scaled by the level's stride.
   */
  function FrameCell(cfg: Config, zoom: int, center: (int, int), verticalOffset: int, horizontalOffset: int,
                     rasters: map<(int, int), Raster>, y: nat, x: nat): Node
    requires FrameTiles(cfg, zoom, verticalOffset, horizontalOffset)
    requires TilesLoaded(cfg, zoom, center, verticalOffset, horizontalOffset, rasters)
    requires y < cfg.mapHeight && x < cfg.mapWidth
  {
    var info := ChunksAndInformations(cfg, zoom, verticalOffset, horizontalOffset).value;
    var ys, xs := RowSpans(info, verticalOffset), ColumnSpans(info, horizontalOffset);
    FrameAxes(cfg, zoom, verticalOffset, horizontalOffset);
    var k := AxisOwner(ys, cfg.mapHeight, info.baseCameraHeight, y, 0);
    var j := AxisOwner(xs, cfg.mapWidth, info.baseCameraWidth, x, 0);
    if !RowShown(cfg, center, info, k) then NoData
    else
      var position := PlacementAt(cfg, center, info, ys, xs, k, j).position;
      TileAt(cfg, zoom, center, verticalOffset, horizontalOffset, k, j);
      SpanCell(rasters[position], ys[k], xs[j], zoom, cfg.mapHeight, cfg.mapWidth, y, x)
  }

  /** A write of the frame that reaches (y, x) is the write of the tile owning (y, x). */
  lemma CoveringWrite(cfg: Config, zoom: int, center: (int, int), verticalOffset: int, horizontalOffset: int,
                      rasters: map<(int, int), Raster>, p: Placement, y: nat, x: nat)
    requires FrameTiles(cfg, zoom, verticalOffset, horizontalOffset)
    requires TilesLoaded(cfg, zoom, center, verticalOffset, horizontalOffset, rasters)
    requires y < cfg.mapHeight && x < cfg.mapWidth
    requires p in ArrayAndCamera(cfg, zoom, center, verticalOffset, horizontalOffset).value
    requires Covers(WriteOf(p, rasters[p.position], zoom, cfg.mapHeight, cfg.mapWidth), y, x)
    ensures var info := ChunksAndInformations(cfg, zoom, verticalOffset, horizontalOffset).value;
      var ys, xs := RowSpans(info, verticalOffset), ColumnSpans(info, horizontalOffset);
      && TilesAxis(ys, cfg.mapHeight, info.baseCameraHeight) && TilesAxis(xs, cfg.mapWidth, info.baseCameraWidth)
      && var k := AxisOwner(ys, cfg.mapHeight, info.baseCameraHeight, y, 0);
      && var j := AxisOwner(xs, cfg.mapWidth, info.baseCameraWidth, x, 0);
      && RowShown(cfg, center, info, k)
      && p == PlacementAt(cfg, center, info, ys, xs, k, j)
  {
    var info := ChunksAndInformations(cfg, zoom, verticalOffset, horizontalOffset).value;
    var ys, xs := RowSpans(info, verticalOffset), ColumnSpans(info, horizontalOffset);
    FrameAxes(cfg, zoom, verticalOffset, horizontalOffset);
    var k, j := PlacementIsTile(cfg, zoom, center, verticalOffset, horizontalOffset, p);
    TileAt(cfg, zoom, center, verticalOffset, horizontalOffset, k, j);
    WriteOfSpansShape(p.position, ys[k], xs[j], rasters[p.position], zoom, cfg.mapHeight, cfg.mapWidth);
    AxisOwnerUnique(ys, cfg.mapHeight, info.baseCameraHeight, y, k);
    AxisOwnerUnique(xs, cfg.mapWidth, info.baseCameraWidth, x, j);
  }

  /** Cell (y, x) of the rendered frame is FrameCell. */
  lemma RenderedFrameCell(cfg: Config, zoom: int, center: (int, int), verticalOffset: int, horizontalOffset: int,
                          rasters: map<(int, int), Raster>, y: nat, x: nat)
    requires FrameTiles(cfg, zoom, verticalOffset, horizontalOffset)
    requires TilesLoaded(cfg, zoom, center, verticalOffset, horizontalOffset, rasters)
    requires y < cfg.mapHeight && x < cfg.mapWidth
    ensures var ps := ArrayAndCamera(cfg, zoom, center, verticalOffset, horizontalOffset).value;
      && Written(ps, rasters, zoom, cfg.mapHeight, cfg.mapWidth) == |ps|
      && Compose(Filled(cfg.mapHeight, cfg.mapWidth), Writes(ps, rasters, zoom, cfg.mapHeight, cfg.mapWidth, |ps|))[y][x]
         == FrameCell(cfg, zoom, center, verticalOffset, horizontalOffset, rasters, y, x)
  {
    var h, w := cfg.mapHeight, cfg.mapWidth;
    var ps := ArrayAndCamera(cfg, zoom, center, verticalOffset, horizontalOffset).value;
    FrameWritable(cfg, zoom, center, verticalOffset, horizontalOffset, rasters);
    var ws := Writes(ps, rasters, zoom, h, w, |ps|);
    var info := ChunksAndInformations(cfg, zoom, verticalOffset, horizontalOffset).value;
    var ys, xs, s := RowSpans(info, verticalOffset), ColumnSpans(info, horizontalOffset), Stride(zoom).value;
    FrameAxes(cfg, zoom, verticalOffset, horizontalOffset);
    var k := AxisOwner(ys, h, info.baseCameraHeight, y, 0);
    var j := AxisOwner(xs, w, info.baseCameraWidth, x, 0);
    var v := FrameCell(cfg, zoom, center, verticalOffset, horizontalOffset, rasters, y, x);
    forall wr | wr in ws && Covers(wr, y, x)
      ensures RowShown(cfg, center, info, k) && SourceCell(wr, y, x) == v
    {
      var i :| 0 <= i < |ws| && ws[i] == wr;
      assert ps[i] in ps;
      CoveringWrite(cfg, zoom, center, verticalOffset, horizontalOffset, rasters, ps[i], y, x);
      var raster := rasters[ps[i].position];
      WriteOfSpansCell(ps[i].position, ys[k], xs[j], raster, zoom, h, w, wr, y, x);
      SpanCellIsDisplayed(raster, ys[k], xs[j], zoom, h, w, y, x);
    }
    if RowShown(cfg, center, info, k) {
      var p := PlacementAt(cfg, center, info, ys, xs, k, j);
      TileAt(cfg, zoom, center, verticalOffset, horizontalOffset, k, j);
      var i :| 0 <= i < |ps| && ps[i] == p;
      WriteOfSpansCell(p.position, ys[k], xs[j], rasters[p.position], zoom, h, w, ws[i], y, x);
      assert ws[i] in ws;
      ComposeAgreed(Filled(h, w), ws, y, x, v);
    } else {
      ComposeUntouched(Filled(h, w), ws, y, x);
    }
  }

  /**
   * The frame theorem for render_regular_map: with the offsets within one
   * tile and every placed tile loaded, every write succeeds and each cell of
   * the buffer shows exactly FrameCell — the sampled node of the one tile
   * whose clamped destination holds it, or the no-data fill in a row of
   * tiles outside the grid.
   */
  lemma RenderedFrame(cfg: Config, zoom: int, center: (int, int), verticalOffset: int, horizontalOffset: int,
                      rasters: map<(int, int), Raster>)
    requires FrameTiles(cfg, zoom, verticalOffset, horizontalOffset)
    requires TilesLoaded(cfg, zoom, center, verticalOffset, horizontalOffset, rasters)
    ensures var r := RenderedMap(cfg, zoom, center, verticalOffset, horizontalOffset, rasters);
      && r.Some? && r.value.1
      && IsRect(r.value.0, cfg.mapHeight, cfg.mapWidth)
      && forall y: nat, x: nat :: y < cfg.mapHeight && x < cfg.mapWidth ==>
           r.value.0[y][x] == FrameCell(cfg, zoom, center, verticalOffset, horizontalOffset, rasters, y, x)
  {
    FrameWritable(cfg, zoom, center, verticalOffset, horizontalOffset, rasters);
    forall y: nat, x: nat | y < cfg.mapHeight && x < cfg.mapWidth
      ensures RenderedMap(cfg, zoom, center, verticalOffset, horizontalOffset, rasters).value.0[y][x]
        == FrameCell(cfg, zoom, center, verticalOffset, horizontalOffset, rasters, y, x)
    {
      RenderedFrameCell(cfg, zoom, center, verticalOffset, horizontalOffset, rasters, y, x);
    }
  }
}
