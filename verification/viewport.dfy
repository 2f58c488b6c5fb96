/**
 * The pure bookkeeping of world_map.py that turns a zoom level, a map
 * centre and the scroll offsets into tile placements: the chunk counts and
 * sizes, the spans the dispatcher emits along one axis, the clamp numpy
 * applies when those spans are used as slice bounds, the column wrap and
 * the neighbour enumeration.
 */
module Viewport {
  import opened Grid
  import opened Areas
  import opened Dispatch

  /**
   * The constants of pygame_config the core reads: MAP_DIMENSIONS,
   * STARTING_INDEXES, MAX_VERTICAL_CHUNK and MAX_HORIZONTAL_CHUNK.
   * ZOOM_LVL_MODIFICATOR is the stride of each level (Areas.Stride).
   */
  datatype Config = Config(
    mapHeight: nat,
    mapWidth: nat,
    startingIndexes: map<int, (int, int)>,
    maxVerticalChunk: int,
    maxHorizontalChunk: int)

  /**
   * What the model assumes of those constants: a non-empty buffer whose
   * sides split evenly into 2 * stride parts at every level (so every Python
   * `/` on them is exact), which is divisibility by 40.
   */
  predicate ValidConfig(cfg: Config)
  {
    cfg.mapHeight > 0 && cfg.mapWidth > 0 && cfg.mapHeight % 40 == 0 && cfg.mapWidth % 40 == 0
  }

  /** A side divisible by 40 splits into an even number of cells per tile at every level. */
  lemma BaseIsEven(dim: nat, n: nat)
    requires dim > 0 && dim % 40 == 0 && n in {1, 2, 4, 10, 20}
    ensures dim % n == 0 && (dim / n) % 2 == 0 && dim / n >= 2
  {
    var q := dim / 40;
    assert dim == 40 * q && q >= 1;
    if n == 1 {
      DivExact(dim, 1, 40 * q);
    } else if n == 2 {
      DivExact(dim, 2, 20 * q);
    } else if n == 4 {
      DivExact(dim, 4, 10 * q);
    } else if n == 10 {
      DivExact(dim, 10, 4 * q);
    } else {
      DivExact(dim, 20, 2 * q);
    }
  }

  /** A tile side times the stride is the side, and so is twice the stride times half a tile. */
  lemma TileSide(dim: nat, n: nat)
    requires dim > 0 && dim % 40 == 0 && n in {1, 2, 4, 10, 20}
    ensures dim % n == 0 && (dim / n) % 2 == 0 && dim / n >= 2
    ensures (dim / n) * n == dim && 2 * n * (dim / 2 / n) == dim && dim / 2 / n >= 1
    ensures 2 * (dim / 2 / n) == dim / n
  {
    BaseIsEven(dim, n);
    HalfTile(dim, n, dim / n);
  }

  /** Halving a side made of an even number of n-cell groups, then dividing by n, is exact. */
  lemma HalfTile(dim: int, n: int, m: int)
    requires n > 0 && m % 2 == 0 && m > 0 && dim == n * m && dim / n == m
    ensures (dim / n) * n == dim && 2 * n * (dim / 2 / n) == dim && dim / 2 / n >= 1
    ensures 2 * (dim / 2 / n) == dim / n
  {
    var k := m / 2;
    assert dim == 2 * (n * k);
    DivExact(dim, 2, n * k);
    DivExact(n * k, n, k);
  }

  lemma DivExact(a: int, n: int, m: int)
    requires n > 0 && a == n * m
    ensures a % n == 0 && a / n == m
  {
    DivUnique(a, n, m, 0);
  }

  /** Euclidean division is determined by any quotient and remainder in range. */
  lemma DivUnique(a: int, n: int, q: int, r: int)
    requires n > 0 && a == n * q + r && 0 <= r < n
    ensures a / n == q && a % n == r
  {
    var q', r' := a / n, a % n;
    assert n * (q - q') == r' - r;
    if q - q' >= 1 {
      MulMono(1, q - q', n);
    } else if q' - q >= 1 {
      MulMono(1, q' - q, n);
    }
  }

  /** The dictionary returned by get_chunks_and_informations. */
  datatype ChunksInformation = ChunksInformation(
    baseCameraHeight: nat,
    baseCameraWidth: nat,
    chunksCount: (nat, nat),
    heightRangeStart: int,
    widthRangeStart: int)

  /**
   * get_chunks_and_informations. A tile covers mapHeight / n rows and
   * mapWidth / n columns of the buffer (n the level's stride); an axis shows
   * n tiles, one more when its offset is non-zero, and starts one tile
   * earlier when its offset is negative. An unknown level fails the lookup.
   */
  function ChunksAndInformations(cfg: Config, zoom: int, verticalOffset: int, horizontalOffset: int): (o: Option<ChunksInformation>)
    requires ValidConfig(cfg)
    ensures o.Some? <==> 1 <= zoom <= 5 && zoom in cfg.startingIndexes
    ensures o.Some? ==>
      var n := Stride(zoom).value;
      var info := o.value;
      && info.baseCameraHeight * n == cfg.mapHeight && info.baseCameraWidth * n == cfg.mapWidth
      && info.baseCameraHeight % 2 == 0 && info.baseCameraWidth % 2 == 0
      && info.baseCameraHeight >= 2 && info.baseCameraWidth >= 2
      && (info.chunksCount.0 == n + 1 <==> verticalOffset != 0) && n <= info.chunksCount.0 <= n + 1
      && (info.chunksCount.1 == n + 1 <==> horizontalOffset != 0) && n <= info.chunksCount.1 <= n + 1
      && (info.heightRangeStart == cfg.startingIndexes[zoom].0 - 1 <==> verticalOffset < 0)
      && (info.widthRangeStart == cfg.startingIndexes[zoom].1 - 1 <==> horizontalOffset < 0)
      && cfg.startingIndexes[zoom].0 - 1 <= info.heightRangeStart <= cfg.startingIndexes[zoom].0
      && cfg.startingIndexes[zoom].1 - 1 <= info.widthRangeStart <= cfg.startingIndexes[zoom].1
  {
    if !(1 <= zoom <= 5 && zoom in cfg.startingIndexes) then None
    else
      var n := Stride(zoom).value;
      TileSide(cfg.mapHeight, n);
      TileSide(cfg.mapWidth, n);
      var countY := if Abs(verticalOffset) != 0 then n + 1 else n;
      var countX := if Abs(horizontalOffset) != 0 then n + 1 else n;
      var startY := cfg.startingIndexes[zoom].0 - (if verticalOffset < 0 then 1 else 0);
      var startX := cfg.startingIndexes[zoom].1 - (if horizontalOffset < 0 then 1 else 0);
      Some(ChunksInformation(cfg.mapHeight / n, cfg.mapWidth / n, (countY, countX), startY, startX))
  }

  // ---------------------------------------------------------------------
  // One axis: the spans the dispatcher emits and numpy's clamp
  // ---------------------------------------------------------------------

  /**
   * The spans the dispatcher returns along one axis for `count` tiles: the
   * start span first, the ending span last, middle spans between, each
   * later one placed at the cursor the previous calls left.
   */
  function AxisSpans(chunk: int, offset: int, count: nat): (spans: seq<Span>)
    ensures |spans| == count
  {
    var first := StartSpan(chunk, offset);
    seq(count, k requires 0 <= k < count =>
      if k == 0 then first
      else if k == count - 1 then EndingSpan(first.cameraEnd + (k - 1) * chunk, chunk, offset)
      else MiddleSpan(first.cameraEnd + (k - 1) * chunk, chunk))
  }

  /** First buffer index a span writes once numpy has normalised its start. */
  function DestLo(s: Span, dim: nat): nat
  {
    SliceBound(s.cameraStart, dim)
  }

  /** One past the last buffer index a span writes: numpy clamps the end to the buffer. */
  function DestHi(s: Span, dim: nat): (hi: nat)
    ensures DestLo(s, dim) <= hi <= dim
  {
    SliceEnd(s.cameraStart, s.cameraEnd, dim)
  }

  /**
   * The spans tile [0, dim) in order: the first starts at 0, each starts
   * where the previous one ends, the last ends at dim; each source span lies
   * inside a tile of `chunk` cells and is exactly as long as its destination.
   */
  predicate TilesAxis(spans: seq<Span>, dim: nat, chunk: int)
  {
    && |spans| >= 1
    && DestLo(spans[0], dim) == 0
    && DestHi(spans[|spans| - 1], dim) == dim
    && (forall k :: 0 <= k < |spans| - 1 ==> DestHi(spans[k], dim) == DestLo(spans[k + 1], dim))
    && (forall k :: 0 <= k < |spans| ==>
          && 0 <= spans[k].startIndex <= spans[k].endIndex <= chunk
          && DestHi(spans[k], dim) - DestLo(spans[k], dim) == spans[k].endIndex - spans[k].startIndex)
  }

  /** The number of tiles along an axis: one more than the stride when the axis is scrolled. */
  function TileCount(n: nat, offset: int): nat
  {
    n + (if offset != 0 then 1 else 0)
  }

  /** Where the start span's destination ends: every later span starts a whole tile further. */
  function FirstEnd(chunk: int, offset: int): int
  {
    StartSpan(chunk, offset).cameraEnd
  }

  /** How many cells the last tile along an axis shows. */
  function LastLength(chunk: int, offset: int): int
  {
    if offset == 0 then chunk else if offset > 0 then Abs(offset) else chunk - Abs(offset)
  }

  /** The cursor of the last tile is the buffer side minus what that tile shows. */
  lemma LastCursor(n: nat, chunk: nat, offset: int)
    requires n >= 1 && chunk >= 1 && Abs(offset) <= chunk && TileCount(n, offset) >= 2
    ensures FirstEnd(chunk, offset) + (TileCount(n, offset) - 2) * chunk == n * chunk - LastLength(chunk, offset)
  {
    var count := TileCount(n, offset);
    if offset == 0 {
      assert (count - 2) * chunk == n * chunk - 2 * chunk;
    } else {
      assert (count - 2) * chunk == n * chunk - chunk;
    }
  }

  /** The clamped destination and the source of the k-th span along an axis. */
  lemma AxisSpanAt(n: nat, chunk: nat, offset: int, k: nat)
    requires n >= 1 && chunk >= 1 && Abs(offset) <= chunk && k < TileCount(n, offset)
    ensures var s := AxisSpans(chunk, offset, TileCount(n, offset))[k];
      && 0 <= s.startIndex <= s.endIndex <= chunk
      && DestLo(s, n * chunk) == (if k == 0 then 0 else FirstEnd(chunk, offset) + (k - 1) * chunk)
      && DestHi(s, n * chunk) == (if k == TileCount(n, offset) - 1 then n * chunk else FirstEnd(chunk, offset) + k * chunk)
      && DestHi(s, n * chunk) - DestLo(s, n * chunk) == s.endIndex - s.startIndex
  {
    var count := TileCount(n, offset);
    MulMono(1, n, chunk);
    if k == 0 {
      assert k * chunk == 0;
      if count == 1 {
        assert n == 1;
      }
    } else {
      LastCursor(n, chunk, offset);
      MulMono(k - 1, count - 2, chunk);
      if k < count - 1 {
        MiddleSpanAt(n, chunk, offset, k);
      } else {
        LastSpanAt(n, chunk, offset);
      }
    }
  }

  /** A middle span lands whole inside the buffer, a tile after the one before it. */
  lemma MiddleSpanAt(n: nat, chunk: nat, offset: int, k: nat)
    requires n >= 1 && chunk >= 1 && Abs(offset) <= chunk && 1 <= k < TileCount(n, offset) - 1
    ensures var s := AxisSpans(chunk, offset, TileCount(n, offset))[k];
      && s == MiddleSpan(FirstEnd(chunk, offset) + (k - 1) * chunk, chunk)
      && 0 <= s.cameraStart && s.cameraEnd == FirstEnd(chunk, offset) + k * chunk <= n * chunk
  {
    LastCursor(n, chunk, offset);
    var count := TileCount(n, offset);
    MulMono(k - 1, count - 2, chunk);
    MulMono(k, count - 2, chunk);
    assert (k - 1) * chunk + chunk == k * chunk;
  }

  /** The last span starts where the buffer minus what it shows begins. */
  lemma LastSpanAt(n: nat, chunk: nat, offset: int)
    requires n >= 1 && chunk >= 1 && Abs(offset) <= chunk && TileCount(n, offset) >= 2
    ensures var s := AxisSpans(chunk, offset, TileCount(n, offset))[TileCount(n, offset) - 1];
      && s == EndingSpan(n * chunk - LastLength(chunk, offset), chunk, offset)
      && s.endIndex == LastLength(chunk, offset)
  {
    LastCursor(n, chunk, offset);
  }

  /**
   * Partition of unity along one axis: with a buffer side of n whole tiles and
   * an offset of at most one tile, the dispatcher's spans, clamped as numpy
   * clamps them, tile the buffer with no gap and no overlap, and every
   * source span matches its destination in length.
   */
  lemma AxisPartition(n: nat, chunk: nat, offset: int)
    requires n >= 1 && chunk >= 1 && Abs(offset) <= chunk
    ensures TilesAxis(AxisSpans(chunk, offset, TileCount(n, offset)), n * chunk, chunk)
  {
    var spans := AxisSpans(chunk, offset, TileCount(n, offset));
    forall k | 0 <= k < |spans|
      ensures 0 <= spans[k].startIndex <= spans[k].endIndex <= chunk
      ensures DestHi(spans[k], n * chunk) - DestLo(spans[k], n * chunk) == spans[k].endIndex - spans[k].startIndex
    {
      AxisSpanAt(n, chunk, offset, k);
    }
    forall k | 0 <= k < |spans| - 1
      ensures DestHi(spans[k], n * chunk) == DestLo(spans[k + 1], n * chunk)
    {
      AxisSpanAt(n, chunk, offset, k);
      AxisSpanAt(n, chunk, offset, k + 1);
    }
    AxisSpanAt(n, chunk, offset, 0);
    AxisSpanAt(n, chunk, offset, |spans| - 1);
  }

  /** Tiling spans do not overlap: an earlier span ends before a later one begins. */
  lemma {:induction false} TilesAxisDisjoint(spans: seq<Span>, dim: nat, chunk: int, k1: nat, k2: nat)
    requires TilesAxis(spans, dim, chunk) && k1 < k2 < |spans|
    ensures DestHi(spans[k1], dim) <= DestLo(spans[k2], dim)
    decreases k2 - k1
  {
    if k1 + 1 < k2 {
      TilesAxisDisjoint(spans, dim, chunk, k1 + 1, k2);
    }
  }

  /** The span of a tiling that holds buffer index p, searching from span k on. */
  function AxisOwner(spans: seq<Span>, dim: nat, chunk: int, p: int, k: nat): (o: nat)
    requires TilesAxis(spans, dim, chunk) && k < |spans| && DestLo(spans[k], dim) <= p < dim
    ensures k <= o < |spans| && DestLo(spans[o], dim) <= p < DestHi(spans[o], dim)
    decreases |spans| - k
  {
    if p < DestHi(spans[k], dim) then k else AxisOwner(spans, dim, chunk, p, k + 1)
  }

  /** Only one span of a tiling holds a given buffer index. */
  lemma AxisOwnerUnique(spans: seq<Span>, dim: nat, chunk: int, p: int, k: nat)
    requires TilesAxis(spans, dim, chunk) && 0 <= p < dim
    requires k < |spans| && DestLo(spans[k], dim) <= p < DestHi(spans[k], dim)
    ensures k == AxisOwner(spans, dim, chunk, p, 0)
  {
    var o := AxisOwner(spans, dim, chunk, p, 0);
    if k < o {
      TilesAxisDisjoint(spans, dim, chunk, k, o);
    } else if o < k {
      TilesAxisDisjoint(spans, dim, chunk, o, k);
    }
  }

  /**
   * Without numpy's clamp the decomposition would not hold: whenever the
   * offset is a non-zero part of a tile, the last span ends past the buffer.
   */
  lemma EndingOverrunsBuffer(n: nat, chunk: nat, offset: int)
    requires n >= 1 && chunk >= 1 && 0 < Abs(offset) < chunk
    ensures AxisSpans(chunk, offset, TileCount(n, offset))[n].cameraEnd > n * chunk
  {
    var spans := AxisSpans(chunk, offset, TileCount(n, offset));
    assert spans[n].cameraEnd == FirstEnd(chunk, offset) + (n - 1) * chunk + chunk;
    assert (n - 1) * chunk == n * chunk - chunk;
  }

  // ---------------------------------------------------------------------
  // Columns and rows of the world grid
  // ---------------------------------------------------------------------

  /**
   * The column fix-up of get_array_and_camera and get_new_area_near_center:
   * a column left of 0 becomes maxH - |modifier|, one right of maxH becomes
   * |modifier| (the second test of get_array_and_camera can never fire after
   * the first, so its `if`/`if` and the neighbour loop's `if`/`elif` agree).
   */
  function WrapColumn(x: int, modifier: int, maxH: int): int
  {
    if x < 0 then maxH - Abs(modifier)
    else if x > maxH then Abs(modifier)
    else x
  }

  /** From a centre column in range, a modifier no wider than the grid lands in [0, maxH]. */
  lemma WrapColumnInRange(center: int, modifier: int, maxH: int)
    requires 0 <= center <= maxH && Abs(modifier) <= maxH
    ensures 0 <= WrapColumn(center + modifier, modifier, maxH) <= maxH
  {
  }

  /**
   * The wrap is not arithmetic modulo the number of columns: for a centre in
   * range it agrees with `(center + modifier) mod (maxH + 1)` exactly when no
   * wrapping happens.
   */
  lemma WrapColumnIsNotModular(center: int, modifier: int, maxH: int)
    requires 0 <= center <= maxH && Abs(modifier) <= maxH
    ensures WrapColumn(center + modifier, modifier, maxH) == (center + modifier) % (maxH + 1)
      <==> 0 <= center + modifier <= maxH
  {
    ModNearZero(center + modifier, maxH + 1);
  }

  /** Remainder of a value less than one divisor away from [0, d). */
  lemma ModNearZero(x: int, d: int)
    requires d > 0 && -d <= x < 2 * d
    ensures x % d == if x < 0 then x + d else if x < d then x else x - d
  {
    var q := x / d;
    assert x == d * q + x % d;
    if q <= -2 {
      MulMono(q, -2, d);
    } else if q >= 2 {
      MulMono(2, q, d);
    } else {
      assert q == -1 || q == 0 || q == 1;
    }
  }

  /** A tile position: row kept only inside [0, maxV], column wrapped. */
  function TilePosition(cfg: Config, center: (int, int), verticalModifier: int, horizontalModifier: int): Option<(int, int)>
  {
    var y := center.0 + verticalModifier;
    if y < 0 || y > cfg.maxVerticalChunk then None
    else Some((y, WrapColumn(center.1 + horizontalModifier, horizontalModifier, cfg.maxHorizontalChunk)))
  }

  // ---------------------------------------------------------------------
  // get_array_and_camera, as a function of the viewport
  // ---------------------------------------------------------------------

  /** One entry of get_array_and_camera's result. */
  datatype Placement = Placement(position: (int, int), indexes: Rect, camera: Rect)

  /** Whether the k-th row of tiles lies inside the grid (get_array_and_camera skips it otherwise). */
  predicate RowShown(cfg: Config, center: (int, int), info: ChunksInformation, k: int)
  {
    TilePosition(cfg, center, info.heightRangeStart + k, 0).Some?
  }

  /** The placement of the tile in row k and column j of the viewport. */
  function PlacementAt(cfg: Config, center: (int, int), info: ChunksInformation, ys: seq<Span>, xs: seq<Span>, k: nat, j: nat): Placement
    requires k < |ys| && j < |xs| && RowShown(cfg, center, info, k)
  {
    Placement(
      TilePosition(cfg, center, info.heightRangeStart + k, info.widthRangeStart + j).value,
      Rect(ys[k].startIndex, ys[k].endIndex, xs[j].startIndex, xs[j].endIndex),
      Rect(ys[k].cameraStart, ys[k].cameraEnd, xs[j].cameraStart, xs[j].cameraEnd))
  }

  /** The placements of one row of tiles (none when the row is outside the grid). */
  function RowPlacements(cfg: Config, center: (int, int), info: ChunksInformation, ys: seq<Span>, xs: seq<Span>, k: nat): (row: seq<Placement>)
    requires k < |ys|
    ensures row == [] || |row| == |xs|
  {
    if !RowShown(cfg, center, info, k) then []
    else seq(|xs|, j requires 0 <= j < |xs| => PlacementAt(cfg, center, info, ys, xs, k, j))
  }

  /** The placements of the first k rows of tiles, row by row. */
  function PlacementsUpTo(cfg: Config, center: (int, int), info: ChunksInformation, ys: seq<Span>, xs: seq<Span>, k: nat): seq<Placement>
    requires k <= |ys|
  {
    if k == 0 then [] else PlacementsUpTo(cfg, center, info, ys, xs, k - 1) + RowPlacements(cfg, center, info, ys, xs, k - 1)
  }

  /** The row spans and column spans of a viewport. */
  function RowSpans(info: ChunksInformation, verticalOffset: int): seq<Span>
  {
    AxisSpans(info.baseCameraHeight, verticalOffset, info.chunksCount.0)
  }

  function ColumnSpans(info: ChunksInformation, horizontalOffset: int): seq<Span>
  {
    AxisSpans(info.baseCameraWidth, horizontalOffset, info.chunksCount.1)
  }

  /** get_array_and_camera: every visible tile with its source cut and destination rectangle. */
  function ArrayAndCamera(cfg: Config, zoom: int, center: (int, int), verticalOffset: int, horizontalOffset: int): Option<seq<Placement>>
    requires ValidConfig(cfg)
  {
    match ChunksAndInformations(cfg, zoom, verticalOffset, horizontalOffset)
    case None => None
    case Some(info) =>
      var ys := RowSpans(info, verticalOffset);
      Some(PlacementsUpTo(cfg, center, info, ys, ColumnSpans(info, horizontalOffset), |ys|))
  }

  /**
   * The placements of the first K rows are exactly the tiles of the shown
   * rows among them, every column of each.
   */
  lemma {:induction false} PlacementsUpToMembers(cfg: Config, center: (int, int), info: ChunksInformation, ys: seq<Span>, xs: seq<Span>, K: nat)
    requires K <= |ys|
    ensures forall p :: p in PlacementsUpTo(cfg, center, info, ys, xs, K) ==>
      exists k, j :: 0 <= k < K && 0 <= j < |xs| && RowShown(cfg, center, info, k) && p == PlacementAt(cfg, center, info, ys, xs, k, j)
    ensures forall k, j :: 0 <= k < K && 0 <= j < |xs| && RowShown(cfg, center, info, k) ==>
      PlacementAt(cfg, center, info, ys, xs, k, j) in PlacementsUpTo(cfg, center, info, ys, xs, K)
  {
    if K > 0 {
      PlacementsUpToMembers(cfg, center, info, ys, xs, K - 1);
      var k := K - 1;
      var row := RowPlacements(cfg, center, info, ys, xs, k);
      forall p | p in row
        ensures exists j :: 0 <= j < |xs| && RowShown(cfg, center, info, k) && p == PlacementAt(cfg, center, info, ys, xs, k, j)
      {
        var j :| 0 <= j < |row| && row[j] == p;
      }
      forall j | 0 <= j < |xs| && RowShown(cfg, center, info, k)
        ensures PlacementAt(cfg, center, info, ys, xs, k, j) in row
      {
        assert row[j] == PlacementAt(cfg, center, info, ys, xs, k, j);
      }
    }
  }

  /**
   * Every position get_array_and_camera emits has its row in [0, maxV]; its
   * column is in [0, maxH] when the centre column is and every column
   * modifier of the viewport is at most maxH in magnitude.
   */
  lemma ArrayAndCameraInGrid(cfg: Config, zoom: int, center: (int, int), verticalOffset: int, horizontalOffset: int)
    requires ValidConfig(cfg)
    ensures match ArrayAndCamera(cfg, zoom, center, verticalOffset, horizontalOffset)
      case None => true
      case Some(ps) =>
        var info := ChunksAndInformations(cfg, zoom, verticalOffset, horizontalOffset).value;
        forall p :: p in ps ==>
          && 0 <= p.position.0 <= cfg.maxVerticalChunk
          && (0 <= center.1 <= cfg.maxHorizontalChunk
              && Abs(info.widthRangeStart) <= cfg.maxHorizontalChunk
              && Abs(info.widthRangeStart + info.chunksCount.1 - 1) <= cfg.maxHorizontalChunk
              ==> 0 <= p.position.1 <= cfg.maxHorizontalChunk)
  {
    match ChunksAndInformations(cfg, zoom, verticalOffset, horizontalOffset)
    case None =>
    case Some(info) =>
      var ys, xs := RowSpans(info, verticalOffset), ColumnSpans(info, horizontalOffset);
      PlacementsUpToMembers(cfg, center, info, ys, xs, |ys|);
      forall p | p in PlacementsUpTo(cfg, center, info, ys, xs, |ys|)
        ensures 0 <= p.position.0 <= cfg.maxVerticalChunk
        ensures 0 <= center.1 <= cfg.maxHorizontalChunk
              && Abs(info.widthRangeStart) <= cfg.maxHorizontalChunk
              && Abs(info.widthRangeStart + info.chunksCount.1 - 1) <= cfg.maxHorizontalChunk
              ==> 0 <= p.position.1 <= cfg.maxHorizontalChunk
      {
        var k, j :| 0 <= k < |ys| && 0 <= j < |xs| && RowShown(cfg, center, info, k) && p == PlacementAt(cfg, center, info, ys, xs, k, j);
        if 0 <= center.1 <= cfg.maxHorizontalChunk
          && Abs(info.widthRangeStart) <= cfg.maxHorizontalChunk
          && Abs(info.widthRangeStart + info.chunksCount.1 - 1) <= cfg.maxHorizontalChunk
        {
          WrapColumnInRange(center.1, info.widthRangeStart + j, cfg.maxHorizontalChunk);
        }
      }
  }

  // ---------------------------------------------------------------------
  // get_new_area_near_center, as a function
  // ---------------------------------------------------------------------

  /** How far around the centre tiles are requested: 1, 2, 3, 6 and 11 tiles for levels 5..1. */
  function Radius(zoom: int): (r: Option<int>)
    ensures r.Some? <==> 1 <= zoom <= 5
    ensures r.Some? ==> 1 <= r.value <= 11
  {
    if zoom == 5 then Some(1)
    else if zoom == 4 then Some(2)
    else if zoom == 3 then Some(3)
    else if zoom == 2 then Some(6)
    else if zoom == 1 then Some(11)
    else None
  }

  /**
   * The positions of the first `count` horizontal modifiers -r, -r+1, ...
   * of the row at vertical modifier `vm` that are not already known.
   */
  function NeighbourRow(cfg: Config, center: (int, int), r: int, vm: int, known: set<(int, int)>, count: nat): seq<(int, int)>
  {
    if count == 0 then []
    else
      var rest := NeighbourRow(cfg, center, r, vm, known, count - 1);
      match TilePosition(cfg, center, vm, -r + count - 1)
      case Some(pos) => if pos !in known then rest + [pos] else rest
      case None => rest
  }

  /** The new positions of the first `count` rows (vertical modifiers -r, -r+1, ...). */
  function NeighboursUpTo(cfg: Config, center: (int, int), r: int, known: set<(int, int)>, count: nat): seq<(int, int)>
    requires r >= 0
  {
    if count == 0 then []
    else NeighboursUpTo(cfg, center, r, known, count - 1) + NeighbourRow(cfg, center, r, -r + count - 1, known, 2 * r + 1)
  }

  /** get_new_area_near_center: the unknown positions of the square of radius r around the centre, row by row. */
  function NewAreasNearCenter(cfg: Config, center: (int, int), zoom: int, known: set<(int, int)>): Option<seq<(int, int)>>
  {
    match Radius(zoom)
    case None => None
    case Some(r) => Some(NeighboursUpTo(cfg, center, r, known, 2 * r + 1))
  }

  /** The positions a neighbour row lists are exactly its in-grid, unknown tiles. */
  lemma {:induction false} NeighbourRowMembers(cfg: Config, center: (int, int), r: int, vm: int, known: set<(int, int)>, count: nat)
    ensures forall pos :: pos in NeighbourRow(cfg, center, r, vm, known, count) <==>
      pos !in known && exists h :: -r <= h < -r + count && TilePosition(cfg, center, vm, h) == Some(pos)
  {
    if count > 0 {
      NeighbourRowMembers(cfg, center, r, vm, known, count - 1);
    }
  }

  /** The positions the first rows list are exactly their in-grid, unknown tiles. */
  lemma {:induction false} NeighboursUpToMembers(cfg: Config, center: (int, int), r: int, known: set<(int, int)>, count: nat)
    requires r >= 0
    ensures forall pos :: pos in NeighboursUpTo(cfg, center, r, known, count) <==>
      pos !in known && exists v, h :: -r <= v < -r + count && -r <= h <= r && TilePosition(cfg, center, v, h) == Some(pos)
  {
    if count > 0 {
      var vm := -r + count - 1;
      var prev, row := NeighboursUpTo(cfg, center, r, known, count - 1), NeighbourRow(cfg, center, r, vm, known, 2 * r + 1);
      NeighboursUpToMembers(cfg, center, r, known, count - 1);
      NeighbourRowMembers(cfg, center, r, vm, known, 2 * r + 1);
      forall pos | pos !in known && exists v, h :: -r <= v < -r + count && -r <= h <= r && TilePosition(cfg, center, v, h) == Some(pos)
        ensures pos in prev + row
      {
        var v, h :| -r <= v < -r + count && -r <= h <= r && TilePosition(cfg, center, v, h) == Some(pos);
        if v == vm {
          assert pos in row;
        } else {
          assert pos in prev;
        }
      }
    }
  }

  /**
   * get_new_area_near_center returns exactly the unknown tiles within the
   * level's radius of the centre whose row lies in the grid; with the centre
   * column in range and maxH at least the radius, their columns are in range.
   */
  lemma NewAreasNearCenterExact(cfg: Config, center: (int, int), zoom: int, known: set<(int, int)>)
    requires 1 <= zoom <= 5
    ensures var r := Radius(zoom).value;
      && NewAreasNearCenter(cfg, center, zoom, known).Some?
      && (forall pos :: pos in NewAreasNearCenter(cfg, center, zoom, known).value <==>
           pos !in known && exists v, h :: -r <= v <= r && -r <= h <= r && TilePosition(cfg, center, v, h) == Some(pos))
      && (forall pos :: pos in NewAreasNearCenter(cfg, center, zoom, known).value ==>
           Abs(pos.0 - center.0) <= r && 0 <= pos.0 <= cfg.maxVerticalChunk
           && (0 <= center.1 <= cfg.maxHorizontalChunk && r <= cfg.maxHorizontalChunk ==> 0 <= pos.1 <= cfg.maxHorizontalChunk))
  {
    var r := Radius(zoom).value;
    NeighboursUpToMembers(cfg, center, r, known, 2 * r + 1);
    forall pos | pos in NewAreasNearCenter(cfg, center, zoom, known).value
      ensures Abs(pos.0 - center.0) <= r && 0 <= pos.0 <= cfg.maxVerticalChunk
      ensures 0 <= center.1 <= cfg.maxHorizontalChunk && r <= cfg.maxHorizontalChunk ==> 0 <= pos.1 <= cfg.maxHorizontalChunk
    {
      var v, h :| -r <= v <= r && -r <= h <= r && TilePosition(cfg, center, v, h) == Some(pos);
      if 0 <= center.1 <= cfg.maxHorizontalChunk && r <= cfg.maxHorizontalChunk {
        WrapColumnInRange(center.1, h, cfg.maxHorizontalChunk);
      }
    }
  }
}
