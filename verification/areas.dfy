/**
 * One tile of the map (area.py): its row id, its position, its raster, and
 * the zoom sampler that decimates the raster and cuts the displayed part.
 */
module Areas {
  import opened Grid

  /**
   * The decimation stride of each zoom level, as get_zoomed_raster applies
   * it: level 5 keeps everything, levels 4, 3, 2, 1 keep every 2nd, 4th,
   * 10th and 20th row and column. Any other level has no stride.
   */
  function Stride(zoom: int): (s: Option<nat>)
    ensures s.Some? <==> 1 <= zoom <= 5
    ensures s.Some? ==> s.value in {1, 2, 4, 10, 20}
    ensures zoom == 5 ==> s == Some(1)
  {
    if zoom == 5 then Some(1)
    else if zoom == 4 then Some(2)
    else if zoom == 3 then Some(4)
    else if zoom == 2 then Some(10)
    else if zoom == 1 then Some(20)
    else None
  }

  /** Number of elements `s[::step]` keeps from n elements: ceil(n / step). */
  function Kept(n: nat, step: nat): nat
    requires step >= 1
  {
    (n + step - 1) / step
  }

  /** Every index the strided slice keeps lies inside the sequence. */
  lemma KeptInBounds(n: nat, step: nat)
    requires step >= 1
    ensures forall k: nat :: k < Kept(n, step) ==> k * step < n
  {
    var q := Kept(n, step);
    assert q * step <= n + step - 1;
    forall k: nat | k < q
      ensures k * step < n
    {
      MulMono(k, q - 1, step);
    }
  }

  /** `s[::step]`: the elements at indexes 0, step, 2*step, ... */
  function Every<T>(s: seq<T>, step: nat): (r: seq<T>)
    requires step >= 1
    ensures |r| == Kept(|s|, step)
    ensures forall k :: 0 <= k < |r| ==> k * step < |s| && r[k] == s[k * step]
  {
    KeptInBounds(|s|, step);
    seq(Kept(|s|, step), k requires 0 <= k < Kept(|s|, step) => s[k * step])
  }

  /** `raster[::step, ::step]`: every step-th row, and every step-th cell of it. */
  function Decimate(r: Raster, step: nat): (d: Raster)
    requires step >= 1
  {
    var rows := Every(r, step);
    seq(|rows|, i requires 0 <= i < |rows| => Every(rows[i], step))
  }

  /** Stride 1 keeps the raster as it is. */
  lemma DecimateByOne(r: Raster)
    ensures Decimate(r, 1) == r
  {
    forall i | 0 <= i < |r|
      ensures Every(r[i], 1) == r[i]
    {
    }
  }

  /**
   * The decimated raster has ceil(h/step) rows of ceil(w/step) cells, and its
   * cell [i][j] is the cell [i*step][j*step] of the original, whatever the
   * raster holds.
   */
  lemma DecimateSamples(r: Raster, step: nat, h: nat, w: nat)
    requires step >= 1 && IsRect(r, h, w)
    ensures IsRect(Decimate(r, step), Kept(h, step), Kept(w, step))
    ensures forall i, j :: 0 <= i < Kept(h, step) && 0 <= j < Kept(w, step) ==>
      i * step < h && j * step < w && Decimate(r, step)[i][j] == r[i * step][j * step]
  {
    var d := Decimate(r, step);
    var rows := Every(r, step);
    forall i | 0 <= i < Kept(h, step)
      ensures i * step < h && d[i] == Every(r[i * step], step) && |d[i]| == Kept(w, step)
    {
      assert rows[i] == r[i * step];
    }
    forall i, j | 0 <= i < Kept(h, step) && 0 <= j < Kept(w, step)
      ensures i * step < h && j * step < w && d[i][j] == r[i * step][j * step]
    {
      var row := r[i * step];
      assert |row| == w && d[i] == Every(row, step);
    }
  }

  /**
   * get_zoomed_raster: the raster unchanged at level 5, decimated by the
   * level's stride at levels 4..1, and nothing (Python's None) at any other level.
   */
  function ZoomedRaster(r: Raster, zoom: int): (o: Option<Raster>)
    ensures o.Some? <==> 1 <= zoom <= 5
    ensures zoom == 5 ==> o == Some(r)
    ensures o.Some? ==> o.value == Decimate(r, Stride(zoom).value)
  {
    if zoom == 5 then DecimateByOne(r); Some(r)
    else if 1 <= zoom <= 4 then Some(Decimate(r, Stride(zoom).value))
    else None
  }

  /** get_subset_of_nodes: `raster[startY:endY, startX:endX]`. */
  function SubsetOfNodes(r: Raster, cut: Rect): (sub: Raster)
  {
    var rows := Slice(r, cut.startY, cut.endY);
    seq(|rows|, i requires 0 <= i < |rows| => Slice(rows[i], cut.startX, cut.endX))
  }

  /** A cut inside the raster is a block of its shape holding the cells it covers. */
  lemma SubsetOfNodesBlock(r: Raster, cut: Rect, h: nat, w: nat)
    requires IsRect(r, h, w)
    requires 0 <= cut.startY <= cut.endY <= h && 0 <= cut.startX <= cut.endX <= w
    ensures IsRect(SubsetOfNodes(r, cut), cut.endY - cut.startY, cut.endX - cut.startX)
    ensures forall i, j :: 0 <= i < cut.endY - cut.startY && 0 <= j < cut.endX - cut.startX ==>
      SubsetOfNodes(r, cut)[i][j] == r[cut.startY + i][cut.startX + j]
  {
  }

  /** get_displayed_nodes on a raster: the cut of its zoomed view (nothing at an unknown level). */
  function DisplayedNodes(r: Raster, zoom: int, indexes: Rect): (o: Option<Raster>)
    ensures o.Some? <==> 1 <= zoom <= 5
  {
    match ZoomedRaster(r, zoom)
    case None => None
    case Some(zoomed) => Some(SubsetOfNodes(zoomed, indexes))
  }

  /**
   * What a tile contributes: for a cut inside its zoomed view, cell [i][j] of
   * the result is the original cell at ((startY + i) * stride, (startX + j) * stride).
   */
  lemma DisplayedNodesSamples(r: Raster, zoom: int, indexes: Rect, h: nat, w: nat)
    requires IsRect(r, h, w) && 1 <= zoom <= 5
    requires 0 <= indexes.startY <= indexes.endY <= Kept(h, Stride(zoom).value)
    requires 0 <= indexes.startX <= indexes.endX <= Kept(w, Stride(zoom).value)
    ensures var s := Stride(zoom).value;
      && DisplayedNodes(r, zoom, indexes).Some?
      && IsRect(DisplayedNodes(r, zoom, indexes).value, indexes.endY - indexes.startY, indexes.endX - indexes.startX)
      && forall i, j :: 0 <= i < indexes.endY - indexes.startY && 0 <= j < indexes.endX - indexes.startX ==>
        (indexes.startY + i) * s < h && (indexes.startX + j) * s < w &&
        DisplayedNodes(r, zoom, indexes).value[i][j] == r[(indexes.startY + i) * s][(indexes.startX + j) * s]
  {
    var s := Stride(zoom).value;
    var d := Decimate(r, s);
    DecimateSamples(r, s, h, w);
    SubsetOfNodesBlock(d, indexes, Kept(h, s), Kept(w, s));
    var o := SubsetOfNodes(d, indexes);
    assert DisplayedNodes(r, zoom, indexes) == Some(o);
    forall i, j | 0 <= i < indexes.endY - indexes.startY && 0 <= j < indexes.endX - indexes.startX
      ensures (indexes.startY + i) * s < h && (indexes.startX + j) * s < w
      ensures o[i][j] == r[(indexes.startY + i) * s][(indexes.startX + j) * s]
    {
      assert o[i][j] == d[indexes.startY + i][indexes.startX + j];
    }
  }

  /** One cell of DisplayedNodesSamples, with its source index in range. */
  lemma DisplayedNodesCell(r: Raster, zoom: int, indexes: Rect, h: nat, w: nat, i: int, j: int)
    requires IsRect(r, h, w) && 1 <= zoom <= 5
    requires 0 <= indexes.startY <= indexes.endY <= Kept(h, Stride(zoom).value)
    requires 0 <= indexes.startX <= indexes.endX <= Kept(w, Stride(zoom).value)
    requires 0 <= i < indexes.endY - indexes.startY && 0 <= j < indexes.endX - indexes.startX
    ensures DisplayedNodes(r, zoom, indexes).Some?
    ensures IsRect(DisplayedNodes(r, zoom, indexes).value, indexes.endY - indexes.startY, indexes.endX - indexes.startX)
    ensures 0 <= (indexes.startY + i) * Stride(zoom).value < h && 0 <= (indexes.startX + j) * Stride(zoom).value < w
    ensures DisplayedNodes(r, zoom, indexes).value[i][j] == r[(indexes.startY + i) * Stride(zoom).value][(indexes.startX + j) * Stride(zoom).value]
  {
    DisplayedNodesSamples(r, zoom, indexes, h, w);
    MulMono(0, indexes.startY + i, Stride(zoom).value);
    MulMono(0, indexes.startX + j, Stride(zoom).value);
  }

  /** A tile of the map, created empty and filled in once its raster is loaded. */
  class Area {
    var rid: int
    var position: (int, int)
    var raster: Raster

    /** A new tile keeps its row id and position and starts with the shared no-data raster. */
    constructor (rid: int, position: (int, int), height: nat, width: nat)
      ensures this.rid == rid && this.position == position
      ensures raster == Filled(height, width)
    {
      this.rid := rid;
      this.position := position;
      raster := Filled(height, width);
    }

    /** add_real_raster, after decoding: only the raster changes. */
    method AddRealRaster(decoded: Raster)
      modifies this`raster
      ensures raster == decoded
    {
      raster := decoded;
    }

    /** get_displayed_nodes on this tile's current raster. */
    function GetDisplayedNodes(zoom: int, indexes: Rect): Option<Raster>
      reads this
    {
      DisplayedNodes(raster, zoom, indexes)
    }
  }
}
