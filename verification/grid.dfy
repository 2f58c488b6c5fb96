/**
 * Values shared by the whole model: an optional value, the cells of a raster
 * (an elevation or the no-data sentinel), rasters as rows of cells, and the
 * semantics of a Python/numpy slice `s[lo:hi]` with step 1.
 */
module Grid {

  datatype Option<T> = None | Some(value: T)

  /**
   * One raster cell. `NoData` stands for the no-data fill the source writes
   * with `fill(None)`; here it is an ordinary value with ordinary equality.
   */
  datatype Node = NoData | Height(value: int)

  /** A raster: a sequence of rows. */
  type Raster = seq<seq<Node>>

  /**
   * A rectangle given as half-open row and column bounds, the shape of the
   * source's `indexes` and `camera` dictionaries (starting_y, ending_y,
   * starting_x, ending_x).
   */
  datatype Rect = Rect(startY: int, endY: int, startX: int, endX: int)

  /** The raster has `h` rows of `w` cells each. */
  predicate IsRect<T>(r: seq<seq<T>>, h: nat, w: nat)
  {
    |r| == h && forall i :: 0 <= i < h ==> |r[i]| == w
  }

  /** A raster of the given shape filled with the no-data value. */
  function Filled(h: nat, w: nat): (r: Raster)
    ensures IsRect(r, h, w)
    ensures forall i, j :: 0 <= i < h && 0 <= j < w ==> r[i][j] == NoData
  {
    seq(h, _ => seq(w, _ => NoData))
  }

  /**
   * How Python normalises one bound of a slice with step 1 over a sequence of
   * length n: a negative bound counts from the end, and the result is clamped
   * to [0, n].
   */
  function SliceBound(i: int, n: nat): (k: nat)
    ensures k <= n
    ensures 0 <= i <= n ==> k == i
    ensures i > n ==> k == n
  {
    if i < 0 then (if i + n < 0 then 0 else i + n)
    else if i > n then n
    else i
  }

  /**
   * Where a slice `[lo:hi]` over n elements stops: the normalised end, or the
   * normalised start when the bounds cross (the slice is then empty).
   */
  function SliceEnd(lo: int, hi: int, n: nat): (k: nat)
    ensures SliceBound(lo, n) <= k <= n
    ensures 0 <= lo <= hi <= n ==> k == hi
    ensures 0 <= lo <= n <= hi ==> k == n
  {
    var a, b := SliceBound(lo, n), SliceBound(hi, n);
    if b < a then a else b
  }

  /** `s[lo:hi]` in Python: both bounds normalised, empty when they cross. */
  function Slice<T>(s: seq<T>, lo: int, hi: int): (r: seq<T>)
    ensures r == s[SliceBound(lo, |s|)..SliceEnd(lo, hi, |s|)]
    ensures 0 <= lo <= hi <= |s| ==> r == s[lo..hi]
    ensures 0 <= lo <= |s| <= hi ==> r == s[lo..]
  {
    var a, b := SliceBound(lo, |s|), SliceBound(hi, |s|);
    if a <= b then s[a..b] else []
  }

  /** Multiplying by a non-negative factor keeps the order. */
  lemma MulMono(a: int, b: int, c: nat)
    requires a <= b
    ensures a * c <= b * c
  {
  }
}
