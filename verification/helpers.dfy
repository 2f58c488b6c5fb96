/**
 * The integer helpers of helpers.py that the compositor and the loader use:
 * table names, interval bounds, batching of row ids and the frame diff.
 */
module Helpers {

  // ---------------------------------------------------------------------
  // format_table_name (helpers.py:135-138)
  // ---------------------------------------------------------------------

  function DigitChar(d: nat): (c: char)
    requires d < 10
    ensures '0' <= c <= '9' && c as int - '0' as int == d
  {
    ('0' as int + d) as char
  }

  /** The decimal digits of n, most significant first, without leading zeros. */
  function Digits(n: nat): (s: string)
    ensures |s| >= 1 && forall k :: 0 <= k < |s| ==> '0' <= s[k] <= '9'
    ensures n < 10 <==> |s| == 1
    ensures 10 <= n < 100 <==> |s| == 2
    decreases n
  {
    if n < 10 then [DigitChar(n)] else Digits(n / 10) + [DigitChar(n % 10)]
  }

  /** Python's `f"{n:02}"`: at least two characters, zero-padded after the sign. */
  function Pad2(n: int): string
  {
    if n < 0 then "-" + Digits(-n)
    else if n < 10 then "0" + Digits(n)
    else Digits(n)
  }

  /** format_table_name: the two table coordinates, zero-padded, joined by `_`. */
  function FormatTableName(y: int, x: int): string
  {
    Pad2(y) + "_" + Pad2(x)
  }

  /** The value of a string of decimal digits, read most significant first. */
  function DecimalValue(s: string): nat
    requires forall k :: 0 <= k < |s| ==> '0' <= s[k] <= '9'
  {
    if s == [] then 0 else 10 * DecimalValue(s[..|s| - 1]) + (s[|s| - 1] as int - '0' as int)
  }

  /** Reading back the digits of n gives n. */
  lemma {:induction false} DigitsRoundTrip(n: nat)
    ensures DecimalValue(Digits(n)) == n
  {
    if n >= 10 {
      DigitsRoundTrip(n / 10);
      var s := Digits(n);
      assert s[..|s| - 1] == Digits(n / 10);
    }
  }

  /**
   * For table coordinates 0..99 the name has the shape `dd_dd`, and the two
   * numbers can be read back from it, so distinct tables get distinct names.
   */
  lemma FormatTableNameRoundTrip(y: int, x: int)
    requires 0 <= y <= 99 && 0 <= x <= 99
    ensures var name := FormatTableName(y, x);
      && |name| == 5 && name[2] == '_'
      && (forall k :: 0 <= k < 5 && k != 2 ==> '0' <= name[k] <= '9')
      && DecimalValue(name[..2]) == y && DecimalValue(name[3..]) == x
  {
    PaddedValue(y);
    PaddedValue(x);
    var name := FormatTableName(y, x);
    assert name[..2] == Pad2(y) && name[3..] == Pad2(x);
  }

  lemma PaddedValue(n: int)
    requires 0 <= n <= 99
    ensures |Pad2(n)| == 2 && forall k :: 0 <= k < 2 ==> '0' <= Pad2(n)[k] <= '9'
    ensures DecimalValue(Pad2(n)) == n
  {
    DigitsRoundTrip(n);
    if n < 10 {
      assert Pad2(n) == ['0', DigitChar(n)];
      assert Pad2(n)[..1] == ['0'];
    }
  }

  /** The example name from the loader: table (1, 0) is stored as `01_00`. */
  lemma FormatTableNameExample()
    ensures FormatTableName(1, 0) == "01_00"
  {
  }

  // ---------------------------------------------------------------------
  // generate_intervals, integer bounds only (helpers.py:140-145)
  // ---------------------------------------------------------------------

  /** Whether `range` with this step still yields i before reaching stop. */
  predicate InRange(i: int, stop: int, step: int)
  {
    (step > 0 && i < stop) || (step < 0 && i > stop)
  }

  /**
   * The (min, max) bounds of the intervals generated from `range(i, stop,
   * step)`: each is `(i, i + step - 1)`; there are none when the range is empty.
   */
  function Intervals(i: int, stop: int, step: int): (r: seq<(int, int)>)
    requires step != 0
    ensures r != [] <==> InRange(i, stop, step)
    decreases if step > 0 then stop - i else i - stop
  {
    if InRange(i, stop, step) then [(i, i + step - 1)] + Intervals(i + step, stop, step) else []
  }

  /**
   * The shape of the bounds: the first starts at i, each is `step` wide, the
   * next one starts right after the previous one ends, and with a positive
   * step every start lies before `stop` while the last interval reaches it.
   */
  lemma {:induction false} IntervalsShape(i: int, stop: int, step: int)
    requires step != 0
    ensures var r := Intervals(i, stop, step);
      && (r != [] ==> r[0].0 == i)
      && (forall k :: 0 <= k < |r| ==> r[k].1 == r[k].0 + step - 1)
      && (forall k :: 0 <= k < |r| - 1 ==> r[k + 1].0 == r[k].1 + 1)
      && (step > 0 ==> forall k :: 0 <= k < |r| ==> r[k].0 < stop)
      && (step > 0 && r != [] ==> r[|r| - 1].0 + step >= stop)
    decreases if step > 0 then stop - i else i - stop
  {
    if InRange(i, stop, step) {
      IntervalsShape(i + step, stop, step);
      var r, rest := Intervals(i, stop, step), Intervals(i + step, stop, step);
      assert r == [(i, i + step - 1)] + rest;
      forall k | 0 <= k < |r| - 1
        ensures r[k + 1].0 == r[k].1 + 1
      {
        if k > 0 {
          assert r[k] == rest[k - 1] && r[k + 1] == rest[k];
        }
      }
    }
  }

  /** generate_intervals without its colour component: the loop that appends the bounds. */
  method GenerateIntervals(start: int, end: int, step: int) returns (intervals: seq<(int, int)>)
    requires step != 0
    ensures intervals == Intervals(start, end + step, step)
  {
    intervals := [];
    var i := start;
    ghost var all := Intervals(start, end + step, step);
    while InRange(i, end + step, step)
      invariant intervals + Intervals(i, end + step, step) == all
      decreases if step > 0 then end + step - i else i - end - step
    {
      AppendInterval(intervals, i, end + step, step);
      intervals := intervals + [(i, i + step - 1)];
      i := i + step;
    }
    assert Intervals(i, end + step, step) == [];
    assert intervals + [] == intervals;
  }

  /** One turn of that loop: the next interval moves from the rest onto the list. */
  lemma AppendInterval(prefix: seq<(int, int)>, i: int, stop: int, step: int)
    requires step != 0 && InRange(i, stop, step)
    ensures prefix + Intervals(i, stop, step) == (prefix + [(i, i + step - 1)]) + Intervals(i + step, stop, step)
  {
    var rest := Intervals(i + step, stop, step);
    assert Intervals(i, stop, step) == [(i, i + step - 1)] + rest;
  }

  /**
   * With a positive step the bounds cover [start, end] without gaps: they
   * start at `start`, each starts one past the previous maximum, and the last
   * maximum reaches `end`.
   */
  lemma IntervalsCover(start: int, end: int, step: int)
    requires step >= 1 && start <= end
    ensures var r := Intervals(start, end + step, step);
      && r != [] && r[0].0 == start
      && (forall k :: 0 <= k < |r| - 1 ==> r[k + 1].0 == r[k].1 + 1)
      && r[|r| - 1].0 < end + step && end <= r[|r| - 1].1
  {
    IntervalsShape(start, end + step, step);
  }

  // ---------------------------------------------------------------------
  // chunk_array (helpers.py:153-156)
  // ---------------------------------------------------------------------

  /** The chunks joined back together, in order. */
  function Concat<T>(chunks: seq<seq<T>>): seq<T>
  {
    if chunks == [] then [] else Concat(chunks[..|chunks| - 1]) + chunks[|chunks| - 1]
  }

  /**
   * chunk_array: the slices `a[i:i + size]` for i in `range(0, len(a), size)`.
   * A negative size yields nothing (the range is empty); size 0 makes
   * `range` raise, so it is excluded.
   */
  method ChunkArray<T>(a: seq<T>, size: int) returns (chunks: seq<seq<T>>)
    requires size != 0
    ensures size < 0 ==> chunks == []
    ensures size > 0 ==> Concat(chunks) == a
    ensures forall k :: 0 <= k < |chunks| ==> 1 <= |chunks[k]| <= size
    ensures forall k :: 0 <= k < |chunks| - 1 ==> |chunks[k]| == size
  {
    chunks := [];
    if size < 0 {
      return;
    }
    var i := 0;
    while i < |a|
      invariant 0 <= i && (i < |a| ==> i == |chunks| * size)
      invariant Concat(chunks) == a[..if i < |a| then i else |a|]
      invariant forall k :: 0 <= k < |chunks| ==> 1 <= |chunks[k]| <= size
      invariant forall k :: 0 <= k < |chunks| ==> |chunks[k]| == size || (k == |chunks| - 1 && i >= |a|)
      decreases |a| - i
    {
      var chunk := if i + size <= |a| then a[i..i + size] else a[i..];
      assert Concat(chunks + [chunk]) == Concat(chunks) + chunk;
      chunks := chunks + [chunk];
      i := i + size;
    }
  }

  // ---------------------------------------------------------------------
  // find_changed_indices (helpers.py:147-151)
  // ---------------------------------------------------------------------

  /** Both grids have the same number of rows and matching row lengths. */
  predicate SameShape<T>(a: seq<seq<T>>, b: seq<seq<T>>)
  {
    |a| == |b| && forall i :: 0 <= i < |a| ==> |a[i]| == |b[i]|
  }

  /** Cell p comes strictly before cell q in row-major order. */
  predicate Before(p: (nat, nat), q: (nat, nat))
  {
    p.0 < q.0 || (p.0 == q.0 && p.1 < q.1)
  }

  /** The columns j < m of row `row` where x and y differ, in increasing order. */
  function RowChanges<T(==)>(x: seq<T>, y: seq<T>, row: nat, m: nat): (r: seq<(nat, nat)>)
    requires m <= |x| == |y|
    ensures forall j :: 0 <= j < m ==> ((row, j) in r <==> x[j] != y[j])
    ensures forall k :: 0 <= k < |r| ==> r[k].0 == row && r[k].1 < m && x[r[k].1] != y[r[k].1]
    ensures forall k1, k2 :: 0 <= k1 < k2 < |r| ==> r[k1].1 < r[k2].1
  {
    if m == 0 then []
    else RowChanges(x, y, row, m - 1) + (if x[m - 1] != y[m - 1] then [(row, m - 1)] else [])
  }

  /** The changed cells of the first n rows, in row-major order. */
  function ChangesUpTo<T(==)>(a: seq<seq<T>>, b: seq<seq<T>>, n: nat): (r: seq<(nat, nat)>)
    requires SameShape(a, b) && n <= |a|
    ensures forall i, j :: 0 <= i < n && 0 <= j < |a[i]| ==> ((i, j) in r <==> a[i][j] != b[i][j])
    ensures forall k :: 0 <= k < |r| ==> r[k].0 < n && r[k].1 < |a[r[k].0]| && a[r[k].0][r[k].1] != b[r[k].0][r[k].1]
    ensures forall k1, k2 :: 0 <= k1 < k2 < |r| ==> Before(r[k1], r[k2])
  {
    if n == 0 then []
    else
      var earlier := ChangesUpTo(a, b, n - 1);
      var last := RowChanges(a[n - 1], b[n - 1], n - 1, |a[n - 1]|);
      assert forall i, j :: 0 <= i < n - 1 && 0 <= j < |a[i]| ==> (i, j) !in last;
      earlier + last
  }

  /**
   * find_changed_indices (`np.argwhere(a != b)`): exactly the cells where the
   * two buffers differ, each once, in row-major order; none for equal buffers.
   */
  function ChangedIndices<T(==)>(a: seq<seq<T>>, b: seq<seq<T>>): (r: seq<(nat, nat)>)
    requires SameShape(a, b)
    ensures forall i, j :: 0 <= i < |a| && 0 <= j < |a[i]| ==> ((i, j) in r <==> a[i][j] != b[i][j])
    ensures forall k :: 0 <= k < |r| ==> r[k].0 < |a| && r[k].1 < |a[r[k].0]| && a[r[k].0][r[k].1] != b[r[k].0][r[k].1]
    ensures forall k1, k2 :: 0 <= k1 < k2 < |r| ==> Before(r[k1], r[k2])
    ensures a == b ==> r == []
  {
    var r := ChangesUpTo(a, b, |a|);
    assert r != [] ==> a[r[0].0][r[0].1] != b[r[0].0][r[0].1];
    r
  }
}
