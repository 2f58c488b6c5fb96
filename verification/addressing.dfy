/**
 * Coordinate addressing: the bidirectional mapping between a global tile
 * position (row, col) and its storage location, a table (table row, table
 * column) plus a 1-based row id inside that table (helpers.py:67-124).
 *
 * Table row 0 is 34 tile rows tall, every later table row is 48 tall and
 * every table column is 48 wide. Python's `floor(a / 48)`, `//` and `%`
 * with the positive divisor 48 agree with Dafny's Euclidean `/` and `%`,
 * so negative coordinates are modelled exactly as the source computes them.
 */
module Addressing {

  /** Height, in tile rows, of table row 0. */
  const FirstBandHeight: int := 34
  /** Height of every later table row and width of every table column. */
  const TableSide: int := 48
  /** The constant the inverse subtracts: TableSide - FirstBandHeight. */
  const InverseCorrection: int := 14
  /** Number of row ids that table row 0 holds (34 * 48). */
  const FirstBandIds: int := 1632
  /** Number of row ids that every later table holds (48 * 48). */
  const TableIds: int := 2304

  /** (row, col) of a tile in the world grid. */
  type Position = (int, int)
  /** (table row, table column) of a storage table. */
  type Table = (int, int)
  /** (row, col) of a tile inside its table. */
  type Relative = (int, int)

  /** get_table_and_relative_position: which table a position falls in, and where inside it. */
  function TableAndRelativePosition(p: Position): (r: (Table, Relative))
    ensures p.0 < FirstBandHeight ==> r.0.0 == 0 && r.1.0 == p.0
    ensures p.0 >= FirstBandHeight ==>
      && r.0.0 == 1 + (p.0 - FirstBandHeight) / TableSide
      && r.1.0 == (p.0 - FirstBandHeight) % TableSide
    ensures r.0.1 == p.1 / TableSide && r.1.1 == p.1 % TableSide
    ensures 0 <= r.1.1 < TableSide && (p.0 >= FirstBandHeight ==> 1 <= r.0.0 && 0 <= r.1.0 < TableSide)
  {
    var (tableY, relativeY) :=
      if p.0 < FirstBandHeight then (0, p.0)
      else
        var shifted := p.0 - FirstBandHeight;
        var ty := 1 + shifted / TableSide;
        (ty, shifted - (ty - 1) * TableSide);
    var tableX := p.1 / TableSide;
    ((tableY, tableX), (relativeY, p.1 - tableX * TableSide))
  }

  /** get_rid: the 1-based, row-major id of a relative position. */
  function Rid(rel: Relative): int
  {
    rel.0 * TableSide + rel.1 + 1
  }

  /** get_position_from_rid: the relative position a row id stands for; it inverts Rid. */
  function PositionFromRid(rid: int): (rel: Relative)
    ensures 0 <= rel.1 < TableSide
    ensures Rid(rel) == rid
  {
    ((rid - 1) / TableSide, (rid - 1) % TableSide)
  }

  /** get_initial_from_table_and_relative_position: back from a table and relative position to the world grid. */
  function InitialFromTableAndRelative(t: Table, rel: Relative): Position
  {
    var initialY := if t.0 == 0 then rel.0 else rel.0 + t.0 * TableSide - InverseCorrection;
    (initialY, t.1 * TableSide + rel.1)
  }

  /** get_raster_db_locations: the table and row id that store a position. */
  function RasterDbLocations(p: Position): (Table, int)
  {
    var (table, rel) := TableAndRelativePosition(p);
    (table, Rid(rel))
  }

  /** get_initial_position: the position stored under a row id of a table. */
  function InitialPosition(t: Table, rid: int): Position
  {
    InitialFromTableAndRelative(t, PositionFromRid(rid))
  }

  /** A relative position inside a table, written as a row id, reads back unchanged. */
  lemma RidRoundTrip(rel: Relative)
    requires 0 <= rel.1 < TableSide
    ensures PositionFromRid(Rid(rel)) == rel
  {
  }

  /** Row ids of positions with a non-negative relative row start at 1. */
  lemma RidIsPositive(rel: Relative)
    requires rel.0 >= 0 && 0 <= rel.1 < TableSide
    ensures Rid(rel) >= 1
  {
  }

  /**
   * The headline round trip: a position sent to its table and row id and
   * back is the same position, for every row and column (positive or not).
   * The loader relies on it to put a fetched raster back where it was asked for.
   */
  lemma ForwardRoundTrip(p: Position)
    ensures InitialPosition(RasterDbLocations(p).0, RasterDbLocations(p).1) == p
  {
    var (table, rel) := TableAndRelativePosition(p);
    RidRoundTrip(rel);
    assert PositionFromRid(Rid(rel)) == rel;
    if p.0 >= FirstBandHeight {
      var shifted := p.0 - FirstBandHeight;
      assert shifted == (shifted / TableSide) * TableSide + shifted % TableSide;
      assert rel.0 + table.0 * TableSide - InverseCorrection == p.0;
    }
    assert p.1 == (p.1 / TableSide) * TableSide + p.1 % TableSide;
  }

  /** Two positions stored under the same table and row id are the same position. */
  lemma LocationsInjective(p: Position, q: Position)
    requires RasterDbLocations(p) == RasterDbLocations(q)
    ensures p == q
  {
    ForwardRoundTrip(p);
    ForwardRoundTrip(q);
  }

  /**
   * The reverse round trip holds exactly for the row ids a table really has:
   * up to 34 * 48 in table row 0 (the source does not reject ids below 1 there,
   * and those still come back), and 1 .. 48 * 48 in every table row >= 1.
   */
  lemma ReverseRoundTrip(t: Table, rid: int)
    ensures RasterDbLocations(InitialPosition(t, rid)) == (t, rid) <==>
      (t.0 == 0 && rid <= FirstBandIds) || (t.0 >= 1 && 1 <= rid <= TableIds)
  {
    var rel := PositionFromRid(rid);
    var p := InitialPosition(t, rid);
    var (table, rel') := TableAndRelativePosition(p);
    assert rid - 1 == rel.0 * TableSide + rel.1;
    assert table.1 == t.1 && rel'.1 == rel.1 by {
      assert p.1 == t.1 * TableSide + rel.1;
      DivModUnique(p.1, t.1, rel.1);
    }
    if t.0 == 0 {
      assert p.0 == rel.0;
      assert rel.0 < FirstBandHeight <==> rid <= FirstBandIds;
    } else if p.0 < FirstBandHeight {
      assert table.0 == 0;
      assert !(t.0 >= 1 && 1 <= rid <= TableIds);
    } else {
      var shifted := p.0 - FirstBandHeight;
      assert shifted == (t.0 - 1) * TableSide + rel.0;
      if 0 <= rel.0 < TableSide {
        DivModUnique(shifted, t.0 - 1, rel.0);
        assert table == t && rel' == rel;
        RidRoundTrip(rel);
      } else {
        assert !(1 <= rid <= TableIds);
      }
    }
  }

  /** A row id past the 34 rows of table row 0 (but within a full table) reads back into table row 1. */
  lemma FirstBandOverflow(tableX: int, rid: int)
    requires FirstBandIds < rid <= TableIds
    ensures RasterDbLocations(InitialPosition((0, tableX), rid)).0 == (1, tableX)
  {
    ReverseRoundTrip((0, tableX), rid);
  }

  /** Division by 48 has a unique quotient and remainder. */
  lemma DivModUnique(a: int, q: int, r: int)
    requires a == q * TableSide + r && 0 <= r < TableSide
    ensures a / TableSide == q && a % TableSide == r
  {
  }

  /** The results test.py prints for the tiles around the first table boundary (test.py:50-69). */
  lemma BoundaryScenarios()
    ensures TableAndRelativePosition((34, 20)) == ((1, 0), (0, 20)) && RasterDbLocations((34, 20)) == ((1, 0), 21)
    ensures RasterDbLocations((34, 19)) == ((1, 0), 20)
    ensures RasterDbLocations((33, 41)) == ((0, 0), 1626) && RasterDbLocations((32, 41)) == ((0, 0), 1578)
    ensures TableAndRelativePosition((36, 39)) == ((1, 0), (2, 39)) && RasterDbLocations((36, 39)) == ((1, 0), 136)
  {
  }

  /** The inverse steps for row id 21 of table (1, 0) (test.py:79-98). */
  lemma InverseScenario()
    ensures PositionFromRid(21) == (0, 20)
    ensures InitialFromTableAndRelative((1, 0), (0, 20)) == (34, 20)
    ensures InitialPosition((1, 0), 21) == (34, 20)
  {
  }

  /** The positions test.py checks (test.py:100-109). */
  function TestPositions(): seq<Position>
  {
    [(32, 41), (33, 41), (34, 19), (34, 20), (34, 21),
     (34, 22), (34, 23), (34, 37), (34, 38), (34, 39), (34, 40), (34, 41),
     (35, 19), (35, 20), (35, 21), (35, 22), (35, 23), (35, 37), (35, 38),
     (35, 39), (35, 40), (35, 41), (36, 19), (36, 20), (36, 21), (36, 22),
     (36, 23), (36, 37), (36, 38), (36, 39)]
  }

  /** Every position of the test loop comes back from its table and row id. */
  lemma TestPositionsRoundTrip()
    ensures forall i :: 0 <= i < |TestPositions()| ==>
      InitialPosition(RasterDbLocations(TestPositions()[i]).0, RasterDbLocations(TestPositions()[i]).1) == TestPositions()[i]
  {
    forall i | 0 <= i < |TestPositions()|
      ensures InitialPosition(RasterDbLocations(TestPositions()[i]).0, RasterDbLocations(TestPositions()[i]).1) == TestPositions()[i]
    {
      ForwardRoundTrip(TestPositions()[i]);
    }
  }
}
