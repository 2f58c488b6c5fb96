/**
 * The WorldMap object of world_map.py: the viewer's state and the methods
 * that update it in place — scrolling, zooming, mode switches, registering
 * the tiles around the centre, computing the placements of a frame, writing
 * the screen buffer, and the loader's write-back of fetched rasters.
 */
module WorldMaps {
  import opened Grid
  import opened Areas
  import opened Dispatch
  import opened Viewport
  import opened Render
  import opened Movement
  import opened Addressing
  import opened Helpers

  /** The cells of a two-dimensional buffer, row by row. */
  ghost function Contents(a: array2<Node>): (r: Raster)
    reads a
    ensures IsRect(r, a.Length0, a.Length1)
    ensures forall i, j :: 0 <= i < a.Length0 && 0 <= j < a.Length1 ==> r[i][j] == a[i, j]
  {
    seq(a.Length0, i requires 0 <= i < a.Length0 reads a => seq(a.Length1, j requires 0 <= j < a.Length1 reads a => a[i, j]))
  }

  // ---------------------------------------------------------------------
  // create_areas and the loader, as functions
  // ---------------------------------------------------------------------

  /**
   * The positions create_areas registers, in order: the listed ones that are
   * neither known already nor listed earlier.
   */
  function Registered(ps: seq<Position>, known: set<Position>): (r: seq<Position>)
    ensures forall p :: p in r <==> p in ps && p !in known
    ensures forall i, j :: 0 <= i < j < |r| ==> r[i] != r[j]
  {
    if ps == [] then []
    else
      var prev := Registered(ps[..|ps| - 1], known);
      var p := ps[|ps| - 1];
      assert ps == ps[..|ps| - 1] + [p];
      if p in known || p in prev then prev else prev + [p]
  }

  /** One more listed position: registered when neither known nor already registered. */
  lemma RegisteredStep(ps: seq<Position>, known: set<Position>, i: nat)
    requires i < |ps|
    ensures Registered(ps[..i + 1], known) ==
      if ps[i] in known || ps[i] in Registered(ps[..i], known) then Registered(ps[..i], known)
      else Registered(ps[..i], known) + [ps[i]]
  {
    assert ps[..i + 1][..i] == ps[..i];
  }

  /** rids_to_load: the tables in the order they are first met, and each table's row ids in order. */
  datatype Pending = Pending(tables: seq<Table>, rids: map<Table, seq<int>>)

  /** The pending loads after the positions, one by one: only positive row ids are kept. */
  function Grouped(ps: seq<Position>): (g: Pending)
    ensures forall t :: t in g.rids <==> t in g.tables
    ensures forall i, j :: 0 <= i < j < |g.tables| ==> g.tables[i] != g.tables[j]
  {
    if ps == [] then Pending([], map[])
    else
      var g := Grouped(ps[..|ps| - 1]);
      var (table, rid) := RasterDbLocations(ps[|ps| - 1]);
      if rid <= 0 then g
      else if table in g.rids then g.(rids := g.rids[table := g.rids[table] + [rid]])
      else Pending(g.tables + [table], g.rids[table := [rid]])
  }

  /** rids_to_load after one more registered position. */
  lemma GroupedStep(ps: seq<Position>, p: Position)
    ensures var g := Grouped(ps);
      var (table, rid) := RasterDbLocations(p);
      Grouped(ps + [p]) ==
        if rid <= 0 then g
        else if table in g.rids then g.(rids := g.rids[table := g.rids[table] + [rid]])
        else Pending(g.tables + [table], g.rids[table := [rid]])
  {
    assert (ps + [p])[..|ps|] == ps;
  }

  /** No element of `s` occurs twice. */
  predicate NoRepeats<T(==)>(s: seq<T>)
  {
    forall i, j :: 0 <= i < j < |s| ==> s[i] != s[j]
  }

  /**
   * Distinct positions queue distinct row ids: when no position repeats, no
   * table's list of pending row ids repeats a row id either.
   */
  lemma {:induction false} GroupedOnce(ps: seq<Position>)
    requires NoRepeats(ps)
    ensures forall t :: t in Grouped(ps).rids ==> NoRepeats(Grouped(ps).rids[t])
  {
    if ps != [] {
      var init := ps[..|ps| - 1];
      var p := ps[|ps| - 1];
      assert ps == init + [p];
      assert NoRepeats(init);
      GroupedOnce(init);
      GroupedMembers(init);
      var g := Grouped(init);
      var (table, rid) := RasterDbLocations(p);
      if rid > 0 && table in g.rids {
        if rid in g.rids[table] {
          var q :| q in init && RasterDbLocations(q) == (table, rid);
          LocationsInjective(p, q);
          assert false;
        }
        var queued := g.rids[table];
        assert NoRepeats(queued + [rid]);
      }
    }
  }

  /**
   * Every position with a positive row id is pending under its table, and
   * every pending row id is the positive id of one of the positions.
   */
  lemma {:induction false} GroupedMembers(ps: seq<Position>)
    ensures forall p :: p in ps && RasterDbLocations(p).1 > 0 ==>
      RasterDbLocations(p).0 in Grouped(ps).rids && RasterDbLocations(p).1 in Grouped(ps).rids[RasterDbLocations(p).0]
    ensures forall t, rid :: t in Grouped(ps).rids && rid in Grouped(ps).rids[t] ==>
      rid > 0 && exists p :: p in ps && RasterDbLocations(p) == (t, rid)
  {
    if ps != [] {
      var init := ps[..|ps| - 1];
      GroupedMembers(init);
      assert ps == init + [ps[|ps| - 1]];
    }
  }

  /** A row of the grid (row at least 0) always has a positive row id, so it is always requested. */
  lemma GridRowsHaveIds(p: Position)
    requires p.0 >= 0
    ensures RasterDbLocations(p).1 >= 1
  {
    RidIsPositive(TableAndRelativePosition(p).1);
  }

  /** No pending table exactly when no table has row ids. */
  lemma NothingPending(g: Pending)
    requires forall t :: t in g.rids <==> t in g.tables
    ensures |g.rids| == 0 <==> g.tables == []
  {
    if g.tables != [] {
      assert g.tables[0] in g.rids;
      assert g.rids.Keys != {};
    } else {
      assert g.rids.Keys == {};
    }
  }

  /**
   * The threads create_areas starts: per pending table, in order, its row
   * ids cut into batches of at most 10 that join back to the whole list,
   * every batch but the last holding exactly 10.
   */
  predicate Requested(requests: seq<(Table, seq<seq<int>>)>, g: Pending)
  {
    && |requests| == |g.tables|
    && forall i :: 0 <= i < |requests| ==>
      && requests[i].0 == g.tables[i] && g.tables[i] in g.rids
      && Concat(requests[i].1) == g.rids[g.tables[i]]
      && Batched(requests[i].1)
  }

  /** chunk_array's batches of 10: each holds 1..10 row ids, all but the last exactly 10. */
  predicate Batched(batches: seq<seq<int>>)
  {
    && (forall k :: 0 <= k < |batches| ==> 1 <= |batches[k]| <= 10)
    && (forall k :: 0 <= k < |batches| - 1 ==> |batches[k]| == 10)
  }

  /**
   * The loader's write-back (get_multiple_rasters): each fetched row goes to
   * the tile at the position its table and row id stand for; a position with
   * no tile raises and stops the rest. Returns the rasters and whether every
   * row was placed.
   */
  function Loaded(rasters: map<Position, Raster>, table: Table, rows: seq<(int, Raster)>): (r: (map<Position, Raster>, bool))
    ensures r.0.Keys == rasters.Keys
    ensures forall p :: p in rasters && (forall i :: 0 <= i < |rows| ==> InitialPosition(table, rows[i].0) != p) ==> r.0[p] == rasters[p]
    decreases |rows|
  {
    if rows == [] then (rasters, true)
    else
      var p := InitialPosition(table, rows[0].0);
      if p !in rasters then (rasters, false)
      else
        var r := Loaded(rasters[p := rows[0].1], table, rows[1..]);
        assert forall i :: 0 <= i < |rows| - 1 ==> rows[1..][i] == rows[i + 1];
        r
  }

  /** Two row ids of one table stand for the same position only when they are equal. */
  lemma InitialPositionInjective(table: Table, a: int, b: int)
    requires InitialPosition(table, a) == InitialPosition(table, b)
    ensures a == b
  {
    var ra, rb := PositionFromRid(a), PositionFromRid(b);
    assert ra == rb;
  }

  /**
   * Rows whose positions all have tiles are all placed, and each fetched
   * raster (the last one, for a repeated row id) ends up in the tile its row
   * id stands for.
   */
  lemma {:induction false} LoadedLands(rasters: map<Position, Raster>, table: Table, rows: seq<(int, Raster)>)
    requires forall i :: 0 <= i < |rows| ==> InitialPosition(table, rows[i].0) in rasters
    ensures Loaded(rasters, table, rows).1
    ensures forall i :: 0 <= i < |rows| && (forall j :: i < j < |rows| ==> rows[j].0 != rows[i].0) ==>
      Loaded(rasters, table, rows).0[InitialPosition(table, rows[i].0)] == rows[i].1
    decreases |rows|
  {
    if rows != [] {
      var q := InitialPosition(table, rows[0].0);
      var next := rasters[q := rows[0].1];
      var tail := rows[1..];
      assert forall i :: 0 <= i < |tail| ==> tail[i] == rows[i + 1];
      LoadedLands(next, table, tail);
      var r := Loaded(rasters, table, rows);
      assert r == Loaded(next, table, tail);
      forall i | 0 <= i < |rows| && (forall j :: i < j < |rows| ==> rows[j].0 != rows[i].0)
        ensures r.0[InitialPosition(table, rows[i].0)] == rows[i].1
      {
        if i == 0 {
          forall k | 0 <= k < |tail|
            ensures InitialPosition(table, tail[k].0) != q
          {
            assert rows[k + 1].0 != rows[0].0;
            if InitialPosition(table, tail[k].0) == q {
              InitialPositionInjective(table, tail[k].0, rows[0].0);
            }
          }
        } else {
          assert tail[i - 1] == rows[i];
          assert forall j :: i - 1 < j < |tail| ==> tail[j].0 != tail[i - 1].0 by {
            forall j | i - 1 < j < |tail|
              ensures tail[j].0 != tail[i - 1].0
            {
              assert tail[j] == rows[j + 1];
            }
          }
        }
      }
    }
  }

  /**
   * The round trip the loader relies on: a row fetched for a registered tile
   * of the table, by that tile's row id, lands in that very tile.
   */
  lemma LoadedReachesAskingTile(rasters: map<Position, Raster>, table: Table, rows: seq<(int, Raster)>, p: Position, i: nat)
    requires forall k :: 0 <= k < |rows| ==> InitialPosition(table, rows[k].0) in rasters
    requires p in rasters && i < |rows| && RasterDbLocations(p) == (table, rows[i].0)
    requires forall j :: i < j < |rows| ==> rows[j].0 != rows[i].0
    ensures Loaded(rasters, table, rows).1 && Loaded(rasters, table, rows).0[p] == rows[i].1
  {
    ForwardRoundTrip(p);
    LoadedLands(rasters, table, rows);
  }

  class WorldMap {
    const cfg: Config
    /** How far one key press scrolls, in buffer cells. */
    const displacement: int
    var running: bool
    var zoomLevel: int
    var areas: map<Position, Area>
    var displayedMap: array2<Node>
    var mapCenter: Position
    var verticalOffset: int
    var horizontalOffset: int
    var mapMode: MapMode
    var renderType: RenderType
    var drawGoldenCenter: bool
    var silentMode: bool

    /**
     * The buffer has the configured shape, and every registered tile sits
     * under its own position with the row id that stores it.
     */
    ghost predicate Valid()
      reads this, areas.Values
    {
      && ValidConfig(cfg)
      && displayedMap.Length0 == cfg.mapHeight && displayedMap.Length1 == cfg.mapWidth
      && forall p :: p in areas ==> areas[p].position == p && areas[p].rid == RasterDbLocations(p).1
    }

    /** The scroll state. */
    ghost function CurrentView(): View
      reads this
    {
      View(mapCenter, zoomLevel, verticalOffset, horizontalOffset)
    }

    /** The raster each registered tile currently holds. */
    ghost function Rasters(): (r: map<Position, Raster>)
      reads this, areas.Values
      ensures r.Keys == areas.Keys
    {
      map p | p in areas :: areas[p].raster
    }

    /**
     * A viewer at level 5 around `mapCenter`, scrolled 100 rows down, the
     * buffer all ones (numpy's `ones`), no tile yet; then create_areas
     * registers every position around the centre with a no-data tile. The
     * load requests it makes are not kept.
     */
    constructor (cfg: Config, mapCenter: Position)
      requires ValidConfig(cfg)
      ensures Valid()
      ensures this.cfg == cfg && this.mapCenter == mapCenter && displacement == 5
      ensures running && zoomLevel == 5 && verticalOffset == 100 && horizontalOffset == 0
      ensures mapMode == RegularMap && renderType == FullRerender && !drawGoldenCenter && !silentMode
      ensures fresh(displayedMap)
      ensures forall i, j :: 0 <= i < cfg.mapHeight && 0 <= j < cfg.mapWidth ==> displayedMap[i, j] == Height(1)
      ensures forall p :: p in areas <==> p in NewAreasNearCenter(cfg, mapCenter, 5, {}).value
      ensures forall p :: p in areas ==> fresh(areas[p]) && areas[p].raster == Filled(cfg.mapHeight, cfg.mapWidth)
    {
      this.cfg := cfg;
      displacement := 5;
      running := true;
      zoomLevel := 5;
      areas := map[];
      displayedMap := new Node[cfg.mapHeight, cfg.mapWidth]((_, _) => Height(1));
      this.mapCenter := mapCenter;
      verticalOffset := 100;
      horizontalOffset := 0;
      mapMode := RegularMap;
      renderType := FullRerender;
      drawGoldenCenter := false;
      silentMode := false;
      new;
      CreateInitialAreas();
    }

    /** The constructor's create_areas call: from no tile, every position around the centre gets a fresh no-data tile. */
    method CreateInitialAreas()
      requires Valid() && areas == map[] && zoomLevel == 5
      modifies this`areas
      ensures Valid()
      ensures forall p :: p in areas <==> p in NewAreasNearCenter(cfg, mapCenter, 5, {}).value
      ensures forall p :: p in areas ==> fresh(areas[p]) && areas[p].raster == Filled(cfg.mapHeight, cfg.mapWidth)
    {
      assert areas.Keys == {};
      var created, _ := CreateAreas();
      ghost var listed := NewAreasNearCenter(cfg, mapCenter, 5, {});
      assert created && listed.Some?;
      forall p
        ensures p in areas <==> p in listed.value
      {
        assert p in Registered(listed.value, {}) <==> p in listed.value;
      }
    }

    // -------------------------------------------------------------------
    // Input handlers
    // -------------------------------------------------------------------

    /** handle_mouse_wheel: the level moves by one per notch, with no bound. */
    method HandleMouseWheel(direction: int)
      modifies this`zoomLevel
      ensures zoomLevel == Wheel(old(zoomLevel), direction)
    {
      if direction == 1 {
        zoomLevel := zoomLevel + 1;
      }
      if direction == -1 {
        zoomLevel := zoomLevel - 1;
      }
    }

    /** switch_render_mode. */
    method SwitchRenderMode()
      modifies this`renderType
      ensures renderType == NextRenderType(old(renderType))
    {
      if renderType == FullRerender {
        renderType := PartialRerender;
      } else if renderType == PartialRerender {
        renderType := HybridRerender;
      } else if renderType == HybridRerender {
        renderType := FullRerender;
      }
    }

    /** switch_map_mode. */
    method SwitchMapMode()
      modifies this`mapMode
      ensures mapMode == NextMapMode(old(mapMode))
    {
      if mapMode == RegularMap {
        mapMode := TopographicMap;
      } else if mapMode == TopographicMap {
        mapMode := RegularMap;
      }
    }

    /**
     * handle_movements: the view moves as Move says; at an unknown level
     * the threshold lookup fails (ok is false) and nothing changes.
     */
    method HandleMovements(direction: Direction) returns (ok: bool)
      requires ValidConfig(cfg)
      modifies this`mapCenter, this`verticalOffset, this`horizontalOffset
      ensures var r := Move(cfg, old(CurrentView()), direction, displacement);
        && ok == r.Some?
        && CurrentView() == (if ok then r.value else old(CurrentView()))
    {
      var n := Stride(zoomLevel);
      if n.None? {
        return false;
      }
      ok := true;
      var verticalThreshold := cfg.mapHeight / 2 / n.value;
      var horizontalThreshold := cfg.mapWidth / 2 / n.value;
      assert Thresholds(cfg, zoomLevel) == Some((verticalThreshold, horizontalThreshold));
      match direction
      case Up =>
        if mapCenter.0 == 0 {
          return;
        }
        var diffUntilChange := Abs(verticalThreshold - Abs(verticalOffset));
        var aboveThreshold := displacement - diffUntilChange;
        if aboveThreshold >= 0 && verticalOffset < 0 {
          verticalOffset := verticalThreshold + aboveThreshold;
          mapCenter := (mapCenter.0 - 1, mapCenter.1);
        } else {
          verticalOffset := verticalOffset - displacement;
        }
      case Down =>
        if mapCenter.0 == LastRow {
          return;
        }
        var diffUntilChange := Abs(verticalThreshold - Abs(verticalOffset));
        var aboveThreshold := displacement - diffUntilChange;
        if aboveThreshold >= 0 && verticalOffset > 0 {
          verticalOffset := -(verticalThreshold - aboveThreshold);
          mapCenter := (mapCenter.0 + 1, mapCenter.1);
        } else {
          verticalOffset := verticalOffset + displacement;
        }
      case Left =>
        var diffUntilChange := Abs(horizontalThreshold - Abs(horizontalOffset));
        var aboveThreshold := displacement - diffUntilChange;
        if aboveThreshold >= 0 && horizontalOffset < 0 {
          horizontalOffset := horizontalThreshold + aboveThreshold;
          if mapCenter.1 == 0 {
            mapCenter := (mapCenter.0, cfg.maxHorizontalChunk);
          } else {
            mapCenter := (mapCenter.0, mapCenter.1 - 1);
          }
        } else {
          horizontalOffset := horizontalOffset - displacement;
        }
      case Right =>
        var diffUntilChange := Abs(horizontalThreshold - Abs(horizontalOffset));
        var aboveThreshold := displacement - diffUntilChange;
        if aboveThreshold >= 0 && horizontalOffset > 0 {
          horizontalOffset := -(horizontalThreshold - aboveThreshold);
          if mapCenter.1 == LastColumn {
            mapCenter := (mapCenter.0, 0);
          } else {
            mapCenter := (mapCenter.0, mapCenter.1 + 1);
          }
        } else {
          horizontalOffset := horizontalOffset + displacement;
        }
    }

    /** One arrow key of handle_key_press: handle_movements when it is pressed. */
    method MoveIfPressed(pressed: bool, direction: Direction) returns (ok: bool)
      requires ValidConfig(cfg)
      modifies this`mapCenter, this`verticalOffset, this`horizontalOffset
      ensures var r := MoveIf(cfg, Some(old(CurrentView())), pressed, direction, displacement);
        && ok == r.Some?
        && CurrentView() == (if ok then r.value else old(CurrentView()))
    {
      ok := true;
      if pressed {
        ok := HandleMovements(direction);
      }
    }

    /**
     * The arrow keys of handle_key_press, up, down, left, right in that
     * order; the first move that fails (an unknown level) ends the handler.
     */
    method HandleArrowKeys(keys: Keys) returns (ok: bool)
      requires ValidConfig(cfg)
      modifies this`mapCenter, this`verticalOffset, this`horizontalOffset
      ensures var r := ArrowKeys(cfg, old(CurrentView()), keys, displacement);
        && ok == r.Some?
        && CurrentView() == (if ok then r.value else old(CurrentView()))
    {
      ok := MoveIfPressed(keys.up, Up);
      if !ok {
        return;
      }
      ok := MoveIfPressed(keys.down, Down);
      if !ok {
        return;
      }
      ok := MoveIfPressed(keys.left, Left);
      if !ok {
        return;
      }
      ok := MoveIfPressed(keys.right, Right);
    }

    /**
     * What create_areas leaves, seen from the tiles registered before it:
     * at a known level every unknown position around the centre now has a
     * no-data tile, the old tiles are kept, and the returned requests load
     * the new row ids; at an unknown level nothing changes.
     */
    ghost predicate CreatedFrom(before: map<Position, Area>, ok: bool, requests: seq<(Table, seq<seq<int>>)>)
      reads this, areas.Values
    {
      var listed := NewAreasNearCenter(cfg, mapCenter, zoomLevel, before.Keys);
      && ok == listed.Some?
      && (!ok ==> areas == before && requests == [])
      && (ok ==>
        var added := Registered(listed.value, before.Keys);
        && (forall p :: p in areas <==> p in before || p in added)
        && (forall p :: p in before ==> areas[p] == before[p])
        && (forall p :: p in added ==> areas[p].raster == Filled(cfg.mapHeight, cfg.mapWidth))
        && Requested(requests, Grouped(added))
        && forall i :: 0 <= i < |requests| ==> NoRepeats(Concat(requests[i].1)))
    }

    /**
     * handle_key_press: escape stops the main loop; the zoom keys and the
     * arrow keys change the view as KeyPressView says; then tab, "g", "s"
     * and "m" switch the render type, the golden centre, the silent mode
     * and the map mode; then create_areas runs. A zoom key landing outside
     * 1..5, or a move at an unknown level, ends the handler where the zoom
     * keys stopped (ok is false, nothing else changes).
     */
    method HandleKeyPress(keys: Keys) returns (ok: bool, requests: seq<(Table, seq<seq<int>>)>)
      requires Valid()
      modifies this`running, this`zoomLevel, this`mapCenter, this`verticalOffset, this`horizontalOffset
      modifies this`renderType, this`mapMode, this`drawGoldenCenter, this`silentMode, this`areas
      ensures Valid()
      ensures running == (old(running) && !keys.escape)
      ensures var r := KeyPressView(cfg, old(CurrentView()), keys, displacement);
        CurrentView() == (if r.Some? then r.value else ZoomKeys(old(CurrentView()), keys.plus, keys.minus).view)
      ensures KeyPressView(cfg, old(CurrentView()), keys, displacement).None? ==>
        && !ok && requests == [] && areas == old(areas)
        && renderType == old(renderType) && mapMode == old(mapMode)
        && drawGoldenCenter == old(drawGoldenCenter) && silentMode == old(silentMode)
      ensures KeyPressView(cfg, old(CurrentView()), keys, displacement).Some? ==>
        && renderType == (if keys.tab then NextRenderType(old(renderType)) else old(renderType))
        && mapMode == (if keys.mapKey then NextMapMode(old(mapMode)) else old(mapMode))
        && drawGoldenCenter == (old(drawGoldenCenter) != keys.golden)
        && silentMode == (old(silentMode) != keys.silent)
        && CreatedFrom(old(areas), ok, requests)
    {
      ok := HandleKeys(keys);
      if !ok {
        return false, [];
      }
      ok, requests := CreateAreas();
    }

    /**
     * handle_key_press up to create_areas: escape, the zoom keys, the arrow
     * keys, then the switches; a failed zoom lookup skips the arrows and the
     * switches, a failed move skips the switches.
     */
    method HandleKeys(keys: Keys) returns (ok: bool)
      requires ValidConfig(cfg)
      modifies this`running, this`zoomLevel, this`mapCenter, this`verticalOffset, this`horizontalOffset
      modifies this`renderType, this`mapMode, this`drawGoldenCenter, this`silentMode
      ensures running == (old(running) && !keys.escape)
      ensures ok == KeyPressView(cfg, old(CurrentView()), keys, displacement).Some?
      ensures CurrentView() == (if ok then KeyPressView(cfg, old(CurrentView()), keys, displacement).value
        else ZoomKeys(old(CurrentView()), keys.plus, keys.minus).view)
      ensures !ok ==>
        && renderType == old(renderType) && mapMode == old(mapMode)
        && drawGoldenCenter == old(drawGoldenCenter) && silentMode == old(silentMode)
      ensures ok ==>
        && renderType == (if keys.tab then NextRenderType(old(renderType)) else old(renderType))
        && mapMode == (if keys.mapKey then NextMapMode(old(mapMode)) else old(mapMode))
        && drawGoldenCenter == (old(drawGoldenCenter) != keys.golden)
        && silentMode == (old(silentMode) != keys.silent)
    {
      if keys.escape {
        running := false;
      }
      ghost var before := CurrentView();
      ok := HandleZoomKeys(keys.plus, keys.minus);
      if !ok {
        return;
      }
      ghost var zoomed := CurrentView();
      assert KeyPressView(cfg, before, keys, displacement) == ArrowKeys(cfg, zoomed, keys, displacement);
      ok := HandleArrowKeys(keys);
      if ok {
        HandleToggleKeys(keys);
      }
    }

    /**
     * The zoom keys of handle_key_press; ok is false when the threshold
     * lookup after a step fails, which happens at a level outside 1..5.
     */
    method HandleZoomKeys(plus: bool, minus: bool) returns (ok: bool)
      modifies this`zoomLevel, this`verticalOffset, this`horizontalOffset
      ensures CurrentView() == ZoomKeys(old(CurrentView()), plus, minus).view
      ensures ok == ZoomKeys(old(CurrentView()), plus, minus).ok
    {
      if plus && zoomLevel != 5 {
        zoomLevel := zoomLevel + 1;
        horizontalOffset := 0;
        verticalOffset := 0;
        if !(1 <= zoomLevel <= 5) {
          return false;
        }
      }
      if minus && zoomLevel != 1 {
        zoomLevel := zoomLevel - 1;
        horizontalOffset := 0;
        verticalOffset := 0;
        if !(1 <= zoomLevel <= 5) {
          return false;
        }
      }
      ok := true;
    }

    /** Tab, "g", "s" and "m" in handle_key_press: each switches its setting. */
    method HandleToggleKeys(keys: Keys)
      modifies this`renderType, this`mapMode, this`drawGoldenCenter, this`silentMode
      ensures renderType == (if keys.tab then NextRenderType(old(renderType)) else old(renderType))
      ensures mapMode == (if keys.mapKey then NextMapMode(old(mapMode)) else old(mapMode))
      ensures drawGoldenCenter == (old(drawGoldenCenter) != keys.golden)
      ensures silentMode == (old(silentMode) != keys.silent)
    {
      if keys.tab {
        SwitchRenderMode();
      }
      if keys.golden {
        drawGoldenCenter := !drawGoldenCenter;
      }
      if keys.silent {
        silentMode := !silentMode;
      }
      if keys.mapKey {
        SwitchMapMode();
      }
    }

    // -------------------------------------------------------------------
    // Tiles around the centre
    // -------------------------------------------------------------------

    /**
     * get_new_area_near_center: the unknown positions of the square around
     * the centre, row by row; at an unknown level the radius is never
     * assigned and the method fails.
     */
    method GetNewAreaNearCenter() returns (r: Option<seq<Position>>)
      ensures r == NewAreasNearCenter(cfg, mapCenter, zoomLevel, areas.Keys)
    {
      var startingPoint, endingPoint;
      if zoomLevel == 5 {
        startingPoint, endingPoint := -1, 2;
      } else if zoomLevel == 4 {
        startingPoint, endingPoint := -2, 3;
      } else if zoomLevel == 3 {
        startingPoint, endingPoint := -3, 4;
      } else if zoomLevel == 2 {
        startingPoint, endingPoint := -6, 7;
      } else if zoomLevel == 1 {
        startingPoint, endingPoint := -11, 12;
      } else {
        return None;
      }
      ghost var radius := Radius(zoomLevel).value;
      assert startingPoint == -radius && endingPoint == radius + 1;
      var positions := [];
      var verticalModifier := startingPoint;
      while verticalModifier < endingPoint
        invariant startingPoint <= verticalModifier <= endingPoint
        invariant positions == NeighboursUpTo(cfg, mapCenter, radius, areas.Keys, verticalModifier - startingPoint)
      {
        ghost var before := positions;
        var horizontalModifier := startingPoint;
        while horizontalModifier < endingPoint
          invariant startingPoint <= horizontalModifier <= endingPoint
          invariant positions == before + NeighbourRow(cfg, mapCenter, radius, verticalModifier, areas.Keys, horizontalModifier - startingPoint)
        {
          ghost var k := horizontalModifier - startingPoint;
          assert -radius + (k + 1) - 1 == horizontalModifier;
          var yPosition := mapCenter.0 + verticalModifier;
          var xPosition := mapCenter.1 + horizontalModifier;
          if !(yPosition < 0 || yPosition > cfg.maxVerticalChunk) {
            if xPosition < 0 {
              xPosition := cfg.maxHorizontalChunk - Abs(horizontalModifier);
            } else if xPosition > cfg.maxHorizontalChunk {
              xPosition := 0 + Abs(horizontalModifier);
            }
            var newPos := (yPosition, xPosition);
            assert TilePosition(cfg, mapCenter, verticalModifier, horizontalModifier) == Some(newPos);
            if newPos !in areas {
              positions := positions + [newPos];
            }
          }
          horizontalModifier := horizontalModifier + 1;
        }
        verticalModifier := verticalModifier + 1;
      }
      r := Some(positions);
    }

    // -------------------------------------------------------------------
    // The placements of a frame
    // -------------------------------------------------------------------

    /**
     * The column branch of get_array_and_camera's inner loop: the start span
     * for the first column, the ending span for the last, a middle span
     * otherwise; the dispatcher's column cursor ends where the next span begins.
     */
    method ColumnSpan(dispatcher: ChunkDispacher, info: ChunksInformation, ghost xs: seq<Span>, horizontalModifier: int)
      returns (xSpan: Span)
      requires xs == ColumnSpans(info, horizontalOffset)
      requires info.widthRangeStart <= horizontalModifier < info.widthRangeStart + info.chunksCount.1
      requires dispatcher.Valid() && dispatcher.chunkWidth == info.baseCameraWidth && dispatcher.realHorizontalOffset == horizontalOffset
      requires var j := horizontalModifier - info.widthRangeStart;
        j >= 1 ==> dispatcher.xStart == FirstEnd(info.baseCameraWidth, horizontalOffset) + (j - 1) * info.baseCameraWidth
      modifies dispatcher`xStart, dispatcher`remainingWidth
      ensures xSpan == xs[horizontalModifier - info.widthRangeStart]
      ensures var j := horizontalModifier - info.widthRangeStart;
        j + 1 < info.chunksCount.1 ==> dispatcher.xStart == FirstEnd(info.baseCameraWidth, horizontalOffset) + j * info.baseCameraWidth
    {
      ghost var j := horizontalModifier - info.widthRangeStart;
      ghost var c := info.baseCameraWidth;
      if horizontalModifier == info.widthRangeStart {
        xSpan := dispatcher.GetStartX();
      } else if horizontalModifier == info.widthRangeStart + info.chunksCount.1 - 1 {
        xSpan := dispatcher.GetEndingX();
      } else {
        xSpan := dispatcher.GetMiddleX();
        assert (j - 1) * c + c == j * c by {
          assert (j - 1) * c == j * c - c;
        }
      }
    }

    /**
     * The inner loop of get_array_and_camera for one row of tiles: nothing
     * when the row is outside the grid, otherwise one placement per column,
     * the column spans taken from the dispatcher, whose row cursor stays put.
     */
    method PlaceRow(dispatcher: ChunkDispacher, info: ChunksInformation, ghost ys: seq<Span>, ghost xs: seq<Span>,
                    verticalModifier: int, ySpan: Span) returns (row: seq<Placement>)
      requires |ys| == info.chunksCount.0 && xs == ColumnSpans(info, horizontalOffset)
      requires info.heightRangeStart <= verticalModifier < info.heightRangeStart + info.chunksCount.0
      requires ySpan == ys[verticalModifier - info.heightRangeStart]
      requires dispatcher.Valid() && dispatcher.chunkWidth == info.baseCameraWidth && dispatcher.realHorizontalOffset == horizontalOffset
      modifies dispatcher
      ensures dispatcher.Valid()
      ensures dispatcher.chunkHeight == old(dispatcher.chunkHeight) && dispatcher.chunkWidth == old(dispatcher.chunkWidth)
      ensures dispatcher.realVerticalOffset == old(dispatcher.realVerticalOffset)
      ensures dispatcher.realHorizontalOffset == old(dispatcher.realHorizontalOffset)
      ensures dispatcher.yStart == old(dispatcher.yStart)
      ensures var k := verticalModifier - info.heightRangeStart;
        row == (if RowShown(cfg, mapCenter, info, k) then RowPlacements(cfg, mapCenter, info, ys, xs, k) else [])
    {
      ghost var k := verticalModifier - info.heightRangeStart;
      var widthRangeStart := info.widthRangeStart;
      var count := info.chunksCount.1;
      row := [];
      var horizontalModifier := widthRangeStart;
      while horizontalModifier < widthRangeStart + count
        invariant widthRangeStart <= horizontalModifier <= widthRangeStart + count
        invariant dispatcher.Valid()
        invariant dispatcher.chunkHeight == old(dispatcher.chunkHeight) && dispatcher.chunkWidth == old(dispatcher.chunkWidth)
        invariant dispatcher.realVerticalOffset == old(dispatcher.realVerticalOffset)
        invariant dispatcher.realHorizontalOffset == old(dispatcher.realHorizontalOffset)
        invariant dispatcher.yStart == old(dispatcher.yStart)
        invariant var j := horizontalModifier - widthRangeStart;
          RowShown(cfg, mapCenter, info, k) && 1 <= j < count ==>
            dispatcher.xStart == FirstEnd(info.baseCameraWidth, horizontalOffset) + (j - 1) * info.baseCameraWidth
        invariant var j := horizontalModifier - widthRangeStart;
          row == (if RowShown(cfg, mapCenter, info, k) then RowPlacements(cfg, mapCenter, info, ys, xs, k)[..j] else [])
      {
        ghost var j := horizontalModifier - widthRangeStart;
        var yPosition := mapCenter.0 + verticalModifier;
        var xPosition := mapCenter.1 + horizontalModifier;
        if !(yPosition < 0 || yPosition > cfg.maxVerticalChunk) {
          if xPosition < 0 {
            xPosition := cfg.maxHorizontalChunk - Abs(horizontalModifier);
          }
          if xPosition > cfg.maxHorizontalChunk {
            xPosition := 0 + Abs(horizontalModifier);
          }
          var xSpan := ColumnSpan(dispatcher, info, xs, horizontalModifier);
          var camera := Rect(ySpan.cameraStart, ySpan.cameraEnd, xSpan.cameraStart, xSpan.cameraEnd);
          var indexes := Rect(ySpan.startIndex, ySpan.endIndex, xSpan.startIndex, xSpan.endIndex);
          var area := Placement((yPosition, xPosition), indexes, camera);
          assert RowShown(cfg, mapCenter, info, k);
          assert area == PlacementAt(cfg, mapCenter, info, ys, xs, k, j);
          ghost var full := RowPlacements(cfg, mapCenter, info, ys, xs, k);
          assert full[..j + 1] == full[..j] + [area];
          row := row + [area];
        }
        horizontalModifier := horizontalModifier + 1;
      }
      assert RowShown(cfg, mapCenter, info, k) ==> RowPlacements(cfg, mapCenter, info, ys, xs, k)[..count] == RowPlacements(cfg, mapCenter, info, ys, xs, k);
    }

    /**
     * get_array_and_camera: walks the rows and columns of tiles with a
     * ChunkDispacher and lists every tile of a row inside the grid with its
     * source cut and destination rectangle; at an unknown level the chunk
     * information lookup fails.
     */
    method GetArrayAndCamera() returns (r: Option<seq<Placement>>)
      requires ValidConfig(cfg)
      ensures r == ArrayAndCamera(cfg, zoomLevel, mapCenter, verticalOffset, horizontalOffset)
    {
      var chunksInfos := ChunksAndInformations(cfg, zoomLevel, verticalOffset, horizontalOffset);
      if chunksInfos.None? {
        return None;
      }
      var info := chunksInfos.value;
      var chunksCount := info.chunksCount;
      var heightRangeStart := info.heightRangeStart;
      var widthRangeStart := info.widthRangeStart;
      ghost var ys := RowSpans(info, verticalOffset);
      ghost var xs := ColumnSpans(info, horizontalOffset);
      var dispatcher := new ChunkDispacher(info.baseCameraHeight, info.baseCameraWidth, horizontalOffset, verticalOffset, cfg.mapHeight, cfg.mapWidth);
      var placements := [];
      var verticalModifier := heightRangeStart;
      while verticalModifier < heightRangeStart + chunksCount.0
        invariant heightRangeStart <= verticalModifier <= heightRangeStart + chunksCount.0
        invariant dispatcher.Valid()
        invariant dispatcher.chunkHeight == info.baseCameraHeight && dispatcher.chunkWidth == info.baseCameraWidth
        invariant dispatcher.realVerticalOffset == verticalOffset && dispatcher.realHorizontalOffset == horizontalOffset
        invariant var k := verticalModifier - heightRangeStart;
          1 <= k < chunksCount.0 ==> dispatcher.yStart == FirstEnd(info.baseCameraHeight, verticalOffset) + (k - 1) * info.baseCameraHeight
        invariant placements == PlacementsUpTo(cfg, mapCenter, info, ys, xs, verticalModifier - heightRangeStart)
      {
        ghost var k := verticalModifier - heightRangeStart;
        var ySpan;
        if verticalModifier == heightRangeStart {
          ySpan := dispatcher.GetStartY();
        } else if verticalModifier == heightRangeStart + chunksCount.0 - 1 {
          ySpan := dispatcher.GetEndingY();
        } else {
          ySpan := dispatcher.GetMiddleY();
          assert (k - 1) * info.baseCameraHeight + info.baseCameraHeight == k * info.baseCameraHeight by {
            var c := info.baseCameraHeight;
            assert (k - 1) * c == k * c - c;
          }
        }
        assert ySpan == ys[k];
        var row := PlaceRow(dispatcher, info, ys, xs, verticalModifier, ySpan);
        placements := placements + row;
        verticalModifier := verticalModifier + 1;
      }
      r := Some(placements);
    }

    // -------------------------------------------------------------------
    // Registering tiles and loading their rasters
    // -------------------------------------------------------------------

    /**
     * create_areas: every unknown position around the centre gets a fresh
     * tile holding the no-data raster, and its positive row id is queued
     * under its table; then one load request per batch of at most 10 row ids
     * of a table is returned, one entry per table in first-use order (the
     * source starts a thread for each batch). Fails, changing nothing, at an
     * unknown level.
     */
    method CreateAreas() returns (ok: bool, requests: seq<(Table, seq<seq<int>>)>)
      requires Valid()
      modifies this`areas
      ensures Valid() && CreatedFrom(old(areas), ok, requests)
      ensures forall p :: p in areas && p !in old(areas) ==> fresh(areas[p])
    {
      var listed := GetNewAreaNearCenter();
      if listed.None? {
        return false, [];
      }
      ok := true;
      ghost var known := areas.Keys;
      var pending := RegisterAreas(listed.value);
      GroupedOnce(Registered(listed.value, known));
      if |pending.rids| == 0 {
        NothingPending(pending);
        return true, [];
      }
      requests := LoadRequests(pending);
    }

    /**
     * The loop of create_areas over the listed positions: registers the new
     * ones as fresh tiles and returns rids_to_load.
     */
    method RegisterAreas(positions: seq<Position>) returns (pending: Pending)
      requires Valid()
      modifies this`areas
      ensures Valid()
      ensures forall p :: p in areas <==> p in old(areas) || p in Registered(positions, old(areas.Keys))
      ensures forall p :: p in old(areas) ==> areas[p] == old(areas)[p]
      ensures forall p :: p in Registered(positions, old(areas.Keys)) ==>
        fresh(areas[p]) && areas[p].raster == Filled(cfg.mapHeight, cfg.mapWidth)
      ensures pending == Grouped(Registered(positions, old(areas.Keys)))
    {
      ghost var known := areas.Keys;
      ghost var registered: seq<Position> := [];
      pending := Pending([], map[]);
      var i := 0;
      while i < |positions|
        invariant 0 <= i <= |positions|
        invariant registered == Registered(positions[..i], known)
        invariant Valid()
        invariant forall p :: p in areas <==> p in old(areas) || p in registered
        invariant forall p :: p in old(areas) ==> areas[p] == old(areas)[p]
        invariant forall p :: p in registered ==>
          fresh(areas[p]) && areas[p].raster == Filled(cfg.mapHeight, cfg.mapWidth)
        invariant pending == Grouped(registered)
      {
        RegisteredStep(positions, known, i);
        pending, registered := RegisterNext(positions[i], pending, registered, old(areas));
        i := i + 1;
      }
      assert positions[..|positions|] == positions;
    }

    /** One turn of RegisterAreas' loop, stated over the tiles the loop started from. */
    method RegisterNext(position: Position, pending: Pending, ghost registered: seq<Position>, ghost base: map<Position, Area>)
      returns (next: Pending, ghost nextRegistered: seq<Position>)
      requires Valid() && pending == Grouped(registered)
      requires forall p :: p in areas <==> p in base || p in registered
      requires forall p :: p in base ==> areas[p] == base[p]
      modifies this`areas
      ensures Valid() && next == Grouped(nextRegistered)
      ensures nextRegistered == if position in base || position in registered then registered else registered + [position]
      ensures forall p :: p in areas <==> p in base || p in nextRegistered
      ensures forall p :: p in base ==> areas[p] == base[p]
      ensures forall p :: p in registered ==> areas[p] == old(areas)[p]
      ensures nextRegistered != registered ==>
        fresh(areas[position]) && areas[position].raster == Filled(cfg.mapHeight, cfg.mapWidth)
    {
      nextRegistered := if position in areas then registered else registered + [position];
      next := RegisterPosition(position, pending, registered);
    }

    /**
     * One turn of that loop: a known position is skipped; a new one gets a
     * tile, and its row id, when positive, is appended to its table's list,
     * the table being added at the end when it is new.
     */
    method RegisterPosition(position: Position, pending: Pending, ghost registered: seq<Position>) returns (next: Pending)
      requires Valid() && pending == Grouped(registered)
      modifies this`areas
      ensures Valid()
      ensures position in old(areas) ==> areas == old(areas) && next == pending
      ensures position !in old(areas) ==>
        && position in areas && areas == old(areas)[position := areas[position]]
        && fresh(areas[position]) && areas[position].raster == Filled(cfg.mapHeight, cfg.mapWidth)
        && next == Grouped(registered + [position])
    {
      next := pending;
      if position !in areas {
        var (table, rid) := RasterDbLocations(position);
        AddArea(position, rid);
        GroupedStep(registered, position);
        var tables, ridsToLoad := pending.tables, pending.rids;
        if rid > 0 {
          if table in ridsToLoad {
            ridsToLoad := ridsToLoad[table := ridsToLoad[table] + [rid]];
          } else {
            tables := tables + [table];
            ridsToLoad := ridsToLoad[table := [rid]];
          }
        }
        next := Pending(tables, ridsToLoad);
      }
    }

    /** `self.areas[position] = Area(rid, position)`: a fresh tile with the no-data raster. */
    method AddArea(position: Position, rid: int)
      requires Valid() && position !in areas && rid == RasterDbLocations(position).1
      modifies this`areas
      ensures Valid()
      ensures position in areas && areas == old(areas)[position := areas[position]]
      ensures fresh(areas[position]) && areas[position].raster == Filled(cfg.mapHeight, cfg.mapWidth)
    {
      ghost var before := areas;
      assert forall p :: p in before ==> before[p].position == p && before[p].rid == RasterDbLocations(p).1;
      var area := new Area(rid, position, cfg.mapHeight, cfg.mapWidth);
      assert forall p :: p in before ==> before[p].position == p && before[p].rid == RasterDbLocations(p).1;
      areas := areas[position := area];
    }

    /** The thread loop of create_areas: each pending table's row ids cut by chunk_array into batches of 10. */
    method LoadRequests(pending: Pending) returns (requests: seq<(Table, seq<seq<int>>)>)
      requires forall t :: t in pending.rids <==> t in pending.tables
      ensures Requested(requests, pending)
    {
      requests := [];
      var t := 0;
      while t < |pending.tables|
        invariant 0 <= t <= |pending.tables|
        invariant Requested(requests, Pending(pending.tables[..t], pending.rids))
      {
        var table := pending.tables[t];
        var batches := ChunkArray(pending.rids[table], 10);
        assert pending.tables[..t + 1] == pending.tables[..t] + [table];
        requests := requests + [(table, batches)];
        t := t + 1;
      }
      assert pending.tables[..|pending.tables|] == pending.tables;
    }

    /**
     * The write-back of get_multiple_rasters for the rows fetched from one
     * table: each row's raster goes into the tile at the position its row id
     * stands for, as Loaded says; a position with no tile stops the rest
     * (ok is false). The set of tiles does not change.
     */
    method LoadRasters(table: Table, rows: seq<(int, Raster)>) returns (ok: bool)
      requires Valid()
      modifies areas.Values
      ensures Valid() && areas == old(areas)
      ensures (Rasters(), ok) == Loaded(old(Rasters()), table, rows)
    {
      var i := 0;
      while i < |rows|
        invariant 0 <= i <= |rows|
        invariant Valid() && areas == old(areas)
        invariant Loaded(Rasters(), table, rows[i..]) == Loaded(old(Rasters()), table, rows)
      {
        var position := InitialPosition(table, rows[i].0);
        assert rows[i..][0] == rows[i] && rows[i..][1..] == rows[i + 1..];
        if position !in areas {
          return false;
        }
        StoreRaster(position, rows[i].1);
        i := i + 1;
      }
      ok := true;
    }

    /**
     * add_real_raster on the tile at `position`: only that tile's raster
     * changes (tiles at other positions are other objects, since each tile
     * records its own position).
     */
    method StoreRaster(position: Position, raster: Raster)
      requires Valid() && position in areas
      modifies areas[position]
      ensures Valid() && areas == old(areas)
      ensures Rasters() == old(Rasters())[position := raster]
    {
      ghost var before := Rasters();
      areas[position].AddRealRaster(raster);
      forall p | p in areas
        ensures Rasters()[p] == before[position := raster][p]
      {
        if p != position {
          assert areas[p].position != areas[position].position;
        }
      }
    }

    // -------------------------------------------------------------------
    // The screen buffer
    // -------------------------------------------------------------------

    /** `displayed_map.fill(None)`. */
    method FillNoData()
      requires Valid()
      modifies displayedMap
      ensures Valid() && Rasters() == old(Rasters())
      ensures Contents(displayedMap) == Filled(cfg.mapHeight, cfg.mapWidth)
    {
      var y := 0;
      while y < displayedMap.Length0
        invariant 0 <= y <= displayedMap.Length0
        invariant forall a, b :: 0 <= a < y && 0 <= b < displayedMap.Length1 ==> displayedMap[a, b] == NoData
      {
        var x := 0;
        while x < displayedMap.Length1
          invariant 0 <= x <= displayedMap.Length1
          invariant forall a, b :: 0 <= a < y && 0 <= b < displayedMap.Length1 ==> displayedMap[a, b] == NoData
          invariant forall b :: 0 <= b < x ==> displayedMap[y, b] == NoData
        {
          displayedMap[y, x] := NoData;
          x := x + 1;
        }
        y := y + 1;
      }
      assert Contents(displayedMap) == Filled(cfg.mapHeight, cfg.mapWidth) by {
        var c, f := Contents(displayedMap), Filled(cfg.mapHeight, cfg.mapWidth);
        forall a | 0 <= a < cfg.mapHeight
          ensures c[a] == f[a]
        {
        }
      }
    }

    /** One slice assignment `displayed_map[top:bottom, left:right] = sub`, cell by cell. */
    method ApplyWrite(wr: Write)
      requires Valid() && Broadcasts(wr)
      requires wr.bottom <= cfg.mapHeight && wr.right <= cfg.mapWidth
      modifies displayedMap
      ensures Rasters() == old(Rasters())
      ensures Contents(displayedMap) == Apply(old(Contents(displayedMap)), wr)
    {
      ghost var before := Contents(displayedMap);
      var y := wr.top;
      while y < wr.bottom
        invariant wr.top <= y <= wr.bottom
        invariant forall a, b :: 0 <= a < cfg.mapHeight && 0 <= b < cfg.mapWidth ==>
          displayedMap[a, b] == (if Covers(wr, a, b) && a < y then SourceCell(wr, a, b) else before[a][b])
      {
        var x := wr.left;
        while x < wr.right
          invariant wr.left <= x <= wr.right
          invariant forall a, b :: 0 <= a < cfg.mapHeight && 0 <= b < cfg.mapWidth ==>
            displayedMap[a, b] == (if Covers(wr, a, b) && (a < y || (a == y && b < x)) then SourceCell(wr, a, b) else before[a][b])
        {
          displayedMap[y, x] := wr.sub[if wr.subH == 1 then 0 else y - wr.top][if wr.subW == 1 then 0 else x - wr.left];
          x := x + 1;
        }
        y := y + 1;
      }
      assert Contents(displayedMap) == Apply(before, wr) by {
        var c, e := Contents(displayedMap), Apply(before, wr);
        forall a | 0 <= a < cfg.mapHeight
          ensures c[a] == e[a]
        {
        }
      }
    }

    /**
     * One turn of render_regular_map's loop: looks the placement's tile up
     * (a KeyError fails) and assigns its displayed nodes into the buffer
     * (shapes numpy refuses fail); on failure the buffer is untouched.
     */
    method RenderPlacement(ps: seq<Placement>, i: nat, ghost rasters: map<Position, Raster>) returns (failed: bool)
      requires Valid() && 1 <= zoomLevel <= 5 && rasters == Rasters()
      requires i < |ps| && i <= Written(ps, rasters, zoomLevel, cfg.mapHeight, cfg.mapWidth)
      requires Contents(displayedMap) == Compose(Filled(cfg.mapHeight, cfg.mapWidth), Writes(ps, rasters, zoomLevel, cfg.mapHeight, cfg.mapWidth, i))
      modifies displayedMap
      ensures Rasters() == rasters
      ensures failed ==> i == Written(ps, rasters, zoomLevel, cfg.mapHeight, cfg.mapWidth) && Contents(displayedMap) == old(Contents(displayedMap))
      ensures !failed ==> (i + 1 <= Written(ps, rasters, zoomLevel, cfg.mapHeight, cfg.mapWidth)
        && Contents(displayedMap) == Compose(Filled(cfg.mapHeight, cfg.mapWidth), Writes(ps, rasters, zoomLevel, cfg.mapHeight, cfg.mapWidth, i + 1)))
    {
      var h, w := cfg.mapHeight, cfg.mapWidth;
      var area := ps[i];
      if area.position !in areas {
        return true;
      }
      var sub := areas[area.position].GetDisplayedNodes(zoomLevel, area.indexes);
      var wr := Write(
        SliceBound(area.camera.startY, h), SliceEnd(area.camera.startY, area.camera.endY, h),
        SliceBound(area.camera.startX, w), SliceEnd(area.camera.startX, area.camera.endX, w),
        sub.value, |sub.value|, CutWidth(area.indexes, w, zoomLevel));
      assert wr == WriteOf(area, areas[area.position].raster, zoomLevel, h, w);
      if !Broadcasts(wr) {
        return true;
      }
      assert Writable(ps[i], rasters, zoomLevel, h, w);
      ApplyWrite(wr);
      ComposeWritesStep(Filled(h, w), ps, rasters, zoomLevel, h, w, i);
      failed := false;
    }

    /**
     * render_regular_map, without the drawing to the screen: the placements are computed,
     * the buffer is filled with no-data, then each placement's displayed
     * nodes are assigned into its camera rectangle, in order. A missing tile
     * (KeyError) or shapes numpy refuses stop the frame there (ok is false);
     * an unknown level stops it before the fill. The buffer ends as
     * RenderedMap says.
     */
    method RenderRegularMap() returns (ok: bool)
      requires Valid()
      modifies displayedMap
      ensures match RenderedMap(cfg, zoomLevel, mapCenter, verticalOffset, horizontalOffset, Rasters())
        case None => !ok && Contents(displayedMap) == old(Contents(displayedMap))
        case Some(result) => ok == result.1 && Contents(displayedMap) == result.0
    {
      var areaToCheck := GetArrayAndCamera();
      if areaToCheck.None? {
        return false;
      }
      var ps := areaToCheck.value;
      ghost var rasters := Rasters();
      assert 1 <= zoomLevel <= 5;
      var written := DrawPlacements(ps, rasters);
      ok := written == |ps|;
    }

    /**
     * The buffer part of render_regular_map once the placements are known:
     * the buffer is filled with no-data, then each placement is written in
     * turn until one fails.
     */
    method DrawPlacements(ps: seq<Placement>, ghost rasters: map<Position, Raster>) returns (written: nat)
      requires Valid() && 1 <= zoomLevel <= 5 && rasters == Rasters()
      modifies displayedMap
      ensures Rasters() == rasters
      ensures written == Written(ps, rasters, zoomLevel, cfg.mapHeight, cfg.mapWidth)
      ensures Contents(displayedMap) == Compose(Filled(cfg.mapHeight, cfg.mapWidth), Writes(ps, rasters, zoomLevel, cfg.mapHeight, cfg.mapWidth, written))
    {
      var h, w := cfg.mapHeight, cfg.mapWidth;
      FillNoData();
      var i := 0;
      assert Writes(ps, rasters, zoomLevel, h, w, 0) == [];
      while i < |ps|
        invariant i <= Written(ps, rasters, zoomLevel, h, w)
        invariant Contents(displayedMap) == Compose(Filled(h, w), Writes(ps, rasters, zoomLevel, h, w, i))
        invariant Rasters() == rasters
      {
        var failed := RenderPlacement(ps, i, rasters);
        if failed {
          break;
        }
        i := i + 1;
      }
      written := i;
    }
  }
}
