# World map viewer: the tile-viewport compositor

This project is a Dafny model of the core of a Python world-map viewer.
The viewer shows a scrollable elevation map assembled from square raster tiles.
The tiles are stored in a sharded database: tables of 34 or 48 tile rows by 48 tile columns, with a 1-based row id (`rid`) per tile.
The model covers the integer bookkeeping that turns a map centre, a zoom level and two scroll offsets into tile lookups and screen-buffer writes:

- **Shard addressing.** `Addressing` maps a tile position to its table and row id and back; the test script's duplicated functions and its round-trip loop are covered too.
- **Helpers.** `Helpers` covers `format_table_name`, the integer bounds of `generate_intervals`, `chunk_array` and `find_changed_indices`.
- **Tiles.** `Areas` holds the `Area` tile class and its zoom sampler: decimation by stride 1, 2, 4, 10 or 20 for levels 5..1, followed by a rectangular cut.
- **Placement cursor.** `Dispatch` is the `ChunkDispacher` class, the per-axis cursor that hands out destination (`camera`) and source (`indexes`) spans.
- **Viewport enumeration.** `Viewport` holds the pure parts of `world_map.py`:
  - the chunk information;
  - the spans along one axis, and the clamp numpy applies to them as slice bounds;
  - the column wrap;
  - the list of placements;
  - the neighbour enumeration.
- **Buffer assembly.** `Render` models the numpy slice assignments of `render_regular_map` and proves the frame theorem: each buffer cell shows the sampled node of the one tile whose clamped span holds it.
- **State machine.** `Movement` models the viewport state machine: scrolling with threshold crossings, the zoom keys, the mouse wheel, and the render-type and map-mode switches.
- **The viewer object.** `WorldMaps` has the `WorldMap` class: the viewer's state with imperative methods that update it in place, each proved against the functions above.

`Grid` holds the shared values:
- an `Option` type;
- raster cells, where `NoData` stands for the no-data fill;
- rasters as sequences of rows;
- Python's slice semantics.

The constants of `pygame_config` (not part of this model) are the `Config` parameter:
- `MAP_DIMENSIONS`;
- `STARTING_INDEXES`;
- `MAX_VERTICAL_CHUNK`;
- `MAX_HORIZONTAL_CHUNK`.

`ZOOM_LVL_MODIFICATOR` is taken to be the stride area.py uses at each level. `ValidConfig` asks that both map sides be positive multiples of 40, so every Python `/` on them is exact at every level.

Python's `floor(a / 48)`, `//` and `%` with a positive divisor agree with Dafny's Euclidean `/` and `%`. Negative coordinates are therefore modelled exactly as the source computes them.

Quirks of the code that the model keeps as written:
- **Column wrap.** A column left of 0 becomes `MAX_HORIZONTAL_CHUNK - |modifier|`, and one right of `MAX_HORIZONTAL_CHUNK` becomes `|modifier|` (world_map.py:354-355, 394-395). This is not a modulus: `Viewport.WrapColumnIsNotModular` shows that the wrap agrees with `col mod (MAX_HORIZONTAL_CHUNK + 1)` only when no wrap happens.
- **Scroll offsets.** An "up" or "left" crossing sets the offset to `threshold + overshoot`, above the threshold, while "down" and "right" set it to `-(threshold - overshoot)` (world_map.py:462, 473, 482, 492). The bound the moves keep is `-T <= offset <= T + displacement` (`Movement.MoveKeepsBound`).
- **Zoom range.** The mouse wheel changes the level by one with no bound (world_map.py:86-90). At a level outside 1..5 every lookup keyed by the level fails: the model returns `None` there. A "+" or "-" step that lands outside 1..5 raises at the threshold lookup and ends the key handler (`Movement.ZoomKeysFailure`).
- **Last tile.** The dispatcher's `get_ending_*` returns the destination end `cursor + chunk`, which lies past the buffer whenever the offset is non-zero (`Viewport.EndingOverrunsBuffer`). The spans tile the buffer only because numpy clamps the slice end at world_map.py:169; the model states that clamp explicitly (`Grid.SliceEnd`, `Viewport.DestHi`).
- **Start offset and the wheel.** The viewer starts scrolled 100 rows down at level 5 (world_map.py:29). This is within one tile only on maps of at least 190 rows (`Movement.InitialViewBounded`). The wheel changes the level without resetting the offsets, so it can leave an offset larger than a tile (`Movement.WheelLeavesBound`). Key presses alone keep a bounded view bounded (`Movement.KeyPressKeepsBound`).
- **Hard-coded edges.** The row and column edges of `handle_movements` are the literals 350 and 580, not `MAX_VERTICAL_CHUNK` and `MAX_HORIZONTAL_CHUNK`.
- **Unused counters.** `remaining_height` and `remaining_width` are never read. `get_start_*` subtracts `abs(camera_end - camera_end)`, which is 0.

## Model

The functions that compute without a contract of their own are named in the rows of the lemmas about them. `Addressing.Rid`, for example, appears in the `Addressing.RidRoundTrip` row.

| member | source | states |
|---|---|---|
| Grid.Filled | area.py:26-27 | the shared empty raster: the buffer's shape, every cell the no-data value |
| Grid.SliceBound | world_map.py:169 | numpy's normalisation of one slice bound: a negative bound counts from the end, and the result is clamped to [0, n]; a bound in [0, n] is kept, and one past n becomes n |
| Grid.SliceEnd | world_map.py:169 | where a slice stops: never before its start and never past n; an end inside the sequence is kept, and an end past it is clamped to n |
| Grid.Slice | area.py:58-60 | `s[lo:hi]` is `s[SliceBound(lo)..SliceEnd(lo, hi)]`, and exactly `s[lo..hi]` when 0 <= lo <= hi <= n |
| Addressing.TableAndRelativePosition | helpers.py:74-91 | `InitialFromTableAndRelative` (helpers.py:94-106) inverts this; rows below 34 go to table row 0 with relative row = row; any other row goes to table row 1 + (row-34) div 48 with relative row (row-34) mod 48; the table column is col div 48 and the relative column col mod 48, in [0, 48) |
| Addressing.PositionFromRid | helpers.py:120-124 | the relative column is in [0, 48), and `get_rid` of the result gives back the row id (it inverts `get_rid`) |
| Addressing.RidRoundTrip | helpers.py:108-124 | `Rid` is `get_rid` (helpers.py:109-110); for a relative column in [0, 48), `get_position_from_rid(get_rid(r)) == r` |
| Addressing.RidIsPositive | helpers.py:108-110 | a relative row >= 0 and a column in [0, 48) give a row id >= 1 |
| Addressing.ForwardRoundTrip | helpers.py:67-118 | `RasterDbLocations` is `get_raster_db_locations` (helpers.py:67-72) and `InitialPosition` is `get_initial_position` (helpers.py:113-118); for every position, positive or not, `get_initial_position(*get_raster_db_locations(p)) == p` |
| Addressing.LocationsInjective | helpers.py:67-72 | two positions stored under the same table and row id are the same position |
| Addressing.ReverseRoundTrip | helpers.py:93-124 | with `InitialPosition` and `RasterDbLocations`: table and row id, to a position, and back, gives the same table and row id exactly when the row id is <= 34*48 in table row 0, or in 1..48*48 in any later table row |
| Addressing.FirstBandOverflow | helpers.py:99-104 | a table-row-0 row id in 1633..2304 reads back into table row 1 |
| Addressing.BoundaryScenarios | test.py:50-69 | (34,20) goes to table (1,0), relative (0,20), rid 21; (34,19) goes to rid 20; (33,41) goes to table (0,0) rid 1626; (32,41) goes to rid 1578; (36,39) goes to table (1,0), relative (2,39), rid 136 |
| Addressing.InverseScenario | test.py:79-98 | `get_position_from_rid(21) == (0,20)`; relative (0,20) in table (1,0) is (34,20); `get_initial_position((1,0), 21) == (34,20)` |
| Addressing.TestPositionsRoundTrip | test.py:100-109 | every position the test loop lists comes back from its table and row id |
| Helpers.DigitChar | helpers.py:135-138 | a digit below 10 is written as the character whose code is '0' plus the digit |
| Helpers.Digits | helpers.py:135-138 | the decimal digits of n: one or more digit characters; one digit exactly when n < 10, two exactly when 10 <= n < 100 |
| Helpers.DigitsRoundTrip | helpers.py:135-138 | reading the written digits back gives n |
| Helpers.PaddedValue | helpers.py:136-137 | `Pad2` is `f"{n:02}"`; `f"{n:02}"` for 0 <= n <= 99 is two digit characters that read back as n |
| Helpers.FormatTableNameRoundTrip | helpers.py:135-138 | `FormatTableName` is `format_table_name`; for 0 <= y, x <= 99 the table name has length 5, its third character is '_', and its first and last two characters read back as y and x |
| Helpers.FormatTableNameExample | helpers.py:135-138 | `format_table_name(1, 0) == "01_00"` |
| Helpers.Intervals | helpers.py:140-145 | the bounds of the intervals `range(i, stop, step)` yields are empty exactly when the range is |
| Helpers.IntervalsShape | helpers.py:140-145 | the first interval starts at i; each has max = min + step - 1; each next min is the previous max + 1; with a positive step every min is below stop and the last interval reaches stop |
| Helpers.GenerateIntervals | helpers.py:140-145 | the appending loop returns exactly the bounds `Intervals(start, end + step, step)` |
| Helpers.AppendInterval | helpers.py:142-143 | one turn of the loop moves the next interval from the remaining range onto the list |
| Helpers.IntervalsCover | helpers.py:140-145 | with step >= 1 and start <= end: the bounds are non-empty, the first min is start, each next min is the previous max + 1, and the last max is >= end |
| Helpers.ChunkArray | helpers.py:153-156 | for size >= 1 the chunks concatenate back to the array, every chunk has 1..size elements, and every chunk but the last has exactly size; a negative size yields nothing |
| Helpers.RowChanges | helpers.py:147-151 | the changed cells of one row: exactly the columns where the two rows differ, in increasing order |
| Helpers.ChangesUpTo | helpers.py:147-151 | the changed cells of the first n rows: exactly the (i, j) where the arrays differ, in row-major order |
| Helpers.ChangedIndices | helpers.py:147-151 | `find_changed_indices` returns exactly the (i, j) where A[i][j] != B[i][j], in row-major order, and nothing for equal arrays |
| Areas.Stride | area.py:62-76 | the stride of levels 5, 4, 3, 2, 1 is 1, 2, 4, 10, 20; any other level has none |
| Areas.Every | area.py:66-76 | `s[::step]` has ceil(n/step) elements, element k being s[k*step] |
| Areas.DecimateByOne | area.py:63-64 | stride 1 keeps the raster unchanged |
| Areas.DecimateSamples | area.py:66-76 | `Decimate` is `raster[::s, ::s]`; a decimated h-by-w raster has ceil(h/s) rows of ceil(w/s) cells, and its cell [i][j] is r[i*s][j*s] |
| Areas.ZoomedRaster | area.py:62-76 | `get_zoomed_raster` returns the raster unchanged at level 5, the decimation by the level's stride at levels 4..1, and nothing (None) at any other level |
| Areas.SubsetOfNodesBlock | area.py:58-60 | `SubsetOfNodes` is `get_subset_of_nodes`; a cut with 0 <= sy <= ey <= h and 0 <= sx <= ex <= w is an (ey-sy)-by-(ex-sx) block whose [i][j] is r[sy+i][sx+j] |
| Areas.DisplayedNodes | area.py:46-56 | `Areas.Area.GetDisplayedNodes` applies it to a tile's raster (used by `WorldMaps.WorldMap.RenderPlacement`); `get_displayed_nodes` has a result exactly at levels 1..5 |
| Areas.DisplayedNodesSamples | area.py:46-76 | for a cut inside the zoomed view, the displayed nodes are a block of the cut's shape whose [i][j] is the original cell ((sy+i)*s, (sx+j)*s) |
| Areas.DisplayedNodesCell | area.py:46-76 | one cell of that block, with its source index inside the raster |
| Areas.Area.constructor | area.py:29-33 | a new tile keeps its row id and position and holds the no-data raster |
| Areas.Area.AddRealRaster | area.py:42-43 | only the raster changes, to the decoded one |
| Dispatch.StartSpan | chunk_dispacher.py:22-43 | the first tile starts at camera 0 and ends its source at chunk; camera_end is chunk, chunk-\|off\| or \|off\| for a zero, positive or negative offset; the source span is as long as the destination and lies in [0, chunk] when \|off\| <= chunk |
| Dispatch.MiddleSpan | chunk_dispacher.py:46-53 | a middle tile covers [cursor, cursor+chunk) with the whole source [0, chunk) |
| Dispatch.EndingSpan | chunk_dispacher.py:55-68 | the last tile covers [cursor, cursor+chunk) with the source head [0, k), k being chunk, \|off\| or chunk-\|off\| for a zero, positive or negative offset |
| Dispatch.ChunkDispacher.constructor | chunk_dispacher.py:5-20 | remaining_* start at the map sides, both cursors at 0, the signed offsets are kept and their magnitudes stored |
| Dispatch.ChunkDispacher.GetStartY | chunk_dispacher.py:22-43 | returns StartSpan of the vertical offset, sets y_start to its camera_end, and leaves remaining_height unchanged; nothing else changes |
| Dispatch.ChunkDispacher.GetMiddleY | chunk_dispacher.py:46-53 | returns MiddleSpan at the old cursor, advances y_start by chunk and lowers remaining_height by chunk; nothing else changes |
| Dispatch.ChunkDispacher.GetEndingY | chunk_dispacher.py:55-68 | returns EndingSpan at the cursor and changes nothing |
| Dispatch.ChunkDispacher.GetStartX | chunk_dispacher.py:70-88 | as GetStartY along the columns, touching only x_start and remaining_width |
| Dispatch.ChunkDispacher.GetMiddleX | chunk_dispacher.py:90-99 | as GetMiddleY along the columns, touching only x_start and remaining_width |
| Dispatch.ChunkDispacher.GetEndingX | chunk_dispacher.py:101-117 | as GetEndingY along the columns, changing nothing |
| Viewport.BaseIsEven | world_map.py:429-430 | a side divisible by 40 divides by every stride into an even number >= 2 of cells per tile |
| Viewport.TileSide | world_map.py:429-430 | a tile side times the stride is the map side, and twice the stride times the threshold (side / 2 / stride) is the side too |
| Viewport.ChunksAndInformations | world_map.py:425-449 | the base spans are map side / stride; the per-axis count is the stride, plus 1 exactly when that offset is non-zero; the range start is STARTING_INDEXES[z], minus 1 exactly when that offset is negative; an unknown level fails |
| Viewport.AxisSpans | world_map.py:376-404 | one span per tile along the axis |
| Viewport.DestHi | world_map.py:169 | the clamped end of a destination span lies between its clamped start and the buffer side |
| Viewport.LastCursor | chunk_dispacher.py:46-68 | the cursor of the last tile is the buffer side minus what that tile shows |
| Viewport.AxisSpanAt | world_map.py:376-404 | the k-th span, clamped, starts at 0 or at FirstEnd + (k-1)*chunk, ends at the buffer side for the last tile and at FirstEnd + k*chunk otherwise, and is as long as its source span, which lies in [0, chunk] |
| Viewport.MiddleSpanAt | world_map.py:384-385 | a middle span is a whole tile inside the buffer, one tile after the previous one |
| Viewport.LastSpanAt | world_map.py:381-382 | the last span starts at the buffer side minus what it shows, and its source is that many cells |
| Viewport.AxisPartition | world_map.py:374-421 | with the side n whole tiles and \|offset\| <= one tile, the clamped destination spans start at 0, each starts where the previous ends, the last ends at the side, and each source span lies in the tile and matches its destination in length |
| Viewport.TilesAxisDisjoint | world_map.py:374-421 | in such a tiling an earlier span ends before a later one begins |
| Viewport.AxisOwner | world_map.py:374-421 | every buffer index from the first span on lies in some span of the tiling |
| Viewport.AxisOwnerUnique | world_map.py:374-421 | only one span of the tiling holds a given buffer index |
| Viewport.EndingOverrunsBuffer | chunk_dispacher.py:55-68 | with 0 < \|offset\| < chunk, the last span's unclamped end lies past the buffer |
| Viewport.WrapColumnInRange | world_map.py:354-355 | `WrapColumn` is the column wrap of world_map.py:354-355 and 394-395; a centre column in [0, maxH] with \|modifier\| <= maxH lands in [0, maxH] after the wrap |
| Viewport.WrapColumnIsNotModular | world_map.py:394-395 | the wrap equals (center + modifier) mod (maxH + 1) exactly when the column needs no wrapping |
| Viewport.RowPlacements | world_map.py:387-421 | a row of tiles gives either no placement (row outside the grid) or one per column |
| Viewport.PlacementsUpToMembers | world_map.py:376-421 | the placements are exactly the tiles of the shown rows, every column of each |
| Viewport.ArrayAndCameraInGrid | world_map.py:389-395 | `ArrayAndCamera` is the pure form of `get_array_and_camera` (world_map.py:362-423); every emitted position has its row in [0, MAX_VERTICAL_CHUNK]; its column is in [0, MAX_HORIZONTAL_CHUNK] when the centre column is and every column modifier is at most that wide |
| Viewport.Radius | world_map.py:340-344 | the radius exists exactly at levels 1..5 and is between 1 and 11 |
| Viewport.NeighbourRowMembers | world_map.py:347-358 | `TilePosition` is the row check and wrap of world_map.py:352-355 and 391-395; a row of neighbours lists exactly its unknown, in-grid, wrapped positions |
| Viewport.NeighboursUpToMembers | world_map.py:346-358 | the first rows list exactly their unknown, in-grid, wrapped positions |
| Viewport.NewAreasNearCenterExact | world_map.py:336-360 | `NewAreasNearCenter` is the pure form of the loop; `get_new_area_near_center` returns exactly the unknown positions within the level's radius (1, 2, 3, 6, 11) whose row is in the grid; their columns are in range when the centre column is and maxH is at least the radius |
| Render.Apply | world_map.py:169 | one slice assignment keeps the buffer's shape |
| Render.Compose | world_map.py:161-169 | the writes applied in order keep the buffer's shape |
| Render.ComposeUntouched | world_map.py:159-169 | a cell no write reaches keeps its earlier value |
| Render.ComposeAgreed | world_map.py:161-169 | a cell that some write reaches holds v when every write reaching it puts v there |
| Render.Written | world_map.py:161-169 | the writes before the first failing one: all earlier placements are writable, and the one at the stop is not |
| Render.Writes | world_map.py:161-169 | the first k writes, each the assignment of its placement's displayed nodes |
| Render.WrittenPast | world_map.py:161-169 | a writable placement right after the written ones is written too |
| Render.ComposeWritesStep | world_map.py:165-169 | writing placement k onto the buffer after the first k writes gives the buffer after k+1 writes |
| Render.KeptOfWholeTiles | area.py:66-76 | decimating a side of s whole tiles by s keeps one tile's worth of cells |
| Render.FrameAxes | world_map.py:374-449 | with the offsets within one tile both axes are tiled, and a decimated tile side equals the base span |
| Render.WriteOfSpansShape | world_map.py:165-169 | the assignment for spans that fit is accepted without broadcasting, and its block is exactly the clamped destination |
| Render.SourceCellUnbroadcast | world_map.py:169 | without broadcasting a write puts its source cell at the same offset into its block |
| Render.SpanCellIsDisplayed | area.py:46-60 | the cell a span pair writes is the tile's displayed node at the offset into the destination |
| Render.WriteOfSpansCell | world_map.py:165-169 | a span pair's write covers (y, x) and puts there the displayed node at (y, x)'s offset into its destination |
| Render.WrittenAll | world_map.py:161-169 | when every placement can be written, all are written |
| Render.TileAt | world_map.py:376-421 | the tile at row k, column j of a shown row is a placement of the frame, with spans that fit |
| Render.PlacementIsTile | world_map.py:376-421 | every placement of the frame is the tile of some shown row and column |
| Render.FrameWritable | world_map.py:161-169 | with the offsets within one tile and every placed tile loaded, no write of the frame fails |
| Render.CoveringWrite | world_map.py:161-169 | a write of the frame that reaches (y, x) is the write of the tile owning (y, x) |
| Render.RenderedFrameCell | world_map.py:159-169 | cell (y, x) of the rendered buffer is FrameCell: the sampled node of the owning tile, or the no-data fill in a skipped row |
| Render.RenderedFrame | world_map.py:159-169 | `RenderedMap` is the buffer `render_regular_map` leaves (world_map.py:152-169); frame theorem: every write succeeds, the buffer has the map's shape, and each cell is the decimated node of the one tile whose clamped destination holds it (no-data in rows outside the grid) |
| Movement.Thresholds | world_map.py:453-454 | the thresholds exist exactly at levels 1..5, are >= 1, and twice the stride times each threshold is the map side |
| Movement.Move | world_map.py:451-496 | `handle_movements` fails exactly at an unknown level; it keeps the level; vertical moves keep the horizontal offset and column, and horizontal moves keep the vertical offset and row |
| Movement.StepForwardAdvances | world_map.py:467-476 | `StepForward` is the down/right offset update; with \|offset\| <= T, a forward step crosses exactly when the offset is positive and the displacement reaches T - offset, and tile*2T + offset grows by exactly the displacement |
| Movement.StepBackwardOvershoots | world_map.py:456-465 | `StepBackward` is the up/left offset update; from a negative offset a backward step crosses exactly when the displacement reaches T - \|offset\|, and then leaves the offset at T + overshoot, at or above T |
| Movement.StepBackwardFromNonNegative | world_map.py:459-465 | a backward step from a non-negative offset never crosses and subtracts the displacement |
| Movement.StepAsymmetry | world_map.py:456-476 | the two crossing rules are not mirror images: from -48 with T = 50 and 5 "up" gives 53, and from 48 "down" gives -47 |
| Movement.RowEdges | world_map.py:456-468 | "up" at row 0 and "down" at row 350 change nothing |
| Movement.ColumnWraps | world_map.py:478-494 | a "right" crossing at column 580 wraps to 0, and a "left" crossing at column 0 wraps to MAX_HORIZONTAL_CHUNK |
| Movement.MoveForwardAdvances | world_map.py:467-496 | "down" and "right" away from the edges with \|offset\| <= T advance center*2T + offset by exactly the displacement |
| Movement.StepsKeepBound | world_map.py:456-496 | with the displacement at most T, a step keeps -T <= offset <= T + displacement |
| Movement.MoveKeepsBound | world_map.py:451-496 | every move keeps that bound on both offsets |
| Movement.BoundedViewFitsFrame | world_map.py:429-454 | a bounded view's offsets are at most one tile, the hypothesis of the frame theorem |
| Movement.ZoomKeysKeepLevel | world_map.py:96-108 | `ZoomStep` is one zoom key and `ZoomKeys` both, in source order; from a level in [1, 5] the +/- keys complete and keep the level in [1, 5]; they never move the centre; the offsets are either unchanged or both 0, both 0 whenever the level changes; with no key the view is unchanged and nothing fails |
| Movement.ZoomKeysFailure | world_map.py:96-108 | the zoom keys fail only when a key was pressed and the level reached is outside 1..5, and a completed change lands inside 1..5; a failing "+" has already raised the level by one; "-" at level 0 or below, "+" at -1 or below or at 6 or above, and "-" at 7 or above all fail |
| Movement.WheelIsUnbounded | world_map.py:86-90 | `Wheel` is `handle_mouse_wheel`; the wheel takes level 5 to 6, where a move fails |
| Movement.ArrowKeys | world_map.py:110-113 | the arrow keys fail exactly when one is pressed at an unknown level; they keep the level, and change nothing when none is pressed |
| Movement.KeyPressView | world_map.py:96-113 | the view after the zoom and arrow keys exists exactly when the zoom keys complete and then either the level is in 1..5 or no arrow is pressed; it has the zoom keys' level |
| Movement.ThresholdsAtLeast | world_map.py:453-454 | every level's thresholds are at least a 40th of the sides |
| Movement.KeyPressKeepsBound | world_map.py:92-113 | from a bounded view, with the displacement at most a 40th of each side, a key press never fails and keeps the bound |
| Movement.InitialViewBounded | world_map.py:20-32 | the start view (level 5, offsets 100 and 0, displacement 5) is bounded exactly when the map has at least 190 rows |
| Movement.WheelLeavesBound | world_map.py:86-90 | the wheel does not keep the bound: on a 400-row map four notches down take the bounded start view to level 1 with offset 100, which is not bounded |
| Movement.KeepsBoundIf | world_map.py:110-113 | one arrow key from a bounded view never fails and keeps the bound |
| Movement.RenderTypeCycles | world_map.py:123-126 | `NextRenderType` is one switch; `switch_render_mode` comes back after three switches and not after one or two |
| Movement.MapModeInvolution | world_map.py:128-130 | `NextMapMode` is one switch; `switch_map_mode` twice restores the mode, and once changes it |
| WorldMaps.Contents | world_map.py:26 | the buffer read as a raster has its shape and its cells |
| WorldMaps.Registered | world_map.py:136-140 | the positions create_areas registers are exactly the listed ones not already known, without repetition |
| WorldMaps.RegisteredStep | world_map.py:136-140 | one more listed position is registered when it is neither known nor already registered |
| WorldMaps.Grouped | world_map.py:134-143 | rids_to_load has an entry exactly for each table met, each table once |
| WorldMaps.GroupedStep | world_map.py:139-143 | one more position appends its positive row id under its table, opening the table when it is new |
| WorldMaps.GroupedMembers | world_map.py:134-143 | every position with a positive row id is queued under its own table, and every queued row id is the positive id of a registered position |
| WorldMaps.GroupedOnce | world_map.py:136-143 | when no position repeats, no table's pending list repeats a row id: distinct positions have distinct table and row id, and known positions are skipped |
| WorldMaps.GridRowsHaveIds | world_map.py:139-141 | a position with row >= 0 has a row id >= 1, so it is always queued |
| WorldMaps.NothingPending | world_map.py:145 | no pending table exactly when rids_to_load is empty |
| WorldMaps.Loaded | helpers.py:61-63 | the loader's write-back keeps the set of tiles, and a tile no fetched row maps to keeps its raster |
| WorldMaps.InitialPositionInjective | helpers.py:113-124 | two row ids of one table stand for the same position only when they are equal |
| WorldMaps.LoadedLands | helpers.py:61-63 | when every fetched row maps to a tile, the write-back completes and each row's raster lands at its position, unless a later row has the same id |
| WorldMaps.LoadedReachesAskingTile | helpers.py:61-63 | a fetched row lands in the very tile whose position asked for that table and row id |
| WorldMaps.WorldMap.Rasters | area.py:32-43 | the rasters the registered tiles hold, one per position |
| WorldMaps.WorldMap.constructor | world_map.py:19-40 | level 5, offsets (100, 0), displacement 5, running, regular map, full rerender, golden centre and silent mode off, a buffer of ones; then create_areas gives every position around the centre a fresh no-data tile and no others |
| WorldMaps.WorldMap.CreateInitialAreas | world_map.py:40 | the constructor's create_areas call: starting from no tile at level 5, exactly the positions around the centre get fresh no-data tiles |
| WorldMaps.WorldMap.HandleMouseWheel | world_map.py:86-90 | the level moves by one per notch, with no bound |
| WorldMaps.WorldMap.SwitchRenderMode | world_map.py:123-126 | the render type moves to the next in the cycle |
| WorldMaps.WorldMap.SwitchMapMode | world_map.py:128-130 | the map mode swaps |
| WorldMaps.WorldMap.HandleMovements | world_map.py:451-496 | the view becomes Move's result; at an unknown level the method fails and nothing changes |
| WorldMaps.WorldMap.MoveIfPressed | world_map.py:110-113 | one arrow key: the move when pressed, nothing otherwise |
| WorldMaps.WorldMap.HandleArrowKeys | world_map.py:110-113 | the view becomes ArrowKeys' result, or is unchanged when it fails |
| WorldMaps.WorldMap.HandleKeyPress | world_map.py:92-121 | escape stops the loop; the view becomes KeyPressView's result; tab, g, s and m switch their settings; then create_areas registers the new tiles and returns their load requests, each new row id once; a zoom step landing outside 1..5, or an arrow at an unknown level, stops the handler where the zoom keys left the view, with no toggle, no create_areas and no request |
| WorldMaps.WorldMap.HandleKeys | world_map.py:92-118 | the key part of the handler: the running flag; the view as KeyPressView says, or where the zoom keys stopped when it fails; the four toggles exactly when it does not fail |
| WorldMaps.WorldMap.HandleZoomKeys | world_map.py:96-108 | the view becomes the one ZoomKeys reaches, and the result says whether the threshold lookup after every step succeeded |
| WorldMaps.WorldMap.HandleToggleKeys | world_map.py:115-118 | each of tab, g, s and m switches its setting when pressed |
| WorldMaps.WorldMap.GetNewAreaNearCenter | world_map.py:336-360 | the nested loop returns NewAreasNearCenter of the current state |
| WorldMaps.WorldMap.ColumnSpan | world_map.py:397-404 | the dispatcher call for column j returns the j-th column span and leaves the cursor where the next call expects it |
| WorldMaps.WorldMap.PlaceRow | world_map.py:387-421 | one row of the loop appends exactly RowPlacements of that row and keeps the row cursor |
| WorldMaps.WorldMap.GetArrayAndCamera | world_map.py:362-423 | the loop over a ChunkDispacher returns exactly ArrayAndCamera of the current state |
| WorldMaps.WorldMap.CreateAreas | world_map.py:132-150 | every unknown position around the centre gets a fresh no-data tile, old tiles are kept, and the requests load each new positive row id exactly once, under its own table, in chunk_array's batches of 10, the last holding 1..10; an unknown level changes nothing |
| WorldMaps.WorldMap.RegisterAreas | world_map.py:136-143 | the loop registers exactly the unknown listed positions with fresh no-data tiles, keeps the old ones, and groups the new row ids as Grouped says |
| WorldMaps.WorldMap.RegisterNext | world_map.py:136-143 | one turn of that loop: the new position is registered exactly when it is neither known at the start nor registered already, the tiles from before are kept, and the new tile is fresh and holds no data |
| WorldMaps.WorldMap.RegisterPosition | world_map.py:137-143 | one position: skipped when known, otherwise registered and its row id queued |
| WorldMaps.WorldMap.AddArea | world_map.py:140 | a fresh tile with the no-data raster is stored under the position, and nothing else in the map changes |
| WorldMaps.WorldMap.LoadRequests | world_map.py:147-150 | one request per pending table, in order, its row ids cut by chunk_array into batches that join back to the list, every batch but the last of exactly 10 and the last of 1..10 |
| WorldMaps.WorldMap.LoadRasters | helpers.py:61-63 | the tiles' rasters become Loaded's result, the set of tiles does not change, and ok says whether every row was placed |
| WorldMaps.WorldMap.StoreRaster | helpers.py:63 | `add_real_raster` on one registered tile: only its raster changes |
| WorldMaps.WorldMap.FillNoData | world_map.py:159 | every buffer cell becomes no-data, and the tiles are untouched |
| WorldMaps.WorldMap.ApplyWrite | world_map.py:169 | one slice assignment: the buffer becomes Apply of the old buffer, and the tiles are untouched |
| WorldMaps.WorldMap.RenderPlacement | world_map.py:161-169 | one placement: a missing tile or refused shapes fail with the buffer unchanged; otherwise the buffer holds the first k+1 writes |
| WorldMaps.WorldMap.DrawPlacements | world_map.py:159-169 | the buffer is the no-data fill with exactly the writes before the first failing one applied |
| WorldMaps.WorldMap.RenderRegularMap | world_map.py:152-169 | the buffer ends as RenderedMap says, and ok says whether every placement was written; at an unknown level the buffer is unchanged |

## Left out

- The pygame window, the event loop, key and mouse polling, drawing rectangles and display updates (world_map.py:43-80, 171-228) are I/O. Key presses and wheel notches are method parameters (`Keys`, `direction`).
- `handle_click` does nothing and is not modelled.
- The topographic mode (world_map.py:230-333) is not modelled: skimage labelling and contour finding are foreign float computations.
- The `topographic_intervals` updates in the constructor and the zoom keys (world_map.py:33, 101, 108) are left out, because they only feed the topographic mode. `TOPOGRAPHIC_THRESHOLDS` lives in pygame_config, which is not part of this model; it is taken to be keyed by the levels 1..5, so its lookup after a zoom step fails exactly when the step lands outside 1..5, and the model stops the handler there.
- The colour maths is left out: `interpolate`, `get_node_color`, `round_to_nearest_x` and the colour component of `generate_intervals` (helpers.py:127-145, 158-162).
- Helpers.GenerateIntervals: models the integer bounds only; a zero step, where Python's `range` raises, is excluded by the precondition. The colour term `(i + step - 1) / end` is left out with the colours, and with it the ZeroDivisionError it raises when `end` is 0 (helpers.py:143).
- Helpers.ChunkArray: a chunk size of 0, where Python's `range` raises, is excluded by the precondition. The default `chunk_size = 5` (helpers.py:153) is not modelled: the size is always passed, and the only caller passes 10.
- The golden-centre bookkeeping and the copy of the buffer kept for partial rerendering (world_map.py:154-155, 166) are left out, because they only feed the drawing.
- Database access (`connect_to_db`, `get_raster`, the SQL of `get_multiple_rasters`, db_helpers.py) is I/O. The fetched rows are a parameter of `WorldMaps.WorldMap.LoadRasters`, which models only the write-back at helpers.py:61-63.
- GeoTIFF decoding through tempfile and rasterio (area.py:35-40) and the `timing` decorator are not modelled. `AddRealRaster` receives the decoded raster.
- `WorldMaps.WorldMap.CreateAreas`: the source starts one thread per batch. The model returns the batches as load requests instead of running them; concurrency and the interleaving of the loader threads with rendering are not modelled.
- WorldMaps.WorldMap.constructor: the load requests its create_areas call makes are not returned, because a constructor here has no result. The tiles it registers are stated.
- The no-data fill is `None` in the source, which numpy stores as NaN, and NaN never equals itself. The model uses a distinct `NoData` value with ordinary equality, so `find_changed_indices` does not report every empty cell as changed.
- Raster cells are integers here, while the source holds floats; `np.ones` is `Height(1)`.
- The `lru_cache` decorators are memoisation only and are modelled as plain functions. On ndarrays, `find_changed_indices`' cache would raise on unhashable arguments; the model does not capture that.
- A numpy assignment with shapes it cannot broadcast raises. The model stops the frame at that write (`Render.Written`). `Render.CutWidth` takes the width of the cut from the map's width, not from the raster's. So a loaded raster of the map's width but another height follows numpy exactly. A narrower raster can be refused where numpy would broadcast: a one-column raster gives an (R, 1) block, which numpy spreads over the destination, but `Render.Broadcasts` refuses it.
- main.py, `.env` loading and the commented-out block of test.py are not part of this model. The functions duplicated in test.py (test.py:39-98) are the same as their namesakes in helpers.py apart from a `print`, so the model defines them once, in `Addressing`.
- Render.RenderedFrame: the frame theorem covers offsets within one tile and every placed tile loaded with the map's shape. For other states the model gives the buffer (`Render.RenderedMap`) but no cell-by-cell description.
