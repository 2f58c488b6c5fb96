/**
 * The viewport state machine of world_map.py as functions of the state:
 * scrolling (handle_movements), the zoom keys, the mouse wheel and the
 * render-type and map-mode switches.
 */
module Movement {
  import opened Grid
  import opened Areas
  import opened Dispatch
  import opened Viewport

  datatype Direction = Up | Down | Left | Right

  /** The part of the viewer's state scrolling and zooming change. */
  datatype View = View(center: (int, int), zoom: int, verticalOffset: int, horizontalOffset: int)

  /** The last row and the last column handle_movements knows, written into it as literals. */
  const LastRow := 350
  const LastColumn := 580

  /**
   * The vertical and horizontal thresholds of a level: half a tile, the
   * offset at which the centre tile changes. An unknown level fails the
   * lookup of the level's stride.
   */
  function Thresholds(cfg: Config, zoom: int): (t: Option<(int, int)>)
    requires ValidConfig(cfg)
    ensures t.Some? <==> 1 <= zoom <= 5
    ensures t.Some? ==> var n := Stride(zoom).value;
      && 2 * n * t.value.0 == cfg.mapHeight && 2 * n * t.value.1 == cfg.mapWidth
      && t.value.0 >= 1 && t.value.1 >= 1
  {
    match Stride(zoom)
    case None => None
    case Some(n) =>
      TileSide(cfg.mapHeight, n);
      TileSide(cfg.mapWidth, n);
      Some((cfg.mapHeight / 2 / n, cfg.mapWidth / 2 / n))
  }

  /**
   * One offset step towards larger indexes ("down", "right"): a positive
   * offset that reaches the threshold flips to -(threshold - overshoot) and
   * the centre moves on; otherwise the offset grows by the displacement.
   * Returns the new offset and whether the centre moves.
   */
  function StepForward(offset: int, threshold: int, displacement: int): (int, bool)
  {
    var aboveThreshold := displacement - Abs(threshold - Abs(offset));
    if aboveThreshold >= 0 && offset > 0 then (-(threshold - aboveThreshold), true)
    else (offset + displacement, false)
  }

  /**
   * One offset step towards smaller indexes ("up", "left"): a negative offset
   * that reaches the threshold becomes threshold + overshoot and the centre
   * moves back; otherwise the offset shrinks by the displacement.
   */
  function StepBackward(offset: int, threshold: int, displacement: int): (int, bool)
  {
    var aboveThreshold := displacement - Abs(threshold - Abs(offset));
    if aboveThreshold >= 0 && offset < 0 then (threshold + aboveThreshold, true)
    else (offset - displacement, false)
  }

  /**
   * handle_movements: None when the level is unknown (the threshold lookup
   * fails); "up" at row 0 and "down" at row 350 change nothing; a column
   * step past 0 or 580 wraps to maxH or to 0.
   */
  function Move(cfg: Config, v: View, dir: Direction, displacement: int): (r: Option<View>)
    requires ValidConfig(cfg)
    ensures r.Some? <==> 1 <= v.zoom <= 5
    ensures r.Some? ==> r.value.zoom == v.zoom
    ensures r.Some? && (dir == Up || dir == Down) ==> r.value.horizontalOffset == v.horizontalOffset && r.value.center.1 == v.center.1
    ensures r.Some? && (dir == Left || dir == Right) ==> r.value.verticalOffset == v.verticalOffset && r.value.center.0 == v.center.0
  {
    match Thresholds(cfg, v.zoom)
    case None => None
    case Some((vertical, horizontal)) =>
      Some(match dir
        case Up =>
          if v.center.0 == 0 then v
          else
            var (offset, moves) := StepBackward(v.verticalOffset, vertical, displacement);
            v.(verticalOffset := offset, center := if moves then (v.center.0 - 1, v.center.1) else v.center)
        case Down =>
          if v.center.0 == LastRow then v
          else
            var (offset, moves) := StepForward(v.verticalOffset, vertical, displacement);
            v.(verticalOffset := offset, center := if moves then (v.center.0 + 1, v.center.1) else v.center)
        case Left =>
          var (offset, moves) := StepBackward(v.horizontalOffset, horizontal, displacement);
          var column := if !moves then v.center.1 else if v.center.1 == 0 then cfg.maxHorizontalChunk else v.center.1 - 1;
          v.(horizontalOffset := offset, center := (v.center.0, column))
        case Right =>
          var (offset, moves) := StepForward(v.horizontalOffset, horizontal, displacement);
          var column := if !moves then v.center.1 else if v.center.1 == LastColumn then 0 else v.center.1 + 1;
          v.(horizontalOffset := offset, center := (v.center.0, column)))
  }

  // ---------------------------------------------------------------------
  // What a step does
  // ---------------------------------------------------------------------

  /**
   * A forward step with |offset| at most the threshold advances the
   * position `tile * 2T + offset` by exactly the displacement, and moves to
   * the next tile exactly when the offset is positive and the displacement
   * reaches the threshold.
   */
  lemma StepForwardAdvances(tile: int, offset: int, threshold: int, displacement: int)
    requires 0 <= displacement && Abs(offset) <= threshold
    ensures var (o, moves) := StepForward(offset, threshold, displacement);
      && (moves <==> offset > 0 && displacement >= threshold - offset)
      && (if moves then tile + 1 else tile) * (2 * threshold) + o == tile * (2 * threshold) + offset + displacement
  {
    var (o, moves) := StepForward(offset, threshold, displacement);
    assert (tile + 1) * (2 * threshold) == tile * (2 * threshold) + 2 * threshold;
  }

  /**
   * A backward step from a negative offset at most the threshold moves to
   * the previous tile exactly when the displacement reaches the threshold,
   * and then leaves the offset at threshold + overshoot: at or above the
   * threshold, unlike the forward step, which lands at or below it.
   */
  lemma StepBackwardOvershoots(offset: int, threshold: int, displacement: int)
    requires 0 <= displacement && -threshold <= offset < 0
    ensures var (o, moves) := StepBackward(offset, threshold, displacement);
      && (moves <==> displacement >= threshold + offset)
      && (moves ==> o == threshold + (displacement - (threshold + offset)) && o >= threshold)
      && (moves && displacement > threshold + offset ==> o > threshold)
      && (!moves ==> o == offset - displacement)
  {
  }

  /** A backward step from a non-negative offset never changes the tile. */
  lemma StepBackwardFromNonNegative(offset: int, threshold: int, displacement: int)
    requires offset >= 0
    ensures StepBackward(offset, threshold, displacement) == (offset - displacement, false)
  {
  }

  /**
   * The asymmetry, concretely: a threshold of 50, a displacement of 5 and an
   * offset of -48 move up to offset 53, beyond the threshold, while the
   * mirrored step down from 48 lands at -47.
   */
  lemma StepAsymmetry()
    ensures StepBackward(-48, 50, 5) == (53, true)
    ensures StepForward(48, 50, 5) == (-47, true)
  {
  }

  /** "up" at row 0 and "down" at the last row change nothing. */
  lemma RowEdges(cfg: Config, v: View, displacement: int)
    requires ValidConfig(cfg) && 1 <= v.zoom <= 5
    ensures v.center.0 == 0 ==> Move(cfg, v, Up, displacement) == Some(v)
    ensures v.center.0 == LastRow ==> Move(cfg, v, Down, displacement) == Some(v)
  {
  }

  /**
   * Crossing to the right of column 580 wraps to column 0, and crossing to
   * the left of column 0 wraps to maxH.
   */
  lemma ColumnWraps(cfg: Config, v: View, displacement: int)
    requires ValidConfig(cfg) && 1 <= v.zoom <= 5
    ensures var t := Thresholds(cfg, v.zoom).value.1;
      v.center.1 == LastColumn && StepForward(v.horizontalOffset, t, displacement).1 ==>
        Move(cfg, v, Right, displacement).value.center == (v.center.0, 0)
    ensures var t := Thresholds(cfg, v.zoom).value.1;
      v.center.1 == 0 && StepBackward(v.horizontalOffset, t, displacement).1 ==>
        Move(cfg, v, Left, displacement).value.center == (v.center.0, cfg.maxHorizontalChunk)
  {
  }

  /**
   * "down" and "right" with |offset| at most the threshold, away from the
   * edges, advance `center * 2T + offset` by exactly the displacement.
   */
  lemma MoveForwardAdvances(cfg: Config, v: View, displacement: int)
    requires ValidConfig(cfg) && 1 <= v.zoom <= 5 && displacement >= 0
    ensures var (tv, th) := Thresholds(cfg, v.zoom).value;
      && (v.center.0 != LastRow && Abs(v.verticalOffset) <= tv ==>
          var r := Move(cfg, v, Down, displacement).value;
          r.center.0 * (2 * tv) + r.verticalOffset == v.center.0 * (2 * tv) + v.verticalOffset + displacement)
      && (v.center.1 != LastColumn && Abs(v.horizontalOffset) <= th ==>
          var r := Move(cfg, v, Right, displacement).value;
          r.center.1 * (2 * th) + r.horizontalOffset == v.center.1 * (2 * th) + v.horizontalOffset + displacement)
  {
    var (tv, th) := Thresholds(cfg, v.zoom).value;
    if v.center.0 != LastRow && Abs(v.verticalOffset) <= tv {
      StepForwardAdvances(v.center.0, v.verticalOffset, tv, displacement);
    }
    if v.center.1 != LastColumn && Abs(v.horizontalOffset) <= th {
      StepForwardAdvances(v.center.1, v.horizontalOffset, th, displacement);
    }
  }

  // ---------------------------------------------------------------------
  // The offset bound the compositor needs
  // ---------------------------------------------------------------------

  /**
   * The bound scrolling keeps on an offset: from -T up to T plus one
   * displacement (the overshoot of a backward crossing).
   */
  predicate OffsetBounded(offset: int, threshold: int, displacement: int)
  {
    -threshold <= offset <= threshold + displacement
  }

  /** Both offsets of a view are bounded at its level. */
  predicate ViewBounded(cfg: Config, v: View, displacement: int)
    requires ValidConfig(cfg)
  {
    1 <= v.zoom <= 5 &&
    var (tv, th) := Thresholds(cfg, v.zoom).value;
    OffsetBounded(v.verticalOffset, tv, displacement) && OffsetBounded(v.horizontalOffset, th, displacement)
  }

  /** A step in either direction keeps an offset bounded when the displacement is at most the threshold. */
  lemma {:induction false} StepsKeepBound(offset: int, threshold: int, displacement: int)
    requires 0 <= displacement <= threshold && OffsetBounded(offset, threshold, displacement)
    ensures OffsetBounded(StepForward(offset, threshold, displacement).0, threshold, displacement)
    ensures OffsetBounded(StepBackward(offset, threshold, displacement).0, threshold, displacement)
  {
    if offset > threshold {
      // only a forward step that stays put can start above the threshold
      assert Abs(threshold - Abs(offset)) == offset - threshold;
    }
  }

  /** Every move keeps the bound on both offsets. */
  lemma MoveKeepsBound(cfg: Config, v: View, dir: Direction, displacement: int)
    requires ValidConfig(cfg) && ViewBounded(cfg, v, displacement)
    requires 0 <= displacement <= Thresholds(cfg, v.zoom).value.0 && displacement <= Thresholds(cfg, v.zoom).value.1
    ensures ViewBounded(cfg, Move(cfg, v, dir, displacement).value, displacement)
  {
    var (tv, th) := Thresholds(cfg, v.zoom).value;
    StepsKeepBound(v.verticalOffset, tv, displacement);
    StepsKeepBound(v.horizontalOffset, th, displacement);
  }

  /**
   * A bounded view stays within one tile, which is what the compositor's
   * partition theorem asks: |offset| is at most a whole tile on each axis.
   */
  lemma BoundedViewFitsFrame(cfg: Config, v: View, displacement: int)
    requires ValidConfig(cfg) && ViewBounded(cfg, v, displacement) && v.zoom in cfg.startingIndexes
    requires 0 <= displacement <= Thresholds(cfg, v.zoom).value.0 && displacement <= Thresholds(cfg, v.zoom).value.1
    ensures var info := ChunksAndInformations(cfg, v.zoom, v.verticalOffset, v.horizontalOffset).value;
      Abs(v.verticalOffset) <= info.baseCameraHeight && Abs(v.horizontalOffset) <= info.baseCameraWidth
  {
    var n := Stride(v.zoom).value;
    TileSide(cfg.mapHeight, n);
    TileSide(cfg.mapWidth, n);
  }

  // ---------------------------------------------------------------------
  // Zoom and modes
  // ---------------------------------------------------------------------

  /**
   * Where the zoom keys leave the view, and whether they completed: a step
   * that lands on a level outside 1..5 raises at the TOPOGRAPHIC_THRESHOLDS
   * lookup (keyed by the levels 1..5), after the level and the offsets have
   * already changed, and stops the handler there.
   */
  datatype Zoomed = Zoomed(view: View, ok: bool)

  /** One zoom key: unless the level is already at `edge`, step by `delta`, reset the offsets and look the new level up. */
  function ZoomStep(v: View, pressed: bool, edge: int, delta: int): Zoomed
  {
    if pressed && v.zoom != edge then
      var w := v.(zoom := v.zoom + delta, horizontalOffset := 0, verticalOffset := 0);
      Zoomed(w, 1 <= w.zoom <= 5)
    else Zoomed(v, true)
  }

  /**
   * The zoom part of handle_key_press: "+" raises the level unless it is 5,
   * then "-" lowers it unless it is 1; each change resets both offsets. A
   * failed lookup after "+" skips the "-" key.
   */
  function ZoomKeys(v: View, plus: bool, minus: bool): Zoomed
  {
    var afterPlus := ZoomStep(v, plus, 5, 1);
    if !afterPlus.ok then afterPlus else ZoomStep(afterPlus.view, minus, 1, -1)
  }

  /**
   * The keys keep a level in [1, 5] without failing, never move the centre,
   * and leave the offsets either untouched or both reset to 0 — reset
   * whenever the level changes.
   */
  lemma ZoomKeysKeepLevel(v: View, plus: bool, minus: bool)
    ensures var r := ZoomKeys(v, plus, minus);
      && (1 <= v.zoom <= 5 ==> r.ok && 1 <= r.view.zoom <= 5)
      && r.view.center == v.center
      && ((r.view.verticalOffset, r.view.horizontalOffset) == (0, 0)
        || (r.view.verticalOffset, r.view.horizontalOffset) == (v.verticalOffset, v.horizontalOffset))
      && (r.view.zoom != v.zoom ==> r.view.verticalOffset == 0 && r.view.horizontalOffset == 0)
      && (!plus && !minus ==> r == Zoomed(v, true))
  {
  }

  /**
   * The zoom keys fail exactly when a step lands outside 1..5: a failure
   * leaves a level outside 1..5, a completed press that changed the level
   * leaves one inside, and each way a wheel-reached level can fail does.
   */
  lemma ZoomKeysFailure(v: View, plus: bool, minus: bool)
    ensures var r := ZoomKeys(v, plus, minus);
      && (!r.ok ==> (plus || minus) && !(1 <= r.view.zoom <= 5))
      && (r.ok && r.view.zoom != v.zoom ==> 1 <= r.view.zoom <= 5)
      && (!r.ok && plus && v.zoom != 5 ==> r.view.zoom == v.zoom + 1)
    ensures v.zoom <= 0 && !plus && minus ==> !ZoomKeys(v, plus, minus).ok
    ensures v.zoom <= -1 && plus ==> !ZoomKeys(v, plus, minus).ok
    ensures v.zoom >= 7 && minus ==> !ZoomKeys(v, plus, minus).ok
    ensures v.zoom >= 6 && plus ==> !ZoomKeys(v, plus, minus).ok && ZoomKeys(v, plus, minus).view.zoom == v.zoom + 1
  {
  }

  /** handle_mouse_wheel: one level up for 1, one down for -1, nothing otherwise. */
  function Wheel(zoom: int, direction: int): int
  {
    if direction == 1 then zoom + 1 else if direction == -1 then zoom - 1 else zoom
  }

  /**
   * The wheel has no bound: from level 5 it reaches 6, where the level
   * lookups fail and a move is refused.
   */
  lemma WheelIsUnbounded(cfg: Config, v: View, displacement: int)
    requires ValidConfig(cfg) && v.zoom == 5
    ensures Wheel(v.zoom, 1) == 6
    ensures Move(cfg, v.(zoom := Wheel(v.zoom, 1)), Down, displacement).None?
  {
  }

  // ---------------------------------------------------------------------
  // One key press
  // ---------------------------------------------------------------------

  /** The keys handle_key_press reads ("+" and keypad "+" as one, likewise "-"). */
  datatype Keys = Keys(escape: bool, plus: bool, minus: bool, up: bool, down: bool, left: bool, right: bool,
                       tab: bool, golden: bool, silent: bool, mapKey: bool)

  /** A move made only when its key is pressed; a failed move fails the rest. */
  function MoveIf(cfg: Config, v: Option<View>, pressed: bool, dir: Direction, displacement: int): Option<View>
    requires ValidConfig(cfg)
  {
    if v.None? || !pressed then v else Move(cfg, v.value, dir, displacement)
  }

  /** The arrow keys: up, down, left and right in that order. */
  function ArrowKeys(cfg: Config, v: View, keys: Keys, displacement: int): (r: Option<View>)
    requires ValidConfig(cfg)
    ensures r.Some? <==> 1 <= v.zoom <= 5 || !(keys.up || keys.down || keys.left || keys.right)
    ensures r.Some? ==> r.value.zoom == v.zoom
    ensures !(keys.up || keys.down || keys.left || keys.right) ==> r == Some(v)
  {
    MoveIf(cfg, MoveIf(cfg, MoveIf(cfg, MoveIf(cfg, Some(v), keys.up, Up, displacement), keys.down, Down, displacement),
      keys.left, Left, displacement), keys.right, Right, displacement)
  }

  /**
   * The view after handle_key_press: the zoom keys, then the arrow keys.
   * None when a zoom key's lookup fails or a pressed arrow meets an
   * unknown level.
   */
  function KeyPressView(cfg: Config, v: View, keys: Keys, displacement: int): (r: Option<View>)
    requires ValidConfig(cfg)
    ensures var z := ZoomKeys(v, keys.plus, keys.minus);
      r.Some? <==> z.ok && (1 <= z.view.zoom <= 5 || !(keys.up || keys.down || keys.left || keys.right))
    ensures r.Some? ==> r.value.zoom == ZoomKeys(v, keys.plus, keys.minus).view.zoom
  {
    var z := ZoomKeys(v, keys.plus, keys.minus);
    if z.ok then ArrowKeys(cfg, z.view, keys, displacement) else None
  }

  /** The smallest threshold is the one of level 1: every level's is at least a 40th of the side. */
  lemma ThresholdsAtLeast(cfg: Config, zoom: int)
    requires ValidConfig(cfg) && 1 <= zoom <= 5
    ensures Thresholds(cfg, zoom).value.0 >= cfg.mapHeight / 40 && Thresholds(cfg, zoom).value.1 >= cfg.mapWidth / 40
  {
    var n := Stride(zoom).value;
    var (tv, th) := Thresholds(cfg, zoom).value;
    SideThreshold(cfg.mapHeight, n, tv);
    SideThreshold(cfg.mapWidth, n, th);
  }

  lemma SideThreshold(dim: nat, n: nat, t: int)
    requires dim % 40 == 0 && 1 <= n <= 20 && 2 * n * t == dim
    ensures t >= dim / 40
  {
    var q := dim / 40;
    assert dim == 40 * q;
    if t < q {
      MulMono(t + 1, q, 2 * n);
      MulMono(n, 20, 2 * q);
    }
  }

  /**
   * With a displacement of at most a 40th of each side, every key press
   * keeps a bounded view bounded: the zoom keys keep the level in [1, 5] and
   * either keep the offsets (same level) or reset them, and every move keeps
   * the bound. So from a bounded view any sequence of key presses keeps it
   * bounded; the mouse wheel, which changes the level without resetting the
   * offsets, is not covered (WheelLeavesBound), and the start view is
   * bounded only on maps of at least 190 rows (InitialViewBounded).
   */
  lemma KeyPressKeepsBound(cfg: Config, v: View, keys: Keys, displacement: int)
    requires ValidConfig(cfg) && ViewBounded(cfg, v, displacement)
    requires 0 <= displacement <= cfg.mapHeight / 40 && displacement <= cfg.mapWidth / 40
    ensures KeyPressView(cfg, v, keys, displacement).Some?
    ensures ViewBounded(cfg, KeyPressView(cfg, v, keys, displacement).value, displacement)
  {
    var zoomed := ZoomKeys(v, keys.plus, keys.minus).view;
    ZoomKeysKeepLevel(v, keys.plus, keys.minus);
    assert ViewBounded(cfg, zoomed, displacement);
    var a := MoveIf(cfg, Some(zoomed), keys.up, Up, displacement);
    KeepsBoundIf(cfg, zoomed, keys.up, Up, displacement);
    var b := MoveIf(cfg, a, keys.down, Down, displacement);
    KeepsBoundIf(cfg, a.value, keys.down, Down, displacement);
    var c := MoveIf(cfg, b, keys.left, Left, displacement);
    KeepsBoundIf(cfg, b.value, keys.left, Left, displacement);
    KeepsBoundIf(cfg, c.value, keys.right, Right, displacement);
  }

  /**
   * The view the viewer starts in (level 5, scrolled 100 rows down, a
   * displacement of 5) is bounded exactly when the map has at least 190 rows.
   */
  lemma InitialViewBounded(cfg: Config, center: (int, int))
    requires ValidConfig(cfg)
    ensures ViewBounded(cfg, View(center, 5, 100, 0), 5) <==> cfg.mapHeight >= 190
  {
    var (tv, th) := Thresholds(cfg, 5).value;
    assert 2 * tv == cfg.mapHeight && 2 * th == cfg.mapWidth;
  }

  /**
   * The wheel does not keep the bound: on a 400-row map the start view is
   * bounded, but four notches down reach level 1, where a tile is 20 rows
   * and the offset of 100 is far past it.
   */
  lemma WheelLeavesBound(cfg: Config, center: (int, int))
    requires ValidConfig(cfg) && cfg.mapHeight == 400
    ensures ViewBounded(cfg, View(center, 5, 100, 0), 5)
    ensures Wheel(Wheel(Wheel(Wheel(5, -1), -1), -1), -1) == 1
    ensures !ViewBounded(cfg, View(center, 1, 100, 0), 5)
  {
    InitialViewBounded(cfg, center);
    var (tv, th) := Thresholds(cfg, 1).value;
    assert 40 * tv == 400;
  }

  lemma KeepsBoundIf(cfg: Config, v: View, pressed: bool, dir: Direction, displacement: int)
    requires ValidConfig(cfg) && ViewBounded(cfg, v, displacement)
    requires 0 <= displacement <= cfg.mapHeight / 40 && displacement <= cfg.mapWidth / 40
    ensures MoveIf(cfg, Some(v), pressed, dir, displacement).Some?
    ensures ViewBounded(cfg, MoveIf(cfg, Some(v), pressed, dir, displacement).value, displacement)
  {
    if pressed {
      ThresholdsAtLeast(cfg, v.zoom);
      MoveKeepsBound(cfg, v, dir, displacement);
    }
  }

  datatype RenderType = FullRerender | PartialRerender | HybridRerender

  /** switch_render_mode: full, then partial, then hybrid, then full again. */
  function NextRenderType(t: RenderType): RenderType
  {
    match t
    case FullRerender => PartialRerender
    case PartialRerender => HybridRerender
    case HybridRerender => FullRerender
  }

  /** Three switches come back to the start, and fewer never do. */
  lemma RenderTypeCycles(t: RenderType)
    ensures NextRenderType(NextRenderType(NextRenderType(t))) == t
    ensures NextRenderType(t) != t && NextRenderType(NextRenderType(t)) != t
  {
  }

  datatype MapMode = RegularMap | TopographicMap

  /** switch_map_mode: regular and topographic swap. */
  function NextMapMode(m: MapMode): MapMode
  {
    match m
    case RegularMap => TopographicMap
    case TopographicMap => RegularMap
  }

  /** Switching twice restores the mode; switching once changes it. */
  lemma MapModeInvolution(m: MapMode)
    ensures NextMapMode(NextMapMode(m)) == m && NextMapMode(m) != m
  {
  }
}
