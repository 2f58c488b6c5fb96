/**
 * The per-axis placement cursor of chunk_dispacher.py. For the first, the
 * middle and the last tile along an axis it gives a destination span in the
 * screen buffer (`camera`) and a source span in the decimated tile
 * (`indexes`), keeping a running cursor in `yStart` / `xStart`.
 */
module Dispatch {

  function Abs(n: int): nat
  {
    if n < 0 then -n else n
  }

  /**
   * One answer of the dispatcher: destination [cameraStart, cameraEnd) in the
   * buffer and source [startIndex, endIndex) in the decimated tile.
   */
  datatype Span = Span(cameraStart: int, cameraEnd: int, startIndex: int, endIndex: int)

  /**
   * get_start_y / get_start_x. The first tile is cut by the offset: a
   * positive offset hides its first |offset| cells, a negative one shows only
   * its last |offset| cells. The source is always the tail of the tile, as
   * long as the destination.
   */
  function StartSpan(chunk: int, offset: int): (s: Span)
    ensures s.cameraStart == 0 && s.endIndex == chunk
    ensures s.endIndex - s.startIndex == s.cameraEnd - s.cameraStart
    ensures s.cameraEnd == (if offset == 0 then chunk else if offset > 0 then chunk - Abs(offset) else Abs(offset))
    ensures 0 <= Abs(offset) <= chunk ==> 0 <= s.startIndex <= s.endIndex
  {
    var (startingIndex, cameraEnd) :=
      if offset == 0 then (0, chunk)
      else if offset > 0 then (Abs(offset), chunk - Abs(offset))
      else (chunk - Abs(offset), Abs(offset));
    Span(0, cameraEnd, startingIndex, chunk)
  }

  /** get_middle_y / get_middle_x: a whole tile placed at the cursor. */
  function MiddleSpan(cursor: int, chunk: int): (s: Span)
    ensures s.cameraStart == cursor && s.startIndex == 0
    ensures s.cameraEnd - s.cameraStart == chunk == s.endIndex - s.startIndex
  {
    Span(cursor, cursor + chunk, 0, chunk)
  }

  /**
   * get_ending_y / get_ending_x: the last tile starts at the cursor and its
   * destination is always a whole tile long (it runs past the buffer when the
   * offset is non-zero); its source is the head of the tile, |offset| cells
   * for a positive offset and chunk - |offset| for a negative one.
   */
  function EndingSpan(cursor: int, chunk: int, offset: int): (s: Span)
    ensures s.cameraStart == cursor && s.cameraEnd == cursor + chunk && s.startIndex == 0
    ensures s.endIndex == (if offset == 0 then chunk else if offset > 0 then Abs(offset) else chunk - Abs(offset))
  {
    var endingIndex :=
      if offset == 0 then chunk
      else if offset > 0 then Abs(offset)
      else chunk - Abs(offset);
    Span(cursor, cursor + chunk, 0, endingIndex)
  }

  /** ChunkDispacher: the cursor state along both axes for one frame. */
  class ChunkDispacher {
    var remainingHeight: int
    var remainingWidth: int
    var chunkHeight: int
    var chunkWidth: int
    var realVerticalOffset: int
    var realHorizontalOffset: int
    var verticalOffset: int
    var horizontalOffset: int
    var yStart: int
    var xStart: int

    /** The stored offsets are the magnitudes of the signed ones. */
    predicate Valid()
      reads this
    {
      verticalOffset == Abs(realVerticalOffset) && horizontalOffset == Abs(realHorizontalOffset)
    }

    /**
     * A fresh dispatcher: nothing placed yet (both cursors at 0, the whole
     * buffer remaining), the signed offsets kept and their magnitudes stored.
     */
    constructor (chunkHeight: int, chunkWidth: int, horizontalOffset: int, verticalOffset: int, mapHeight: int, mapWidth: int)
      ensures Valid()
      ensures remainingHeight == mapHeight && remainingWidth == mapWidth
      ensures this.chunkHeight == chunkHeight && this.chunkWidth == chunkWidth
      ensures realVerticalOffset == verticalOffset && realHorizontalOffset == horizontalOffset
      ensures yStart == 0 && xStart == 0
    {
      remainingHeight := mapHeight;
      remainingWidth := mapWidth;
      this.chunkHeight := chunkHeight;
      this.chunkWidth := chunkWidth;
      realVerticalOffset := verticalOffset;
      realHorizontalOffset := horizontalOffset;
      this.verticalOffset := Abs(verticalOffset);
      this.horizontalOffset := Abs(horizontalOffset);
      yStart := 0;
      xStart := 0;
    }

    /**
     * get_start_y: the first row of tiles; the cursor moves to the end of its
     * destination. `remaining_height` loses |camera_end - camera_end|, that is
     * nothing.
     */
    method GetStartY() returns (s: Span)
      requires Valid()
      modifies this`yStart, this`remainingHeight
      ensures s == StartSpan(chunkHeight, realVerticalOffset)
      ensures yStart == s.cameraEnd && remainingHeight == old(remainingHeight)
    {
      var startingIndex, cameraEnd;
      if realVerticalOffset == 0 {
        startingIndex, cameraEnd := 0, chunkHeight;
      } else if realVerticalOffset > 0 {
        startingIndex, cameraEnd := verticalOffset, chunkHeight - verticalOffset;
      } else {
        startingIndex, cameraEnd := chunkHeight - verticalOffset, verticalOffset;
      }
      remainingHeight := remainingHeight - Abs(cameraEnd - cameraEnd);
      yStart := cameraEnd;
      s := Span(0, cameraEnd, startingIndex, chunkHeight);
    }

    /** get_middle_y: a whole row of tiles at the cursor, which advances by one tile. */
    method GetMiddleY() returns (s: Span)
      modifies this`yStart, this`remainingHeight
      ensures s == MiddleSpan(old(yStart), chunkHeight)
      ensures yStart == old(yStart) + chunkHeight && remainingHeight == old(remainingHeight) - chunkHeight
    {
      s := Span(yStart, yStart + chunkHeight, 0, chunkHeight);
      remainingHeight := remainingHeight - chunkHeight;
      yStart := yStart + chunkHeight;
    }

    /** get_ending_y: the last row of tiles at the cursor; nothing changes. */
    method GetEndingY() returns (s: Span)
      requires Valid()
      ensures s == EndingSpan(yStart, chunkHeight, realVerticalOffset)
    {
      var endingIndex;
      if realVerticalOffset == 0 {
        endingIndex := chunkHeight;
      } else if realVerticalOffset > 0 {
        endingIndex := verticalOffset;
      } else {
        endingIndex := chunkHeight - verticalOffset;
      }
      s := Span(yStart, yStart + chunkHeight, 0, endingIndex);
    }

    /** get_start_x: as get_start_y, along the columns. */
    method GetStartX() returns (s: Span)
      requires Valid()
      modifies this`xStart, this`remainingWidth
      ensures s == StartSpan(chunkWidth, realHorizontalOffset)
      ensures xStart == s.cameraEnd && remainingWidth == old(remainingWidth)
    {
      var startingIndex, cameraEnd;
      if realHorizontalOffset == 0 {
        cameraEnd, startingIndex := chunkWidth, 0;
      } else if realHorizontalOffset > 0 {
        cameraEnd, startingIndex := chunkWidth - horizontalOffset, horizontalOffset;
      } else {
        cameraEnd, startingIndex := horizontalOffset, chunkWidth - horizontalOffset;
      }
      remainingWidth := remainingWidth - Abs(cameraEnd - cameraEnd);
      xStart := cameraEnd;
      s := Span(0, cameraEnd, startingIndex, chunkWidth);
    }

    /** get_middle_x: as get_middle_y, along the columns. */
    method GetMiddleX() returns (s: Span)
      modifies this`xStart, this`remainingWidth
      ensures s == MiddleSpan(old(xStart), chunkWidth)
      ensures xStart == old(xStart) + chunkWidth && remainingWidth == old(remainingWidth) - chunkWidth
    {
      s := Span(xStart, xStart + chunkWidth, 0, chunkWidth);
      remainingWidth := remainingWidth - chunkWidth;
      xStart := xStart + chunkWidth;
    }

    /** get_ending_x: as get_ending_y, along the columns; nothing changes. */
    method GetEndingX() returns (s: Span)
      requires Valid()
      ensures s == EndingSpan(xStart, chunkWidth, realHorizontalOffset)
    {
      var endingIndex;
      if realHorizontalOffset == 0 {
        endingIndex := chunkWidth;
      } else if realHorizontalOffset > 0 {
        endingIndex := horizontalOffset;
      } else {
        endingIndex := chunkWidth - horizontalOffset;
      }
      s := Span(xStart, xStart + chunkWidth, 0, endingIndex);
    }
  }
}
