/**
 * Sessions with a resizable table, from construction through a sequence of
 * user events, each stated for all tables and all inputs.
 */
module Scenarios {
  import opened Wrappers
  import opened Geometry
  import opened WidthStore
  import opened Table

  /**
   * The widths a new instance on a table whose header row is `cells` starts
   * with: the widths saved under the table's key in `storage` when there are
   * as many as the header row has columns, else the measured widths of the
   * header cells split evenly over their spans.
   */
  function StartingWidths(tableId: string, cells: seq<HeaderCell>, storage: map<string, seq<real>>): (ws: seq<real>)
    ensures |ws| == SpanSum(SpansOf(cells))
  {
    var key := StorageKeyPrefix + tableId;
    if key in storage && |storage[key]| == SpanSum(SpansOf(cells)) then storage[key]
    else InitialWidths(SpansOf(cells), MeasuredOf(cells))
  }

  /** A new instance on a table whose header row is `cells`, seen only through what a drag needs. */
  method Open(tableId: string, cells: seq<HeaderCell>, rows: seq<seq<bool>>, interval: int,
              storage: map<string, seq<real>>) returns (t: ResizableTable)
    ensures fresh(t) && t.Valid() && t.hasHeaderRow && !t.isResizing && !t.rafPending
    ensures t.spans == SpansOf(cells) && t.columnCount == SpanSum(t.spans)
    ensures t.storageKey == StorageKeyPrefix + tableId && t.resizeUpdateInterval == interval
    ensures t.lastResizeUpdateTime == 0 && t.storage == storage
    ensures t.columnWidths == StartingWidths(tableId, cells, storage)
  {
    t := new ResizableTable(tableId, Some(cells), rows, interval, storage);
  }

  /**
   * A user presses the handle of header cell `h` at `x0` and moves to `x1`:
   * the drag starts from the starting width of the column the handle resizes,
   * or from an equal share of the rendered cell width when that is not positive.
   */
  method PressAndMove(tableId: string, cells: seq<HeaderCell>, rows: seq<seq<bool>>, interval: int,
                      storage: map<string, seq<real>>, h: nat, x0: real, x1: real, now: int, cellWidth: real)
    returns (t: ResizableTable)
    requires h < |cells|
    ensures fresh(t) && t.Valid() && t.DraggedCellPresent()
    ensures t.spans == SpansOf(cells) && t.columnWidths == StartingWidths(tableId, cells, storage)
    ensures t.storageKey == StorageKeyPrefix + tableId && t.storage == storage
    ensures t.currentColumnIndex == HandleTarget(t.spans, h) && t.currentHeaderCellIndex == h
    ensures t.startX == x0 && t.lastMouseX == x1
    ensures t.startWidth == StartWidth(t.columnWidths[HandleTarget(t.spans, h)], cellWidth, Span(t.spans[h]))
  {
    t := Open(tableId, cells, rows, interval, storage);
    var c := HandleTarget(t.spans, h);
    t.OnMouseDown(Some(c), Some(h), x0, cellWidth);
    assert t.isResizing && t.currentColumnIndex == c && t.currentHeaderCellIndex == h && t.startX == x0;
    t.OnDragMove(x1, now);
  }

  /**
   * A user drags the handle of header cell `h` from `x0` to `x1` and lets go.
   * The widths saved at the end of the drag are the starting widths with the
   * column the handle resizes set to the clamped drag width and the rest of
   * the cell's span repaired.
   */
  method DragAndRelease(tableId: string, cells: seq<HeaderCell>, rows: seq<seq<bool>>, interval: int,
                        storage: map<string, seq<real>>, h: nat, x0: real, x1: real, now: int, cellWidth: real)
    returns (grabbed: real, saved: seq<real>, stored: map<string, seq<real>>)
    requires h < |cells|
    ensures var ws, c := StartingWidths(tableId, cells, storage), HandleTarget(SpansOf(cells), h);
            grabbed == StartWidth(ws[c], cellWidth, Span(SpansOf(cells)[h]))
    ensures var ws, c := StartingWidths(tableId, cells, storage), HandleTarget(SpansOf(cells), h);
            saved == DragUpdate(ws, SpansOf(cells), c, h, grabbed, x0, x1, cellWidth)
    ensures |saved| == SpanSum(SpansOf(cells))
    ensures saved[HandleTarget(SpansOf(cells), h)] == DraggedWidth(grabbed, x0, x1)
    ensures cellWidth > 0.0 ==> grabbed > 0.0
    ensures stored == storage[StorageKeyPrefix + tableId := saved]
  {
    var t := PressAndMove(tableId, cells, rows, interval, storage, h, x0, x1, now, cellWidth);
    grabbed := t.startWidth;
    t.OnDragEnd(cellWidth);
    saved := t.columnWidths;
    stored := t.storage;
  }

  /**
   * The page loads again with local storage `stored`: when it holds widths
   * for this table, as many as the header row has columns, the new instance
   * starts with exactly those widths. The key is derived from `tableId`, so
   * this is the reload of a table that carries its own id attribute; a table
   * without one is given a fresh id on every load.
   */
  method Reload(tableId: string, cells: seq<HeaderCell>, rows: seq<seq<bool>>, interval: int,
                stored: map<string, seq<real>>)
    returns (widths: seq<real>)
    ensures var key := StorageKeyPrefix + tableId;
            key in stored && |stored[key]| == SpanSum(SpansOf(cells)) ==> widths == stored[key]
    ensures |widths| == SpanSum(SpansOf(cells))
  {
    var u := new ResizableTable(tableId, Some(cells), rows, interval, stored);
    widths := u.columnWidths;
  }

  /**
   * A drag, a release and a reload of a table with the same id: the new
   * instance starts with exactly the widths saved at the end of the drag, so
   * the dragged column keeps its width.
   */
  method DragThenReload(tableId: string, cells: seq<HeaderCell>, rows: seq<seq<bool>>, interval: int,
                        storage: map<string, seq<real>>, h: nat, x0: real, x1: real, now: int, cellWidth: real)
    returns (grabbed: real, saved: seq<real>, reloaded: seq<real>)
    requires h < |cells|
    ensures var ws, c := StartingWidths(tableId, cells, storage), HandleTarget(SpansOf(cells), h);
            grabbed == StartWidth(ws[c], cellWidth, Span(SpansOf(cells)[h]))
    ensures var ws, c := StartingWidths(tableId, cells, storage), HandleTarget(SpansOf(cells), h);
            saved == DragUpdate(ws, SpansOf(cells), c, h, grabbed, x0, x1, cellWidth)
    ensures reloaded == saved
    ensures reloaded[HandleTarget(SpansOf(cells), h)] == DraggedWidth(grabbed, x0, x1)
  {
    var stored;
    grabbed, saved, stored := DragAndRelease(tableId, cells, rows, interval, storage, h, x0, x1, now, cellWidth);
    reloaded := Reload(tableId, cells, rows, interval, stored);
  }

  /**
   * A user collapses column `i` with the toggle on header cell `i`. The toggle
   * is a child of that header cell, which the collapse hides, so the toggle
   * is hidden with it and cannot be clicked again.
   */
  method CollapseHidesToggle(tableId: string, cells: seq<HeaderCell>, rows: seq<seq<bool>>, interval: int,
                             storage: map<string, seq<real>>, i: nat, cellWidth: real)
    returns (toggleCell: int, toggleVisible: bool, collapsed: bool)
    requires i < |cells|
    ensures toggleCell == i
    ensures !toggleVisible && collapsed
  {
    var t := new ResizableTable(tableId, Some(cells), rows, interval, storage);
    t.OnCollapseToggle(Some(i), cellWidth);
    toggleCell := t.toggles[i];
    toggleVisible := t.headerVisible[toggleCell];
    collapsed := IsCollapsed(t.collapsedColumns, i);
  }

  /**
   * Column `i` is collapsed and then expanded by a second, direct call of the
   * toggle handler (the page offers no visible toggle for that call, as
   * `CollapseHidesToggle` shows). The column's cells are shown again in every
   * row, and its header cell comes back with the width it was measured at
   * when it collapsed, up to the snapshot tolerance.
   */
  method CollapseThenExpand(tableId: string, cells: seq<HeaderCell>, rows: seq<seq<bool>>, interval: int,
                            storage: map<string, seq<real>>, i: nat, cellWidth: real)
    returns (restored: real, visible: bool, collapsed: bool, finalRows: seq<seq<bool>>)
    requires i < |cells|
    ensures Abs(restored - cellWidth) <= SnapshotTolerance
    ensures visible && !collapsed
    ensures finalRows == SetColumnDisplay(rows, i, true)
  {
    var t := new ResizableTable(tableId, Some(cells), rows, interval, storage);
    t.OnCollapseToggle(Some(i), cellWidth);
    t.OnCollapseToggle(Some(i), cellWidth);
    restored := t.headerWidth[i];
    visible := t.headerVisible[i];
    collapsed := IsCollapsed(t.collapsedColumns, i);
    finalRows := t.rows;
    ShowAfterHide(rows, i);
  }

  /**
   * With a throttling interval, a move more than the interval after the last
   * update requests a frame; once that frame has run at `t0`, a move within
   * the interval after `t0` requests none.
   */
  method ThrottleHoldsBackEarlyMoves(tableId: string, cells: seq<HeaderCell>, rows: seq<seq<bool>>, interval: int,
                                     storage: map<string, seq<real>>, h: nat, t0: int, t1: int, cellWidth: real)
    returns (first: Frame, second: Frame)
    requires h < |cells| && interval > 0
    requires t0 > interval && t1 - t0 <= interval
    ensures first == ThrottledFrame(t0)
    ensures second == NoFrame
  {
    var t := Open(tableId, cells, rows, interval, storage);
    t.OnMouseDown(Some(HandleTarget(t.spans, h)), Some(h), 0.0, cellWidth);
    t.OnDragMove(10.0, t0);
    first := t.pendingFrame;
    t.RunPendingFrame(cellWidth);
    t.OnDragMove(20.0, t1);
    second := t.pendingFrame;
  }

  /**
   * Without a throttling interval every move requests a frame unless one is
   * already pending, and the widths a frame writes follow the last move.
   */
  method UnthrottledFrameUsesLastMove(tableId: string, cells: seq<HeaderCell>, rows: seq<seq<bool>>,
                                      storage: map<string, seq<real>>, h: nat, x1: real, x2: real, cellWidth: real)
    returns (grabbed: real, frame: Frame, width: real)
    requires h < |cells|
    ensures var ws, c := StartingWidths(tableId, cells, storage), HandleTarget(SpansOf(cells), h);
            grabbed == StartWidth(ws[c], cellWidth, Span(SpansOf(cells)[h]))
    ensures frame == PlainFrame
    ensures width == DraggedWidth(grabbed, 0.0, x2)
  {
    var t := Open(tableId, cells, rows, 0, storage);
    var c := HandleTarget(t.spans, h);
    t.OnMouseDown(Some(c), Some(h), 0.0, cellWidth);
    grabbed := t.startWidth;
    t.OnDragMove(x1, 0);
    t.OnDragMove(x2, 0);
    frame := t.pendingFrame;
    t.RunPendingFrame(cellWidth);
    width := t.columnWidths[c];
  }
}
