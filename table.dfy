/**
 * The column-state engine of a resizable table: a `ResizableTable` instance
 * holds the logical column widths, the resize handles and collapse toggles it
 * created, the state of the drag in progress and the collapsed flags, and it
 * writes the `width` and `display` styles of the table's cells.
 *
 * The page is reduced to data: the header row is the sequence of its cells'
 * spans, with one style width and one display flag per cell; every other row
 * of the table is a sequence of display flags (`true` for the default
 * display, `false` for `display: none`). Rendered widths are read from the
 * browser, so every operation that measures a cell takes the measured width
 * as a parameter. The browser's local storage is a map from keys to width
 * arrays, and the one animation frame callback the engine may have requested
 * is the field `pendingFrame`, which `RunPendingFrame` runs.
 */
module Table {
  import opened Wrappers
  import opened Geometry
  import opened WidthStore

  /** A header cell as the page holds it before initialisation. */
  datatype HeaderCell = HeaderCell(colSpan: nat, measuredWidth: real, visible: bool)

  /** The animation frame callback requested and not yet run. */
  datatype Frame =
    | NoFrame
      // the callback that runs `_updateColumnWidth` (no throttling interval)
    | PlainFrame
      // the callback that runs `_throttledUpdate(scheduledAt)`
    | ThrottledFrame(scheduledAt: int)

  /** Saved widths are kept under this prefix followed by the table's id. */
  const StorageKeyPrefix: string := "resizable-table-widths-"

  function CellsOf(header: Option<seq<HeaderCell>>): seq<HeaderCell>
  {
    if header.Some? then header.value else []
  }

  function SpansOf(cells: seq<HeaderCell>): (spans: seq<nat>)
    ensures |spans| == |cells|
  {
    seq(|cells|, k requires 0 <= k < |cells| => cells[k].colSpan)
  }

  function MeasuredOf(cells: seq<HeaderCell>): (widths: seq<real>)
    ensures |widths| == |cells|
  {
    seq(|cells|, k requires 0 <= k < |cells| => cells[k].measuredWidth)
  }

  function VisibleOf(cells: seq<HeaderCell>): (visible: seq<bool>)
    ensures |visible| == |cells|
  {
    seq(|cells|, k requires 0 <= k < |cells| => cells[k].visible)
  }

  /** `collapsedColumns[i] === true`: a column never toggled counts as expanded. */
  predicate IsCollapsed(collapsed: map<int, bool>, i: int)
  {
    i in collapsed && collapsed[i]
  }

  /**
   * The rows after cell `i` of every row is shown or hidden; rows with fewer
   * than `i + 1` cells are left alone.
   */
  function SetColumnDisplay(rows: seq<seq<bool>>, i: int, visible: bool): (r: seq<seq<bool>>)
    ensures |r| == |rows|
    ensures forall n :: 0 <= n < |rows| ==> |r[n]| == |rows[n]|
    ensures forall n, j :: 0 <= n < |rows| && 0 <= j < |rows[n]| ==>
              r[n][j] == if j == i then visible else rows[n][j]
  {
    seq(|rows|, n requires 0 <= n < |rows| =>
      if 0 <= i < |rows[n]| then rows[n][i := visible] else rows[n])
  }

  /** Showing a column after hiding it leaves every row as if it had only been shown. */
  lemma ShowAfterHide(rows: seq<seq<bool>>, i: int)
    ensures SetColumnDisplay(SetColumnDisplay(rows, i, false), i, true) == SetColumnDisplay(rows, i, true)
  {
    var a := SetColumnDisplay(SetColumnDisplay(rows, i, false), i, true);
    var b := SetColumnDisplay(rows, i, true);
    forall n | 0 <= n < |rows|
      ensures a[n] == b[n]
    {
    }
  }

  /** Writing `w` at the cursor turns the first remaining zero into one more copy of `w`. */
  lemma FillNextColumn(done: seq<real>, w: real, i: nat, rest: nat)
    requires rest >= 1
    ensures (done + Repeat(w, i) + Repeat(0.0, rest))[|done| + i := w]
         == done + Repeat(w, i + 1) + Repeat(0.0, rest - 1)
  {
    var a := (done + Repeat(w, i) + Repeat(0.0, rest))[|done| + i := w];
    var b := done + Repeat(w, i + 1) + Repeat(0.0, rest - 1);
    assert |a| == |b|;
    forall j | 0 <= j < |a|
      ensures a[j] == b[j]
    {
    }
  }

  class ResizableTable {
    // The table and the options, fixed at construction.
    const hasHeaderRow: bool
    const spans: seq<nat>
    const resizeUpdateInterval: int
    const storageKey: string

    // The page: the header cells' `style.width` and display, the other rows' cells' display.
    var headerWidth: seq<real>
    var headerVisible: seq<bool>
    var rows: seq<seq<bool>>
    // The browser's local storage.
    var storage: map<string, seq<real>>

    // Column state.
    var isInitialized: bool
    var columnCount: nat
    var columnWidths: seq<real>
    var handles: seq<Handle>
    var toggles: seq<int>
    var collapsedColumns: map<int, bool>

    // Drag state.
    var isResizing: bool
    var isTouchEvent: bool
    var startX: real
    var startWidth: real
    var lastMouseX: real
    var currentColumnIndex: int
    var currentHeaderCellIndex: int
    var rafPending: bool
    var pendingFrame: Frame
    var lastResizeUpdateTime: int

    /** The page data has one entry per header cell, and a table without a header row has no header cells. */
    ghost predicate Shaped()
      reads this
    {
      && |headerWidth| == |spans|
      && |headerVisible| == |spans|
      && (!hasHeaderRow ==> spans == [])
    }

    /** The state of a new instance before `Init` runs. */
    ghost predicate PreInit()
      reads this
    {
      && Shaped()
      && !isInitialized
      && columnCount == 0
      && columnWidths == []
      && !isResizing
      && !rafPending
      && pendingFrame == NoFrame
    }

    /** The column count is the sum of the header spans and there is one stored width per column. */
    ghost predicate Resolved()
      reads this
    {
      && Shaped()
      && columnCount == SpanSum(spans)
      && |columnWidths| == columnCount
    }

    /** The invariant of a constructed instance, except while a frame callback runs. */
    ghost predicate ValidExceptFrame()
      reads this
    {
      && Resolved()
      && isInitialized == hasHeaderRow
      && (isResizing ==> 0 <= currentColumnIndex < columnCount)
    }

    /** The invariant of a constructed instance: a frame is in flight exactly when `rafPending` says so. */
    ghost predicate Valid()
      reads this
    {
      && ValidExceptFrame()
      && (rafPending <==> pendingFrame != NoFrame)
    }

    /** The drag fields as a new instance has them: no drag, no frame, every position zero and every index -1. */
    ghost predicate DragIdle()
      reads this
    {
      && !isResizing && !isTouchEvent && !rafPending && pendingFrame == NoFrame
      && startX == 0.0 && startWidth == 0.0 && lastMouseX == 0.0 && lastResizeUpdateTime == 0
      && currentColumnIndex == -1 && currentHeaderCellIndex == -1
    }

    /** Local storage holds widths for this table, and as many as it has columns. */
    ghost predicate HasRestorableWidths()
      reads this
    {
      storageKey in storage && |storage[storageKey]| == SpanSum(spans)
    }

    /**
     * The state `Init` leaves: handles and toggles on every header cell, and the
     * saved widths if they fit, otherwise the even split of the measured widths.
     */
    ghost predicate InitializedFrom(measured: seq<real>)
      reads this
      requires |measured| == |spans|
    {
      && isInitialized
      && handles == ResizeHandles(spans)
      && toggles == CollapseToggles(|spans|)
      && if HasRestorableWidths() then
           && columnWidths == storage[storageKey]
           && headerWidth == HeaderWidthsFrom(columnWidths, spans, measured)
         else
           && columnWidths == InitialWidths(spans, measured)
           && headerWidth == measured
    }

    /**
     * Builds the engine on a table whose header row is `header` (`None` when the
     * table has no row to use as header) and runs `Init`. The id of a table
     * without one is generated from the clock and a random number in the
     * source; here it is the parameter `tableId`.
     */
    constructor (tableId: string, header: Option<seq<HeaderCell>>, rows: seq<seq<bool>>,
                 resizeUpdateInterval: int, storage: map<string, seq<real>>)
      ensures Valid()
      ensures hasHeaderRow == header.Some? && spans == SpansOf(CellsOf(header))
      ensures storageKey == StorageKeyPrefix + tableId && this.resizeUpdateInterval == resizeUpdateInterval
      ensures this.storage == storage && this.rows == rows && headerVisible == VisibleOf(CellsOf(header))
      ensures collapsedColumns == map[] && DragIdle()
      ensures header.Some? ==> InitializedFrom(MeasuredOf(header.value))
      ensures header.None? ==> !isInitialized && columnWidths == [] && handles == [] && toggles == []
    {
      var cells := CellsOf(header);
      hasHeaderRow := header.Some?;
      spans := SpansOf(cells);
      this.resizeUpdateInterval := resizeUpdateInterval;
      storageKey := StorageKeyPrefix + tableId;
      headerWidth := Repeat(0.0, |cells|);
      headerVisible := VisibleOf(cells);
      this.rows := rows;
      this.storage := storage;
      isInitialized := false;
      columnCount := 0;
      columnWidths := [];
      handles := [];
      toggles := [];
      collapsedColumns := map[];
      isResizing := false;
      isTouchEvent := false;
      startX := 0.0;
      startWidth := 0.0;
      lastMouseX := 0.0;
      currentColumnIndex := -1;
      currentHeaderCellIndex := -1;
      rafPending := false;
      pendingFrame := NoFrame;
      lastResizeUpdateTime := 0;
      new;
      Init(MeasuredOf(cells));
    }

    /**
     * `init`: resolves the column count and the initial widths from the header
     * row, creates the handles and toggles and applies saved widths. On an
     * initialised instance, or on a table without a header row, it does nothing.
     */
    method Init(measured: seq<real>)
      requires Valid() || PreInit()
      requires |measured| == |spans|
      modifies this`columnCount, this`columnWidths, this`headerWidth, this`handles, this`toggles, this`isInitialized
      ensures Valid()
      ensures old(Valid()) ==> unchanged(this)
      ensures !hasHeaderRow ==> unchanged(this)
      ensures old(PreInit()) && hasHeaderRow ==> InitializedFrom(measured)
    {
      if isInitialized {
        return;
      }
      if !hasHeaderRow {
        return;
      }
      InitColumns(measured);
    }

    /** The body of `init` on a new instance of a table with a header row. */
    method InitColumns(measured: seq<real>)
      requires PreInit() && hasHeaderRow
      requires |measured| == |spans|
      modifies this`columnCount, this`columnWidths, this`headerWidth, this`handles, this`toggles, this`isInitialized
      ensures Resolved()
      ensures InitializedFrom(measured)
    {
      columnCount := CountColumns();
      columnWidths := Repeat(0.0, columnCount);
      ResolveInitialWidths(measured);
      CreateResizeHandles();
      CreateCollapseToggles();
      var saved := LoadColumnWidths();
      if saved.Some? {
        ApplyColumnWidths(saved.value);
      }
      isInitialized := true;
    }

    /** The column count `init` computes: the spans of the header cells added up. */
    method CountColumns() returns (count: nat)
      ensures count == SpanSum(spans)
    {
      count := 0;
      var k := 0;
      while k < |spans|
        invariant 0 <= k <= |spans|
        invariant count == SpanStart(spans, k)
      {
        SpanStartStep(spans, k);
        count := count + Span(spans[k]);
        k := k + 1;
      }
      SpanStartAtEnd(spans);
    }

    /**
     * The first pass of `init`: a cursor walks the header cells and writes each
     * cell's measured width divided by its span to every column of the span,
     * then records the measured width as the cell's style width.
     */
    method ResolveInitialWidths(measured: seq<real>)
      requires |measured| == |spans| && |headerWidth| == |spans|
      requires columnCount == SpanSum(spans) && columnWidths == Repeat(0.0, columnCount)
      modifies this`columnWidths, this`headerWidth
      ensures columnWidths == InitialWidths(spans, measured)
      ensures headerWidth == measured
    {
      var cursor := 0;
      var k := 0;
      while k < |spans|
        invariant 0 <= k <= |spans|
        invariant cursor == SpanStart(spans, k) <= columnCount
        invariant columnWidths == InitialWidths(spans[..k], measured[..k]) + Repeat(0.0, columnCount - cursor)
        invariant |headerWidth| == |spans|
        invariant forall j :: 0 <= j < k ==> headerWidth[j] == measured[j]
      {
        cursor := ResolveCell(measured, k, cursor);
        k := k + 1;
      }
      assert spans[..k] == spans && measured[..k] == measured;
    }

    /** One header cell `k` of the first pass of `init`, reached with the cursor at `cursor`. */
    method ResolveCell(measured: seq<real>, k: nat, cursor: nat) returns (next: nat)
      requires |measured| == |spans| && k < |spans| && |headerWidth| == |spans|
      requires columnCount == SpanSum(spans) && cursor == SpanStart(spans, k) <= columnCount
      requires columnWidths == InitialWidths(spans[..k], measured[..k]) + Repeat(0.0, columnCount - cursor)
      modifies this`columnWidths, this`headerWidth
      ensures next == SpanStart(spans, k + 1) <= columnCount
      ensures columnWidths == InitialWidths(spans[..k + 1], measured[..k + 1]) + Repeat(0.0, columnCount - next)
      ensures headerWidth == old(headerWidth)[k := measured[k]]
    {
      SpanStartStep(spans, k);
      SpanStartWithin(spans, k + 1);
      var colSpan := Span(spans[k]);
      var widthPerSpan := measured[k] / (colSpan as real);
      ghost var done := InitialWidths(spans[..k], measured[..k]);
      next := SpreadWidth(done, cursor, colSpan, widthPerSpan);
      InitialWidthsStep(spans, measured, k);
      headerWidth := headerWidth[k := measured[k]];
    }

    /**
     * The inner loop of the first pass of `init`: writes `w` to the `colSpan`
     * columns from `cursor` on, which are still zero, and returns the
     * advanced cursor.
     */
    method SpreadWidth(ghost done: seq<real>, cursor: nat, colSpan: nat, w: real) returns (next: nat)
      requires |done| == cursor && cursor + colSpan <= columnCount
      requires columnWidths == done + Repeat(0.0, columnCount - cursor)
      modifies this`columnWidths
      ensures next == cursor + colSpan
      ensures columnWidths == done + Repeat(w, colSpan) + Repeat(0.0, columnCount - next)
    {
      next := cursor;
      var i := 0;
      assert Repeat(w, 0) == [];
      while i < colSpan
        invariant 0 <= i <= colSpan
        invariant next == cursor + i
        invariant columnWidths == done + Repeat(w, i) + Repeat(0.0, columnCount - next)
      {
        if next < columnCount {
          FillNextColumn(done, w, i, columnCount - next);
          columnWidths := columnWidths[next := w];
        }
        next := next + 1;
        i := i + 1;
      }
    }

    /**
     * `_createResizeHandles` as intended: one handle per header cell, on the last
     * logical column of the cell's span, found with a running cursor.
     */
    method CreateResizeHandles()
      modifies this`handles
      ensures hasHeaderRow ==> handles == ResizeHandles(spans)
      ensures !hasHeaderRow ==> handles == old(handles)
    {
      if !hasHeaderRow {
        return;
      }
      handles := [];
      var cursor := 0;
      var k := 0;
      while k < |spans|
        invariant 0 <= k <= |spans|
        invariant cursor == SpanStart(spans, k)
        invariant handles == ResizeHandles(spans)[..k]
      {
        SpanStartStep(spans, k);
        var colSpan := Span(spans[k]);
        handles := handles + [Handle(cursor + colSpan - 1, k)];
        cursor := cursor + colSpan;
        k := k + 1;
      }
    }

    /** `_createCollapseToggles`: toggle `k` carries the header cell index `k`. */
    method CreateCollapseToggles()
      modifies this`toggles
      ensures hasHeaderRow ==> toggles == CollapseToggles(|spans|)
      ensures !hasHeaderRow ==> toggles == old(toggles)
    {
      if !hasHeaderRow {
        return;
      }
      toggles := [];
      var k := 0;
      while k < |spans|
        invariant 0 <= k <= |spans|
        invariant toggles == CollapseToggles(|spans|)[..k]
      {
        toggles := toggles + [k];
        k := k + 1;
      }
    }

    /** `_saveColumnWidths`: stores the width array under this table's key. */
    method SaveColumnWidths()
      modifies this`storage
      ensures storage == old(storage)[storageKey := columnWidths]
    {
      storage := storage[storageKey := columnWidths];
    }

    /** `_loadColumnWidths`: the widths stored under this table's key, if any. */
    method LoadColumnWidths() returns (saved: Option<seq<real>>)
      ensures saved.Some? <==> storageKey in storage
      ensures saved.Some? ==> saved.value == storage[storageKey]
    {
      if storageKey in storage {
        saved := Some(storage[storageKey]);
      } else {
        saved := None;
      }
    }

    /**
     * The total width of the columns of header cell `k`, whose first column is
     * `cursor`. Every index of the span is below the column count and every
     * entry is a number, so the source's fallback for a missing width never
     * applies.
     */
    method SpanTotal(ws: seq<real>, cursor: nat, k: nat) returns (total: real)
      requires |ws| == SpanSum(spans) && k < |spans| && cursor == SpanStart(spans, k)
      ensures total == SpanWidth(ws, spans, k)
    {
      SpanStartStep(spans, k);
      SpanStartWithin(spans, k + 1);
      var colSpan := Span(spans[k]);
      total := 0.0;
      var i := 0;
      while i < colSpan
        invariant 0 <= i <= colSpan
        invariant total == SumRange(ws, cursor, cursor + i)
      {
        total := total + ws[cursor + i];
        i := i + 1;
      }
    }

    /**
     * `_applyColumnWidths`: without a header row, or when the count differs
     * from the column count, changes nothing; otherwise copies the widths and
     * sets each header cell to the total of its span when that is positive.
     */
    method ApplyColumnWidths(widths: seq<real>)
      requires Resolved()
      modifies this`columnWidths, this`headerWidth
      ensures Resolved()
      ensures !hasHeaderRow || |widths| != columnCount ==> unchanged(this)
      ensures hasHeaderRow && |widths| == columnCount ==>
                columnWidths == widths && headerWidth == HeaderWidthsFrom(widths, spans, old(headerWidth))
    {
      if !hasHeaderRow || |widths| != columnCount {
        return;
      }
      columnWidths := widths;
      ApplyHeaderWidths();
    }

    /**
     * The pass of `_applyColumnWidths` over the header cells: each cell takes
     * the total of its span's stored widths when that is positive.
     */
    method ApplyHeaderWidths()
      requires |columnWidths| == SpanSum(spans) && |headerWidth| == |spans|
      modifies this`headerWidth
      ensures headerWidth == HeaderWidthsFrom(columnWidths, spans, old(headerWidth))
    {
      ghost var previous := headerWidth;
      ghost var target := HeaderWidthsFrom(columnWidths, spans, previous);
      var cursor := 0;
      var k := 0;
      while k < |spans|
        invariant 0 <= k <= |spans|
        invariant cursor == SpanStart(spans, k)
        invariant |headerWidth| == |spans|
        invariant forall j :: 0 <= j < k ==> headerWidth[j] == target[j]
        invariant forall j :: k <= j < |spans| ==> headerWidth[j] == previous[j]
      {
        SpanStartStep(spans, k);
        SpanStartWithin(spans, k + 1);
        var colSpan := Span(spans[k]);
        var total := SpanTotal(columnWidths, cursor, k);
        if total > 0.0 {
          headerWidth := headerWidth[k := total];
        }
        cursor := cursor + colSpan;
        k := k + 1;
      }
    }

    /** A drag is in progress and the header cell its handle sits on exists. */
    ghost predicate DraggedCellPresent()
      reads this
    {
      isResizing && 0 <= currentHeaderCellIndex < |spans|
    }

    /** The widths `_updateColumnWidth` leaves, given the rendered width of the dragged header cell. */
    ghost function WidthsAfterUpdate(cellWidth: real): (ws: seq<real>)
      reads this
      requires ValidExceptFrame()
      ensures |ws| == columnCount
    {
      if !DraggedCellPresent() then columnWidths
      else DragUpdate(columnWidths, spans, currentColumnIndex, currentHeaderCellIndex,
                      startWidth, startX, lastMouseX, cellWidth)
    }

    /** The header widths `_updateColumnWidth` leaves: the dragged cell takes the total of its span. */
    ghost function HeaderAfterUpdate(cellWidth: real): (hs: seq<real>)
      reads this
      requires ValidExceptFrame()
      ensures |hs| == |spans|
    {
      if !DraggedCellPresent() then headerWidth
      else headerWidth[currentHeaderCellIndex := SpanWidth(WidthsAfterUpdate(cellWidth), spans, currentHeaderCellIndex)]
    }

    /**
     * `_updateColumnWidth`: while a drag is in progress, sets the dragged
     * column to its start width plus the pointer's travel (at least 20 px) and
     * the header cell to the total width of its span. Widths are always
     * written synchronously (see `RunPendingFrame`).
     */
    method UpdateColumnWidth(cellWidth: real)
      requires ValidExceptFrame()
      modifies this`columnWidths, this`headerWidth
      ensures ValidExceptFrame()
      ensures columnWidths == old(WidthsAfterUpdate(cellWidth))
      ensures headerWidth == old(HeaderAfterUpdate(cellWidth))
    {
      if !isResizing {
        return;
      }
      var newWidth := startWidth + (lastMouseX - startX);
      if newWidth < MinColumnWidth {
        newWidth := MinColumnWidth;
      }
      var h := currentHeaderCellIndex;
      if !(0 <= h < |spans|) {
        return;
      }
      ResizeInCell(currentColumnIndex, h, newWidth, cellWidth);
    }

    /**
     * The part of `_updateColumnWidth` after the header cell `h` is found:
     * column `c` takes `newWidth`, the missing widths of the cell's span are
     * estimated from the cell's rendered width, and the cell takes the total.
     */
    method ResizeInCell(c: nat, h: nat, newWidth: real, cellWidth: real)
      requires |columnWidths| == SpanSum(spans) && c < |columnWidths| && h < |spans| && |headerWidth| == |spans|
      modifies this`columnWidths, this`headerWidth
      ensures columnWidths == RepairSpan(old(columnWidths)[c := newWidth], SpanStart(spans, h), Span(spans[h]),
                                         cellWidth / (Span(spans[h]) as real))
      ensures headerWidth == old(headerWidth)[h := SpanWidth(columnWidths, spans, h)]
    {
      var colSpan := Span(spans[h]);
      columnWidths := columnWidths[c := newWidth];
      var first := FirstColumnOf(h);
      var estimate := cellWidth / (colSpan as real);
      SpanStartStep(spans, h);
      SpanStartWithin(spans, h + 1);
      var total := FillSpan(first, colSpan, estimate);
      headerWidth := headerWidth[h := total];
    }

    /**
     * The first logical column of header cell `h`: the source's loop walks the
     * header cells with a cursor and stops at cell `h`, which exists.
     */
    method FirstColumnOf(h: nat) returns (first: nat)
      requires h < |spans|
      ensures first == SpanStart(spans, h)
    {
      first := 0;
      var i := 0;
      while i < h
        invariant 0 <= i <= h
        invariant first == SpanStart(spans, i)
      {
        SpanStartStep(spans, i);
        first := first + Span(spans[i]);
        i := i + 1;
      }
    }

    /**
     * The pass of `_updateColumnWidth` over the `colSpan` columns from `first`
     * on: a missing (non-positive) width is replaced by `estimate`, and the
     * widths are added up.
     */
    method FillSpan(first: nat, colSpan: nat, estimate: real) returns (total: real)
      requires first + colSpan <= |columnWidths|
      modifies this`columnWidths
      ensures columnWidths == RepairSpan(old(columnWidths), first, colSpan, estimate)
      ensures total == SumRange(columnWidths, first, first + colSpan)
    {
      ghost var before := columnWidths;
      total := 0.0;
      var j := 0;
      RepairSpanNone(before, first, estimate);
      while j < colSpan
        invariant 0 <= j <= colSpan
        invariant columnWidths == RepairSpan(before, first, j, estimate)
        invariant total == SumRange(columnWidths, first, first + j)
      {
        var c := first + j;
        RepairSpanFillStep(before, first, j, estimate, columnWidths, total);
        if columnWidths[c] > 0.0 {
          total := total + columnWidths[c];
        } else {
          total := total + estimate;
          columnWidths := columnWidths[c := estimate];
        }
        j := j + 1;
      }
    }

    /**
     * `_onDragStart`, reached from `_onMouseDown` and `_onTouchStart`, as it
     * leaves the drag fields: `column` and `headerCell` are the handle's data
     * attributes after `parseInt`, `None` standing for `NaN`.
     */
    twostate predicate DragStartedFrom(column: Option<int>, headerCell: Option<int>, clientX: real,
                                       isTouch: bool, cellWidth: real)
      reads this
      requires column.Some? ==> 0 <= column.value < |columnWidths|
    {
      if column.None? || headerCell.None? then
        // a NaN index aborts before any field is written
        && isTouchEvent == old(isTouchEvent) && startX == old(startX) && lastMouseX == old(lastMouseX)
        && currentColumnIndex == old(currentColumnIndex) && currentHeaderCellIndex == old(currentHeaderCellIndex)
        && startWidth == old(startWidth) && isResizing == old(isResizing)
      else
        && isTouchEvent == isTouch && startX == clientX && lastMouseX == clientX
        && currentColumnIndex == column.value && currentHeaderCellIndex == headerCell.value
        && if 0 <= headerCell.value < |spans| then
             && isResizing
             && startWidth == StartWidth(columnWidths[column.value], cellWidth, Span(spans[headerCell.value]))
           else
             // no such header cell: the drag fields are written, the drag does not start
             && isResizing == old(isResizing) && startWidth == old(startWidth)
    }

    /**
     * `_onDragStart`: enters the dragging state from the handle on header cell
     * `headerCell` that resizes logical column `column`, with the pointer at
     * `clientX`; `cellWidth` is that header cell's rendered width.
     */
    method OnDragStart(column: Option<int>, headerCell: Option<int>, clientX: real, isTouch: bool, cellWidth: real)
      requires Valid()
      requires column.Some? ==> 0 <= column.value < columnCount
      modifies this`isTouchEvent, this`startX, this`lastMouseX, this`currentColumnIndex,
               this`currentHeaderCellIndex, this`startWidth, this`isResizing
      ensures Valid()
      ensures DragStartedFrom(column, headerCell, clientX, isTouch, cellWidth)
      ensures column.Some? && headerCell.Some? && 0 <= headerCell.value < |spans| && cellWidth > 0.0 ==> startWidth > 0.0
    {
      if column.None? || headerCell.None? {
        return;
      }
      var c, h := column.value, headerCell.value;
      isTouchEvent := isTouch;
      startX := clientX;
      lastMouseX := clientX;
      currentColumnIndex := c;
      currentHeaderCellIndex := h;
      if !(0 <= h < |spans|) {
        return;
      }
      if columnWidths[c] <= 0.0 {
        startWidth := cellWidth / (Span(spans[h]) as real);
      } else {
        startWidth := columnWidths[c];
      }
      isResizing := true;
    }

    /** `_onMouseDown`: a drag started with the mouse at `clientX`. */
    method OnMouseDown(column: Option<int>, headerCell: Option<int>, clientX: real, cellWidth: real)
      requires Valid()
      requires column.Some? ==> 0 <= column.value < columnCount
      modifies this`isTouchEvent, this`startX, this`lastMouseX, this`currentColumnIndex,
               this`currentHeaderCellIndex, this`startWidth, this`isResizing
      ensures Valid()
      ensures DragStartedFrom(column, headerCell, clientX, false, cellWidth)
    {
      OnDragStart(column, headerCell, clientX, false, cellWidth);
    }

    /**
     * `_onTouchStart`: `touches` holds the x coordinates of the touches on the
     * screen; a gesture with more than one touch is ignored.
     */
    method OnTouchStart(column: Option<int>, headerCell: Option<int>, touches: seq<real>, cellWidth: real)
      requires Valid()
      requires column.Some? ==> 0 <= column.value < columnCount
      requires |touches| >= 1
      modifies this`isTouchEvent, this`startX, this`lastMouseX, this`currentColumnIndex,
               this`currentHeaderCellIndex, this`startWidth, this`isResizing
      ensures Valid()
      ensures |touches| > 1 ==> unchanged(this)
      ensures |touches| == 1 ==> DragStartedFrom(column, headerCell, touches[0], true, cellWidth)
    {
      if |touches| > 1 {
        return;
      }
      OnDragStart(column, headerCell, touches[0], true, cellWidth);
    }

    /**
     * `_onDragMoveWrapper`: records the pointer's x (the first touch's for a
     * touch drag) and requests a frame unless one is pending; with a positive
     * interval, only when more than the interval has passed since the last
     * throttled update. `now` is the clock reading.
     */
    method OnDragMove(x: real, now: int)
      requires Valid()
      modifies this`lastMouseX, this`rafPending, this`pendingFrame
      ensures Valid()
      ensures !old(isResizing) ==> unchanged(this)
      ensures old(isResizing) ==> lastMouseX == x
      ensures old(rafPending) ==> pendingFrame == old(pendingFrame)
      ensures old(isResizing) && !old(rafPending) ==>
                pendingFrame == if resizeUpdateInterval <= 0 then PlainFrame
                                else if now - lastResizeUpdateTime > resizeUpdateInterval then ThrottledFrame(now)
                                else NoFrame
    {
      if !isResizing {
        return;
      }
      lastMouseX := x;
      if resizeUpdateInterval > 0 {
        if now - lastResizeUpdateTime > resizeUpdateInterval {
          if !rafPending {
            rafPending := true;
            pendingFrame := ThrottledFrame(now);
          }
        }
      } else {
        if !rafPending {
          rafPending := true;
          pendingFrame := PlainFrame;
        }
      }
    }

    /** `_throttledUpdate`: the throttled frame callback, scheduled at `timestamp`. */
    method ThrottledUpdate(timestamp: int, cellWidth: real)
      requires ValidExceptFrame() && pendingFrame == NoFrame
      modifies this`columnWidths, this`headerWidth, this`lastResizeUpdateTime, this`rafPending
      ensures Valid()
      ensures columnWidths == old(WidthsAfterUpdate(cellWidth))
      ensures headerWidth == old(HeaderAfterUpdate(cellWidth))
      ensures lastResizeUpdateTime == timestamp && !rafPending
    {
      UpdateColumnWidth(cellWidth);
      lastResizeUpdateTime := timestamp;
      rafPending := false;
    }

    /**
     * The browser runs the requested animation frame callback, if any; the
     * dragged header cell's rendered width is then `cellWidth`. Without
     * `requestIdleCallback` the source writes every width synchronously, which
     * is what is modelled.
     */
    method RunPendingFrame(cellWidth: real)
      requires Valid()
      modifies this`columnWidths, this`headerWidth, this`rafPending, this`pendingFrame, this`lastResizeUpdateTime
      ensures Valid()
      ensures old(pendingFrame) == NoFrame ==> unchanged(this)
      ensures old(pendingFrame) != NoFrame ==>
                && columnWidths == old(WidthsAfterUpdate(cellWidth))
                && headerWidth == old(HeaderAfterUpdate(cellWidth))
                && !rafPending && pendingFrame == NoFrame
                && lastResizeUpdateTime == if old(pendingFrame).ThrottledFrame? then old(pendingFrame).scheduledAt
                                           else old(lastResizeUpdateTime)
    {
      var frame := pendingFrame;
      pendingFrame := NoFrame;
      match frame {
        case NoFrame =>
        case PlainFrame =>
          UpdateColumnWidth(cellWidth);
          rafPending := false;
        case ThrottledFrame(timestamp) =>
          ThrottledUpdate(timestamp, cellWidth);
      }
    }

    /**
     * `_onDragEndWrapper` (mouse up, touch end, touch cancel): one last update
     * with the last recorded x, a save, and the drag fields back to their idle
     * values. A pending frame stays requested.
     */
    method OnDragEnd(cellWidth: real)
      requires Valid()
      modifies this`columnWidths, this`headerWidth, this`storage, this`isResizing, this`startX,
               this`startWidth, this`lastMouseX, this`currentColumnIndex, this`isTouchEvent
      ensures Valid()
      ensures !old(isResizing) ==> unchanged(this)
      ensures old(isResizing) ==>
                && columnWidths == old(WidthsAfterUpdate(cellWidth))
                && headerWidth == old(HeaderAfterUpdate(cellWidth))
                && storage == old(storage)[storageKey := columnWidths]
                && !isResizing && !isTouchEvent
                && startX == 0.0 && startWidth == 0.0 && lastMouseX == 0.0 && currentColumnIndex == -1
      ensures old(DraggedCellPresent()) ==>
                columnWidths[old(currentColumnIndex)] == old(DraggedWidth(startWidth, startX, lastMouseX))
    {
      if !isResizing {
        return;
      }
      UpdateColumnWidth(cellWidth);
      // The dragged column is below the column count, so its stored width is
      // defined and the source's other save branch is never taken.
      if currentColumnIndex != -1 && currentColumnIndex < |columnWidths| {
        SaveColumnWidths();
      }
      ResetDrag();
    }

    /** The close of `_onDragEndWrapper`: the drag fields go back to their idle values. */
    method ResetDrag()
      modifies this`isResizing, this`startX, this`startWidth, this`lastMouseX, this`currentColumnIndex, this`isTouchEvent
      ensures !isResizing && !isTouchEvent
      ensures startX == 0.0 && startWidth == 0.0 && lastMouseX == 0.0 && currentColumnIndex == -1
    {
      isResizing := false;
      startX := 0.0;
      startWidth := 0.0;
      lastMouseX := 0.0;
      currentColumnIndex := -1;
      isTouchEvent := false;
    }

    /**
     * Shows or hides cell `i` of every row, as the loop over `table.rows` does
     * (its pass over the header row itself repeats the header cell's write).
     */
    method SetRowsDisplay(i: int, visible: bool)
      modifies this`rows
      ensures rows == SetColumnDisplay(old(rows), i, visible)
    {
      ghost var target := SetColumnDisplay(rows, i, visible);
      var n := 0;
      while n < |rows|
        invariant 0 <= n <= |rows| == |target|
        invariant rows[..n] == target[..n]
        invariant rows[n..] == old(rows)[n..]
      {
        if 0 <= i < |rows[n]| {
          rows := rows[n := rows[n][i := visible]];
        }
        n := n + 1;
      }
    }

    /**
     * `_onCollapseToggle` for the toggle whose data attribute parses to
     * `index` (`None` for `NaN`); the header cell index is used as the logical
     * column index. `cellWidth` is that header cell's rendered width.
     */
    method OnCollapseToggle(index: Option<int>, cellWidth: real)
      requires Valid()
      modifies this`collapsedColumns, this`columnWidths, this`headerVisible, this`headerWidth, this`rows
      ensures Valid()
      ensures index.None? ==> unchanged(this)
      ensures index.Some? ==>
                collapsedColumns == old(collapsedColumns)[index.value := !old(IsCollapsed(collapsedColumns, index.value))]
      ensures index.Some? && !hasHeaderRow ==>
                && columnWidths == old(columnWidths) && headerVisible == old(headerVisible)
                && headerWidth == old(headerWidth) && rows == old(rows)
      ensures index.Some? && hasHeaderRow && !old(IsCollapsed(collapsedColumns, index.value)) ==>
                Collapsed(index.value, cellWidth)
      ensures index.Some? && hasHeaderRow && old(IsCollapsed(collapsedColumns, index.value)) ==>
                Expanded(index.value)
    {
      if index.None? {
        return;
      }
      var i := index.value;
      var wasCollapsed := i in collapsedColumns && collapsedColumns[i];
      collapsedColumns := collapsedColumns[i := !wasCollapsed];
      if !hasHeaderRow {
        // reading the header row's cells throws
        return;
      }
      if !wasCollapsed {
        CollapseColumn(i, cellWidth);
      } else {
        ExpandColumn(i);
      }
    }

    /**
     * The page and widths after column `i` collapses: the header cell, if
     * there is one, has its measured width snapshotted and is hidden, and
     * cell `i` of every row is hidden.
     */
    twostate predicate Collapsed(i: int, cellWidth: real)
      reads this
      requires old(Resolved())
    {
      && columnWidths == (if 0 <= i < |spans| then SnapshotWidth(old(columnWidths), i, cellWidth) else old(columnWidths))
      && headerVisible == (if 0 <= i < |spans| then old(headerVisible)[i := false] else old(headerVisible))
      && headerWidth == old(headerWidth)
      && rows == SetColumnDisplay(old(rows), i, false)
    }

    /**
     * The page after column `i` expands: the header cell, if there is one, is
     * shown again with its stored width, and cell `i` of every row is shown.
     */
    twostate predicate Expanded(i: int)
      reads this
      requires old(Resolved())
    {
      && columnWidths == old(columnWidths)
      && headerVisible == (if 0 <= i < |spans| then old(headerVisible)[i := true] else old(headerVisible))
      && headerWidth == (if 0 <= i < |spans| then old(headerWidth)[i := old(columnWidths)[i]] else old(headerWidth))
      && rows == SetColumnDisplay(old(rows), i, true)
    }

    /** The collapsing branch of `_onCollapseToggle`. */
    method CollapseColumn(i: int, cellWidth: real)
      requires Resolved()
      modifies this`columnWidths, this`headerVisible, this`rows
      ensures Resolved()
      ensures Collapsed(i, cellWidth)
    {
      if 0 <= i < |spans| {
        // i < |spans| <= columnCount, so the stored width is never undefined
        if Abs(columnWidths[i] - cellWidth) > SnapshotTolerance {
          columnWidths := columnWidths[i := cellWidth];
        }
        headerVisible := headerVisible[i := false];
      }
      SetRowsDisplay(i, false);
    }

    /** The expanding branch of `_onCollapseToggle`. */
    method ExpandColumn(i: int)
      requires Resolved()
      modifies this`headerVisible, this`headerWidth, this`rows
      ensures Resolved()
      ensures Expanded(i)
    {
      if 0 <= i < |spans| {
        headerVisible := headerVisible[i := true];
        headerWidth := headerWidth[i := columnWidths[i]];
      }
      SetRowsDisplay(i, true);
    }
  }
}
