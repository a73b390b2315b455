# ResizableTable column engine, modelled in Dafny

`ResizableTable` (`src/ResizableTable.js`) makes the columns of an HTML table
resizable by dragging a handle on the right edge of each header cell, and
collapsible through a toggle on each header cell. The toggle sits inside its
header cell, so collapsing a column hides its toggle too, and the page offers
no way to expand the column again. It keeps one width per
logical column, where a header cell with `colSpan` n covers n logical columns.
It saves those widths in the browser's local storage under
`resizable-table-widths-<table id>`. For a table that carries its own `id`
attribute it restores them when the page loads again. A table without one is
given a fresh generated id, and so a fresh key, on every load, so its saved
widths are never found again.

As written, the drag and collapse handlers throw as soon as they are called. The constructor calls
`init` at line 65 and binds the handlers only at lines 67-77. So the
listeners `init` attaches (lines 284-285 and 333) are the unbound prototype
methods, and the browser calls them with `this` set to the handle or toggle
element. `this._onDragStart(...)` (lines 441 and 450) and
`this.collapsedColumns[columnIndex]` (line 375) then throw a `TypeError`
before any state changes. The model's `OnMouseDown`, `OnTouchStart` and
`OnCollapseToggle` describe the handlers as the later binds evidently intend
them: called with `this` set to the instance.

This project models that engine as a Dafny class, `Table.ResizableTable`, whose
fields are the engine's own:

- `columnWidths`, `collapsedColumns`;
- the drag fields `isResizing`, `startX`, `startWidth`, `lastMouseX`,
  `currentColumnIndex`, `currentHeaderCellIndex`, `rafPending`,
  `lastResizeUpdateTime`;
- the page data the engine writes: each header cell's `style.width` and
  display, and each other row's cell displays;
- the local storage, as a map from keys to width arrays.

Each state-changing method of the source is a method with a `modifies` clause. Its loops and
running cursors are kept, and each loop is proved against a specification
function:

- `Geometry` holds the span arithmetic. This covers the column count, the first
  column of a header cell, the even initial split, and the column a handle
  targets.
- `WidthStore` holds the width formulas: the clamped drag width, the repair of
  missing widths in a span, the header width recomputed from stored widths, and
  the collapse snapshot.
- `Scenarios` follows whole user sessions, for every table and every input:
  - drag, release and reload;
  - collapse then expand;
  - throttled and unthrottled moves.

How the page and the browser are represented:

- **Measured widths** come from `getComputedStyle`. They are parameters of the
  operations that read them.
- **Animation frames.** The one frame callback the engine may have requested is
  the field `pendingFrame`. The method `RunPendingFrame` stands for the browser
  running it.
- **The clock.** `Date.now()` is a parameter of `OnDragMove`. Times and `resizeUpdateInterval` are whole milliseconds (`int`). A positive interval below 1 ms, which takes the throttled path in the source (line 522), is not representable. Rounded down to 0, it would take the unthrottled path here.
- **Event handlers** are direct method calls. A handle's `data-` attributes
  arrive already parsed by `parseInt`, with `None` for `NaN`.

## Model

| member | source | states |
|---|---|---|
| Geometry.Span | src/ResizableTable.js:104 | a cell covers at least one column; a missing or zero `colSpan` counts as one |
| Geometry.SpanSum | src/ResizableTable.js:102-105 | the column count is at least the number of header cells |
| Geometry.SpanStart | src/ResizableTable.js:115-137 | the running cursor at header cell k has passed at least k columns |
| Geometry.SpanStartMonotone | src/ResizableTable.js:115-137 | the running cursor advances by at least one column per header cell |
| Geometry.HandleTarget | src/ResizableTable.js:256 | a handle targets the last logical column of its cell's span, which is below the column count |
| Geometry.HandleTargetsIncreasing | src/ResizableTable.js:241-292 | handles on different header cells resize different columns, in left-to-right order |
| Geometry.Owner | src/ResizableTable.js:102-137 | every logical column lies in the span of some header cell |
| Geometry.SpansDisjoint | src/ResizableTable.js:115-137 | no logical column lies in two spans, so the initial pass writes each column exactly once |
| Geometry.InitialWidths | src/ResizableTable.js:115-137 | the initial pass writes one width per logical column; `InitialWidthsAt` gives each one |
| Geometry.InitialWidthsAt | src/ResizableTable.js:115-137 | every column covered by header cell k starts with cell k's measured width divided by its span |
| Geometry.SumRangePositive | src/ResizableTable.js:211-223 | a span of positive widths has a positive total |
| Geometry.SpanWidth | src/ResizableTable.js:207-221 | the total of a cell's span is its one column's width when it spans one, and positive when every width of the span is |
| Geometry.InitialSplitIsExact | src/ResizableTable.js:122-139 | the even split of a cell's measured width adds back up to that width |
| Geometry.ResizeHandles | src/ResizableTable.js:241-292 | as intended, the handles number exactly the header cells |
| Geometry.EveryCellGetsHandle | src/ResizableTable.js:243-292 | header cell k gets a handle carrying index k and the last column of its span (the intended behaviour) |
| Geometry.CollapseToggles | src/ResizableTable.js:309-318 | one toggle per header cell, toggle k carrying index k |
| Geometry.FirstUnpositioned | src/ResizableTable.js:258-259 | the first header cell whose position test fails: every cell before it is positioned, and it is not |
| Geometry.HandlesAsWritten | src/ResizableTable.js:243-294 | as written, the handles are a prefix of the intended ones, and all of them only when every header cell is positioned |
| Geometry.UnpositionedCellStopsHandles | src/ResizableTable.js:258-262 | as written, no header cell from the first unpositioned one on gets a handle |
| Geometry.StaticHeaderGetsNoHandles | src/ResizableTable.js:258-262 | as written, a two-cell header row of statically positioned cells gets no handle |
| WidthStore.DraggedWidth | src/ResizableTable.js:621-627 | the dragged width is the start width plus the pointer's travel, and never below 20 px |
| WidthStore.StartWidth | src/ResizableTable.js:483-496 | a drag starts from the stored width when positive, else from an equal share of the cell's rendered width, which is positive when the cell's width is |
| WidthStore.DraggedWidthMonotone | src/ResizableTable.js:621-627 | moving the pointer further right never narrows the dragged column |
| WidthStore.DraggedWidthExamples | src/ResizableTable.js:621-627 | grabbed at 150 px at x = 100: released at 180 gives 230 px, and dragged to -100 gives 20 px |
| WidthStore.HeaderWidthsFrom | src/ResizableTable.js:204-228 | one width per header cell; a header cell with a positive width keeps a positive width |
| WidthStore.StoredWidthsSizeEveryHeader | src/ResizableTable.js:204-228 | when every stored width is positive, each header cell takes exactly its positive span total |
| WidthStore.ApplyingInitialSplitKeepsHeader | src/ResizableTable.js:196-228 | applying the initial split gives every header cell back its measured width |
| WidthStore.RepairSpan | src/ResizableTable.js:670-682 | only the non-positive widths of the span change; with a positive estimate the whole span becomes positive |
| WidthStore.DragUpdate | src/ResizableTable.js:640-682 | one update writes the dragged width to its column; it changes no other positive width and no column outside the cell's span |
| WidthStore.DragUpdateOfPositive | src/ResizableTable.js:645-682 | when the span has no missing width, an update writes the dragged column only |
| WidthStore.DragChangesHeaderByDelta | src/ResizableTable.js:640-689 | when no width of the dragged cell's span is missing, the dragged cell's total width changes by exactly the dragged column's change |
| WidthStore.SnapshotWidth | src/ResizableTable.js:391-400 | a stored width more than 0.5 px off the measurement is replaced by it; one within 0.5 px is left alone |
| WidthStore.SnapshotIdempotent | src/ResizableTable.js:391-400 | taking the snapshot a second time with the same measurement changes nothing |
| Table.SetColumnDisplay | src/ResizableTable.js:405-409 | cell i of every row that has one takes the new display; every other cell keeps its own |
| Table.ShowAfterHide | src/ResizableTable.js:405-433 | showing a column after hiding it leaves every row as if it had only been shown |
| Table.ResizableTable.constructor | src/ResizableTable.js:24-65 | the drag fields start idle; the storage key is the prefix plus the table id; the instance is initialised from its header row |
| Table.ResizableTable.Init | src/ResizableTable.js:80-167 | a second `init`, or one on a table without a header row, changes nothing; otherwise see `InitializedFrom` |
| Table.ResizableTable.InitColumns | src/ResizableTable.js:100-166 | column count = sum of spans; saved widths of the right length win; otherwise the even split, with header widths = measured widths |
| Table.ResizableTable.CountColumns | src/ResizableTable.js:102-105 | the loop's count is the sum of the spans |
| Table.ResizableTable.ResolveInitialWidths | src/ResizableTable.js:112-145 | the cursor pass leaves the even split in `columnWidths` and the measured widths on the header cells |
| Table.ResizableTable.ResolveCell | src/ResizableTable.js:116-140 | one header cell's pass advances the cursor to the next cell's first column and fills its span |
| Table.ResizableTable.SpreadWidth | src/ResizableTable.js:124-137 | the inner loop writes the share to the span's columns and advances the cursor by the span |
| Table.ResizableTable.CreateResizeHandles | src/ResizableTable.js:232-297 | every header cell gets its handle (the corrected behaviour) |
| Table.ResizableTable.CreateCollapseToggles | src/ResizableTable.js:299-342 | toggle k carries header cell index k |
| Table.ResizableTable.SaveColumnWidths | src/ResizableTable.js:169-178 | the widths are stored under this table's key; other keys are untouched |
| Table.ResizableTable.LoadColumnWidths | src/ResizableTable.js:180-194 | the stored widths if the key is present, and nothing otherwise |
| Table.ResizableTable.ApplyColumnWidths | src/ResizableTable.js:196-230 | a missing header row or a length mismatch changes nothing; otherwise the widths are copied and each header cell with a positive span total takes it |
| Table.ResizableTable.ApplyHeaderWidths | src/ResizableTable.js:204-228 | the cursor loop sets each header cell to its span total when positive |
| Table.ResizableTable.SpanTotal | src/ResizableTable.js:207-221 | the inner loop adds up exactly the widths of the cell's span |
| Table.ResizableTable.UpdateColumnWidth | src/ResizableTable.js:618-712 | when not resizing, or when the header cell is missing, nothing changes; otherwise the widths are the drag update and the cell takes its span total |
| Table.ResizableTable.ResizeInCell | src/ResizableTable.js:640-689 | the clamped width is written, the span is repaired, and the cell takes the repaired total |
| Table.ResizableTable.FirstColumnOf | src/ResizableTable.js:656-668 | the cursor loop finds the first column of the dragged cell |
| Table.ResizableTable.FillSpan | src/ResizableTable.js:670-682 | the span loop repairs the missing widths and returns the repaired total |
| Table.ResizableTable.OnDragStart | src/ResizableTable.js:453-513 | a NaN index writes nothing; otherwise the pointer fields are set; with the header cell present, the drag starts from the stored width (or the cell's share when that is not positive) |
| Table.ResizableTable.OnMouseDown | src/ResizableTable.js:440-442 | a mouse drag starts at the pointer's x |
| Table.ResizableTable.OnTouchStart | src/ResizableTable.js:444-451 | a multi-touch start changes nothing; a single touch starts a touch drag at its x |
| Table.ResizableTable.OnDragMove | src/ResizableTable.js:515-553 | when idle nothing changes; otherwise x is recorded and at most one frame is pending (throttled only once the interval has passed) |
| Table.ResizableTable.ThrottledUpdate | src/ResizableTable.js:606-611 | the update runs; the last update time becomes the scheduled time; no frame is pending |
| Table.ResizableTable.RunPendingFrame | src/ResizableTable.js:533-546 | running the requested frame performs one update and clears the pending flag |
| Table.ResizableTable.OnDragEnd | src/ResizableTable.js:555-601 | when idle nothing changes; otherwise one last update, a save, and the drag fields reset; the dragged column ends at the clamped drag width |
| Table.ResizableTable.ResetDrag | src/ResizableTable.js:596-600 | the drag ends with both flags false, the positions at 0 and the column index at -1 |
| Table.ResizableTable.SetRowsDisplay | src/ResizableTable.js:405-409 | the row loop sets cell i of every row to the given display |
| Table.ResizableTable.OnCollapseToggle | src/ResizableTable.js:344-438 | a NaN index changes nothing; otherwise the flag flips, with `Table.IsCollapsed` as the `=== true` test of line 375, so a column never toggled counts as expanded; then the column collapses or expands |
| Table.ResizableTable.CollapseColumn | src/ResizableTable.js:386-409 | the width is snapshotted; the header cell and cell i of every row are hidden; header widths are untouched |
| Table.ResizableTable.ExpandColumn | src/ResizableTable.js:414-433 | the header cell is shown with its stored width; cell i of every row is shown; stored widths are untouched |
| Scenarios.StartingWidths | src/ResizableTable.js:157-166 | a new instance starts with one width per logical column: the saved ones when they fit, else the even split |
| Scenarios.PressAndMove | src/ResizableTable.js:453-553 | a press on header cell h's handle and a move leave a drag on the handle's column, started from that column's starting width (or the cell's share) |
| Scenarios.DragAndRelease | src/ResizableTable.js:555-601 | after a drag from x0 to x1 and a release, the drag started from the column's starting width (or the cell's share), the saved widths are the starting widths after one drag update, so the column holds the clamped drag width, and they are stored under the table's key |
| Scenarios.Reload | src/ResizableTable.js:157-166 | a new instance starts with the stored widths when they fit the header row |
| Scenarios.DragThenReload | src/ResizableTable.js:555-601 | after a drag, a release and a reload of a table with the same id, the new instance starts with exactly the saved widths, so the dragged column keeps its clamped drag width |
| Scenarios.CollapseHidesToggle | src/ResizableTable.js:335-403 | after a collapse of column i, the header cell holding toggle i is hidden, so the toggle is hidden with it |
| Scenarios.CollapseThenExpand | src/ResizableTable.js:375-436 | two toggles leave the column expanded and visible, with its header within 0.5 px of the width measured at collapse |
| Scenarios.ThrottleHoldsBackEarlyMoves | src/ResizableTable.js:522-535 | once a throttled frame has run at t0, a move within the interval after t0 requests no frame |
| Scenarios.UnthrottledFrameUsesLastMove | src/ResizableTable.js:538-547 | without an interval a frame is requested, and it writes the clamped width for the last recorded x, from the column's starting width (or the cell's share) |

## Left out

- `deferDomWrites` with `requestIdleCallback`:
  - the model performs the DOM update synchronously: both the header width and the repair of missing widths in the dragged cell's span (line 680), which the source also defers when it defers the update (lines 701-706);
  - this is the source's own path when `requestIdleCallback` is unavailable, and the path a forced final update always takes.
- **Logging.** All `console` logging, including the warning for a span total below 20 px per column.
- **Measurement.** `getComputedStyle`, `offsetHeight` and `parseFloat` of computed widths:
  - measured widths are parameters and are not `NaN`;
  - a width that reads as a number in the source is a `real` here;
  - floating-point rounding is not modelled. `Geometry.InitialSplitIsExact` and
    `WidthStore.ApplyingInitialSplitKeepsHeader` hold exactly for reals only. In
    floating point the three thirds of 123.45 add up to 123.44999999999999, and
    the six sixths of 100 to 100.00000000000001.
- **Styling and the DOM.**
  - Handle and toggle styling, the `position` fixes, and the toggle's `+`/`-` glyph and title text.
  - `cloneNode` of the original table, and the module wrapper.
  - `table-layout: fixed`.
- **Choosing the header row.** The header row is given as `Some(cells)` or `None`. The choice between `<thead>` and the first `<tbody>` row is not modelled.
- **Table id.** The table's id is the constructor parameter `tableId`. The id the source generates from `Date.now()` and `Math.random()` for a table without an `id` attribute is not modelled. Such a table gets a new id, and so a new storage key, on every load. `Scenarios.Reload` and `Scenarios.DragThenReload` therefore describe a table that carries its own `id`.
- **Local storage.** The availability check, JSON encoding and its errors are not modelled. The store is a map from keys to width arrays. Saved data that does not parse to a number array is not modelled.
- **Event wiring.** Listener wiring (`addEventListener`, `removeEventListener`, `bind`) and `preventDefault` are left out. Handlers are direct method calls on the instance. As written, the listeners are attached before the constructor binds them (lines 65 and 67-77), so each throws a `TypeError` before changing any state, as the introduction explains. `Table.ResizableTable.OnMouseDown`, `Table.ResizableTable.OnTouchStart` and `Table.ResizableTable.OnCollapseToggle` model the bound handlers.
- `Table.ResizableTable.OnDragStart` requires a numeric column index to lie within the column count:
  - handles only ever carry such indices;
  - an index beyond the array would grow the JavaScript array, which the model does not represent.
- `Table.ResizableTable.UpdateColumnWidth`: the source's fallback for an unfound first column of a span is not modelled. It cannot be reached once the header cell exists.
- `Table.ResizableTable.SpanTotal`: the fallback for a missing width in `_applyColumnWidths` is not modelled. After the length check every span index holds a number.
- **Rows.** The rows loop of `_onCollapseToggle` also passes over the header row. Its write to header cell i repeats the header cell's own display write, so `rows` holds the other rows only.
- **Expanding a column.** The toggle is appended to its header cell (line 335), and collapsing hides that cell (line 403), as the comment at lines 382-384 notes. Nothing else calls `_onCollapseToggle`, so the expand branch (lines 414-436) cannot be reached by a click. `Scenarios.CollapseHidesToggle` states the hidden toggle. `Table.ResizableTable.ExpandColumn` and `Scenarios.CollapseThenExpand` model that branch as reached by a direct second call of the handler.
- **Spans in collapse.** The collapse toggle uses the header cell index as the logical column index, as the source does. Hiding all columns of a spanned cell is not implemented there and is not modelled here.

## Findings

| source | as written | input that shows it | evidently intended | confidence | as-written member | corrected member |
|---|---|---|---|---|---|---|
| src/ResizableTable.js:261 | the log statement for a header cell that is not already positioned names `index`, which is not declared in `_createResizeHandles`; reading it throws a `ReferenceError`, and the catch at line 294 ends handle creation | a header row whose cells have the default `position: static`: the first cell throws, and no handle is created | every header cell gets a handle on the last column of its span, as `_createCollapseToggles` does for toggles | not executed | Geometry.UnpositionedCellStopsHandles | Table.ResizableTable.CreateResizeHandles |
