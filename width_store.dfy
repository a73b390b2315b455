/**
 * The width store: the per-logical-column width array and the header widths
 * derived from it, the clamped drag formula, the repair of missing widths in
 * a span, and the width snapshot taken when a column collapses.
 */
module WidthStore {
  import opened Geometry

  /** The smallest width a drag may give a column, in px. */
  const MinColumnWidth: real := 20.0

  /** A measured width within this many px of the stored one counts as already stored. */
  const SnapshotTolerance: real := 0.5

  /**
   * The width of the dragged column: its width when the drag started plus the
   * pointer's travel, but never below `MinColumnWidth`.
   */
  function DraggedWidth(startWidth: real, startX: real, x: real): (w: real)
    ensures w >= MinColumnWidth
    ensures w >= startWidth + (x - startX)
    ensures w == MinColumnWidth || w == startWidth + (x - startX)
  {
    var w := startWidth + (x - startX);
    if w < MinColumnWidth then MinColumnWidth else w
  }

  /**
   * The width a drag starts from: the column's stored width, or, when that is
   * not positive, an equal share of the rendered width of the dragged header
   * cell over the `span` columns it covers.
   */
  function StartWidth(stored: real, cellWidth: real, span: nat): (w: real)
    requires span >= 1
    ensures stored > 0.0 ==> w == stored
    ensures stored <= 0.0 ==> w * (span as real) == cellWidth
    ensures cellWidth > 0.0 ==> w > 0.0
  {
    if stored > 0.0 then stored else cellWidth / (span as real)
  }

  /** Moving the pointer further right never makes the dragged column narrower. */
  lemma DraggedWidthMonotone(startWidth: real, startX: real, x1: real, x2: real)
    requires x1 <= x2
    ensures DraggedWidth(startWidth, startX, x1) <= DraggedWidth(startWidth, startX, x2)
  {
  }

  /**
   * The header widths after stored widths are applied: a header cell takes the
   * total width of its span when that total is positive and keeps its
   * previous width otherwise.
   */
  function HeaderWidthsFrom(ws: seq<real>, spans: seq<nat>, previous: seq<real>): (hs: seq<real>)
    requires |ws| == SpanSum(spans) && |previous| == |spans|
    ensures |hs| == |spans|
    ensures forall k :: 0 <= k < |spans| && previous[k] > 0.0 ==> hs[k] > 0.0
  {
    seq(|spans|, k requires 0 <= k < |spans| =>
      if SpanWidth(ws, spans, k) > 0.0 then SpanWidth(ws, spans, k) else previous[k])
  }

  /** When every stored width is positive, each header cell takes exactly the total of its span. */
  lemma StoredWidthsSizeEveryHeader(ws: seq<real>, spans: seq<nat>, previous: seq<real>)
    requires |ws| == SpanSum(spans) && |previous| == |spans|
    requires forall j :: 0 <= j < |ws| ==> ws[j] > 0.0
    ensures forall k :: 0 <= k < |spans| ==>
              HeaderWidthsFrom(ws, spans, previous)[k] == SpanWidth(ws, spans, k) > 0.0
  {
    forall k | 0 <= k < |spans|
      ensures HeaderWidthsFrom(ws, spans, previous)[k] == SpanWidth(ws, spans, k) > 0.0
    {
      SpanStartWithin(spans, k + 1);
    }
  }

  /** Applying the initial even split gives every header cell back its measured width. */
  lemma ApplyingInitialSplitKeepsHeader(spans: seq<nat>, measured: seq<real>)
    requires |measured| == |spans|
    ensures HeaderWidthsFrom(InitialWidths(spans, measured), spans, measured) == measured
  {
    var hs := HeaderWidthsFrom(InitialWidths(spans, measured), spans, measured);
    forall k | 0 <= k < |spans|
      ensures hs[k] == measured[k]
    {
      InitialSplitIsExact(spans, measured, k);
    }
  }

  /**
   * The widths after the missing (non-positive) entries of the span
   * `lo .. lo + n` are replaced by `estimate`.
   */
  function RepairSpan(ws: seq<real>, lo: nat, n: nat, estimate: real): (r: seq<real>)
    ensures |r| == |ws|
    ensures forall c :: 0 <= c < |ws| && ws[c] > 0.0 ==> r[c] == ws[c]
    ensures forall c :: 0 <= c < |ws| && !(lo <= c < lo + n) ==> r[c] == ws[c]
    ensures estimate > 0.0 ==> forall c :: lo <= c < lo + n && c < |ws| ==> r[c] > 0.0
  {
    seq(|ws|, c requires 0 <= c < |ws| => if lo <= c < lo + n && ws[c] <= 0.0 then estimate else ws[c])
  }

  /** Repairing one more entry of the span changes at most that entry. */
  lemma RepairSpanStep(ws: seq<real>, lo: nat, j: nat, estimate: real)
    requires lo + j < |ws|
    ensures RepairSpan(ws, lo, j + 1, estimate)
         == if ws[lo + j] > 0.0 then RepairSpan(ws, lo, j, estimate)
            else RepairSpan(ws, lo, j, estimate)[lo + j := estimate]
  {
  }

  /** An empty span repairs nothing. */
  lemma RepairSpanNone(ws: seq<real>, lo: nat, estimate: real)
    ensures RepairSpan(ws, lo, 0, estimate) == ws
  {
  }

  /**
   * One step of the repair pass over a span: `widths` is the array with the
   * first `j` entries of the span repaired and `total` their sum; repairing
   * entry `lo + j` and adding its width gives the state after `j + 1` entries.
   */
  lemma RepairSpanFillStep(ws: seq<real>, lo: nat, j: nat, estimate: real, widths: seq<real>, total: real)
    requires lo + j < |ws|
    requires widths == RepairSpan(ws, lo, j, estimate) && total == SumRange(widths, lo, lo + j)
    ensures widths[lo + j] > 0.0 ==>
              && RepairSpan(ws, lo, j + 1, estimate) == widths
              && SumRange(widths, lo, lo + j + 1) == total + widths[lo + j]
    ensures widths[lo + j] <= 0.0 ==>
              && RepairSpan(ws, lo, j + 1, estimate) == widths[lo + j := estimate]
              && SumRange(widths[lo + j := estimate], lo, lo + j + 1) == total + estimate
  {
    RepairSpanStep(ws, lo, j, estimate);
    SumRangeFrame(widths, widths[lo + j := estimate], lo, lo + j);
  }

  /** A span with no missing entry needs no repair. */
  lemma RepairSpanOfPositive(ws: seq<real>, lo: nat, n: nat, estimate: real)
    requires forall c :: lo <= c < lo + n && c < |ws| ==> ws[c] > 0.0
    ensures RepairSpan(ws, lo, n, estimate) == ws
  {
  }

  /** A column grabbed at 150 px with the pointer at 100: released at 180 it is 230 px, dragged to -100 it stops at 20 px. */
  lemma DraggedWidthExamples()
    ensures DraggedWidth(150.0, 100.0, 180.0) == 230.0
    ensures DraggedWidth(150.0, 100.0, -100.0) == MinColumnWidth
  {
  }

  /**
   * The widths after one update of a drag on the handle of header cell `h`,
   * which resizes column `c`: the dragged column takes the clamped drag width,
   * then every missing width in the cell's span is estimated as an equal share
   * of the cell's rendered width `cellWidth`.
   */
  function DragUpdate(ws: seq<real>, spans: seq<nat>, c: nat, h: nat,
                      startWidth: real, startX: real, x: real, cellWidth: real): (r: seq<real>)
    requires |ws| == SpanSum(spans) && c < |ws| && h < |spans|
    ensures |r| == |ws|
    ensures r[c] == DraggedWidth(startWidth, startX, x)
    ensures forall j :: 0 <= j < |ws| && j != c && !(SpanStart(spans, h) <= j < SpanStart(spans, h + 1)) ==> r[j] == ws[j]
    ensures forall j :: 0 <= j < |ws| && j != c && ws[j] > 0.0 ==> r[j] == ws[j]
    ensures cellWidth > 0.0 ==>
              forall j :: SpanStart(spans, h) <= j < SpanStart(spans, h + 1) && j < |ws| ==> r[j] > 0.0
  {
    SpanStartStep(spans, h);
    var n := Span(spans[h]);
    PositiveShare(cellWidth, n);
    RepairSpan(ws[c := DraggedWidth(startWidth, startX, x)], SpanStart(spans, h), n, cellWidth / (n as real))
  }

  /** An equal share of a positive width is positive. */
  lemma PositiveShare(w: real, n: nat)
    requires n >= 1
    ensures w > 0.0 ==> w / (n as real) > 0.0
  {
  }

  /** Changing one entry of a window changes the window's total by the difference. */
  lemma {:induction false} SumRangeUpdate(ws: seq<real>, lo: nat, hi: nat, c: nat, w: real)
    requires lo <= c < hi <= |ws|
    ensures SumRange(ws[c := w], lo, hi) == SumRange(ws, lo, hi) - ws[c] + w
    decreases hi - lo
  {
    if c < hi - 1 {
      SumRangeUpdate(ws, lo, hi - 1, c, w);
    } else {
      SumRangeFrame(ws, ws[c := w], lo, hi - 1);
    }
  }

  /** Changing one column of header cell `h` changes the cell's total width by the difference. */
  lemma SpanWidthOfUpdate(ws: seq<real>, spans: seq<nat>, h: nat, c: nat, w: real)
    requires |ws| == SpanSum(spans) && h < |spans|
    requires SpanStart(spans, h) <= c < SpanStart(spans, h + 1)
    ensures c < |ws|
    ensures SpanWidth(ws[c := w], spans, h) == SpanWidth(ws, spans, h) - ws[c] + w
  {
    SpanStartStep(spans, h);
    SpanStartWithin(spans, h + 1);
    SumRangeUpdate(ws, SpanStart(spans, h), SpanStart(spans, h + 1), c, w);
  }

  /** When every column of header cell `h` has a width, a drag update only writes the dragged column. */
  lemma DragUpdateOfPositive(ws: seq<real>, spans: seq<nat>, c: nat, h: nat,
                             startWidth: real, startX: real, x: real, cellWidth: real)
    requires |ws| == SpanSum(spans) && c < |ws| && h < |spans|
    requires forall j :: SpanStart(spans, h) <= j < SpanStart(spans, h + 1) && j < |ws| ==> ws[j] > 0.0
    ensures DragUpdate(ws, spans, c, h, startWidth, startX, x, cellWidth) == ws[c := DraggedWidth(startWidth, startX, x)]
  {
    SpanStartStep(spans, h);
    var n := Span(spans[h]);
    RepairSpanOfPositive(ws[c := DraggedWidth(startWidth, startX, x)], SpanStart(spans, h), n, cellWidth / (n as real));
  }

  /**
   * When every column of header cell `h` has a width, dragging the handle of
   * the cell, which resizes its last column, changes the cell's total width by
   * exactly the change of that column.
   */
  lemma DragChangesHeaderByDelta(ws: seq<real>, spans: seq<nat>, h: nat,
                                 startWidth: real, startX: real, x: real, cellWidth: real)
    requires |ws| == SpanSum(spans) && h < |spans|
    requires forall j :: SpanStart(spans, h) <= j < SpanStart(spans, h + 1) && j < |ws| ==> ws[j] > 0.0
    ensures HandleTarget(spans, h) < |ws|
    ensures SpanWidth(DragUpdate(ws, spans, HandleTarget(spans, h), h, startWidth, startX, x, cellWidth), spans, h)
         == SpanWidth(ws, spans, h) - ws[HandleTarget(spans, h)] + DraggedWidth(startWidth, startX, x)
  {
    var c := HandleTarget(spans, h);
    DragUpdateOfPositive(ws, spans, c, h, startWidth, startX, x, cellWidth);
    SpanWidthOfUpdate(ws, spans, h, c, DraggedWidth(startWidth, startX, x));
  }

  /** The absolute value, as `Math.abs`. */
  function Abs(x: real): (r: real)
    ensures r >= 0.0 && (r == x || r == -x)
  {
    if x < 0.0 then -x else x
  }

  /**
   * The widths after a collapse snapshots the measured width of column `i`:
   * the stored width is replaced only when it is off by more than the tolerance.
   */
  function SnapshotWidth(ws: seq<real>, i: nat, measured: real): (r: seq<real>)
    requires i < |ws|
    ensures |r| == |ws|
    ensures Abs(r[i] - measured) <= SnapshotTolerance
    ensures forall j :: 0 <= j < |ws| && j != i ==> r[j] == ws[j]
    ensures Abs(ws[i] - measured) <= SnapshotTolerance ==> r == ws
    ensures Abs(ws[i] - measured) > SnapshotTolerance ==> r[i] == measured
  {
    if Abs(ws[i] - measured) > SnapshotTolerance then ws[i := measured] else ws
  }

  /** Taking the snapshot a second time with the same measurement changes nothing. */
  lemma SnapshotIdempotent(ws: seq<real>, i: nat, measured: real)
    requires i < |ws|
    ensures SnapshotWidth(SnapshotWidth(ws, i, measured), i, measured) == SnapshotWidth(ws, i, measured)
  {
  }
}
