/**
 * Geometry of the header row: header cells that span one or more logical
 * columns, the running cursor that maps cells to logical column indices, the
 * even split of a cell's measured width over its span, and the column each
 * resize handle targets.
 *
 * A header row is given by the sequence of its cells' `colSpan` attributes.
 */
module Geometry {

  /** The span a header cell covers: `cell.colSpan || 1`, so a zero span counts as one column. */
  function Span(colSpan: nat): (s: nat)
    ensures s >= 1
    ensures colSpan != 0 ==> s == colSpan
    ensures colSpan == 0 ==> s == 1
  {
    if colSpan == 0 then 1 else colSpan
  }

  /** The logical column count of a header row: the sum of its cells' spans. */
  function SpanSum(spans: seq<nat>): (n: nat)
    ensures n >= |spans|
    decreases |spans|
  {
    if spans == [] then 0 else SpanSum(spans[..|spans| - 1]) + Span(spans[|spans| - 1])
  }

  /** The first logical column of header cell `k` (the cursor value when cell `k` is reached). */
  function SpanStart(spans: seq<nat>, k: nat): (s: nat)
    requires k <= |spans|
    ensures k <= s
  {
    SpanSum(spans[..k])
  }

  /** Advancing the cursor past cell `k` moves it by that cell's span. */
  lemma SpanStartStep(spans: seq<nat>, k: nat)
    requires k < |spans|
    ensures SpanStart(spans, k + 1) == SpanStart(spans, k) + Span(spans[k])
  {
    assert spans[..k + 1][..k] == spans[..k];
  }

  /** The cursor after the last cell is the column count. */
  lemma SpanStartAtEnd(spans: seq<nat>)
    ensures SpanStart(spans, |spans|) == SpanSum(spans)
  {
    assert spans[..|spans|] == spans;
  }

  /** The cursor grows by at least one column per cell. */
  lemma {:induction false} SpanStartMonotone(spans: seq<nat>, k: nat, m: nat)
    requires k <= m <= |spans|
    ensures SpanStart(spans, k) + (m - k) <= SpanStart(spans, m)
    decreases m - k
  {
    if k < m {
      SpanStartMonotone(spans, k, m - 1);
      SpanStartStep(spans, m - 1);
    }
  }

  /** Every cursor value lies within the column count. */
  lemma SpanStartWithin(spans: seq<nat>, k: nat)
    requires k <= |spans|
    ensures k <= SpanStart(spans, k) <= SpanSum(spans)
  {
    SpanStartMonotone(spans, k, |spans|);
    SpanStartAtEnd(spans);
  }

  /** Cursor positions computed on a prefix of the header row agree with the whole row. */
  lemma SpanStartPrefix(spans: seq<nat>, m: nat, k: nat)
    requires k <= m <= |spans|
    ensures SpanStart(spans[..m], k) == SpanStart(spans, k)
  {
    assert spans[..m][..k] == spans[..k];
  }

  /**
   * The logical column the resize handle on header cell `k` targets:
   * `cursor + colSpan - 1`, the last column of the cell's span.
   */
  function HandleTarget(spans: seq<nat>, k: nat): (t: nat)
    requires k < |spans|
    ensures SpanStart(spans, k) <= t
    ensures t + 1 == SpanStart(spans, k + 1)
    ensures t < SpanSum(spans)
  {
    SpanStartStep(spans, k);
    SpanStartWithin(spans, k + 1);
    SpanStart(spans, k) + Span(spans[k]) - 1
  }

  /** Handles on different header cells resize different columns, in left-to-right order. */
  lemma HandleTargetsIncreasing(spans: seq<nat>, j: nat, k: nat)
    requires j < k < |spans|
    ensures HandleTarget(spans, j) < HandleTarget(spans, k)
  {
    SpanStartMonotone(spans, j + 1, k);
  }

  /** The header cell whose span covers logical column `c`. */
  function Owner(spans: seq<nat>, c: nat): (k: nat)
    requires c < SpanSum(spans)
    ensures k < |spans|
    ensures SpanStart(spans, k) <= c < SpanStart(spans, k + 1)
    decreases |spans|
  {
    var n := |spans| - 1;
    SpanStartAtEnd(spans);
    SpanStartStep(spans, n);
    SpanStartPrefix(spans, n, n);
    SpanStartAtEnd(spans[..n]);
    if c >= SpanSum(spans[..n]) then n
    else
      var k := Owner(spans[..n], c);
      SpanStartPrefix(spans, n, k);
      SpanStartPrefix(spans, n, k + 1);
      k
  }

  /** No logical column lies in the spans of two different header cells. */
  lemma SpansDisjoint(spans: seq<nat>, j: nat, k: nat, c: nat)
    requires j < |spans| && k < |spans|
    requires SpanStart(spans, j) <= c < SpanStart(spans, j + 1)
    requires SpanStart(spans, k) <= c < SpanStart(spans, k + 1)
    ensures j == k
  {
    if j < k {
      SpanStartMonotone(spans, j + 1, k);
    } else if k < j {
      SpanStartMonotone(spans, k + 1, j);
    }
  }

  /** `n` copies of `w`. */
  function Repeat(w: real, n: nat): (r: seq<real>)
    ensures |r| == n
  {
    seq(n, _ => w)
  }

  /**
   * The initial column widths: walking the header cells left to right, each
   * cell's measured width divided by its span is written to every logical
   * column the cell covers.
   */
  function InitialWidths(spans: seq<nat>, measured: seq<real>): (ws: seq<real>)
    requires |measured| == |spans|
    ensures |ws| == SpanSum(spans)
    decreases |spans|
  {
    if spans == [] then []
    else
      var n := |spans| - 1;
      InitialWidths(spans[..n], measured[..n]) + Repeat(measured[n] / (Span(spans[n]) as real), Span(spans[n]))
  }

  /** Extending the walk by header cell `k` appends that cell's even split. */
  lemma InitialWidthsStep(spans: seq<nat>, measured: seq<real>, k: nat)
    requires |measured| == |spans| && k < |spans|
    ensures InitialWidths(spans[..k + 1], measured[..k + 1])
         == InitialWidths(spans[..k], measured[..k]) + Repeat(measured[k] / (Span(spans[k]) as real), Span(spans[k]))
  {
    assert spans[..k + 1][..k] == spans[..k] && measured[..k + 1][..k] == measured[..k];
  }

  /** Every logical column covered by header cell `k` starts at that cell's width divided by its span. */
  lemma {:induction false} InitialWidthsAt(spans: seq<nat>, measured: seq<real>, k: nat, c: nat)
    requires |measured| == |spans| && k < |spans|
    requires SpanStart(spans, k) <= c < SpanStart(spans, k + 1)
    ensures c < |InitialWidths(spans, measured)|
    ensures InitialWidths(spans, measured)[c] == measured[k] / (Span(spans[k]) as real)
    decreases |spans|
  {
    var n := |spans| - 1;
    var share := measured[n] / (Span(spans[n]) as real);
    var front := InitialWidths(spans[..n], measured[..n]);
    assert InitialWidths(spans, measured) == front + Repeat(share, Span(spans[n]));
    SpanStartWithin(spans, k + 1);
    SpanStartPrefix(spans, n, n);
    SpanStartAtEnd(spans[..n]);
    assert |front| == SpanStart(spans, n);
    if k < n {
      SpanStartMonotone(spans, k + 1, n);
      SpanStartPrefix(spans, n, k);
      SpanStartPrefix(spans, n, k + 1);
      assert spans[..n][k] == spans[k] && measured[..n][k] == measured[k];
      InitialWidthsAt(spans[..n], measured[..n], k, c);
    } else {
      SpanStartStep(spans, n);
    }
  }

  /** The total of the widths `ws[lo]`, ..., `ws[hi - 1]`. */
  function SumRange(ws: seq<real>, lo: nat, hi: nat): real
    requires lo <= hi <= |ws|
    decreases hi - lo
  {
    if lo == hi then 0.0 else SumRange(ws, lo, hi - 1) + ws[hi - 1]
  }

  /** Two width arrays that agree on a window have the same total over it. */
  lemma {:induction false} SumRangeFrame(a: seq<real>, b: seq<real>, lo: nat, hi: nat)
    requires lo <= hi <= |a| && hi <= |b|
    requires forall i :: lo <= i < hi ==> a[i] == b[i]
    ensures SumRange(a, lo, hi) == SumRange(b, lo, hi)
    decreases hi - lo
  {
    if lo < hi {
      SumRangeFrame(a, b, lo, hi - 1);
    }
  }

  /** A window of equal widths totals the width times the window's length. */
  lemma {:induction false} SumRangeConstant(ws: seq<real>, lo: nat, n: nat, w: real)
    requires lo + n <= |ws|
    requires forall i :: lo <= i < lo + n ==> ws[i] == w
    ensures SumRange(ws, lo, lo + n) == (n as real) * w
  {
    if n > 0 {
      SumRangeConstant(ws, lo, n - 1, w);
    }
  }

  /** A window of positive widths has a positive total. */
  lemma {:induction false} SumRangePositive(ws: seq<real>, lo: nat, hi: nat)
    requires lo < hi <= |ws|
    ensures (forall i :: lo <= i < hi ==> ws[i] > 0.0) ==> SumRange(ws, lo, hi) > 0.0
    decreases hi - lo
  {
    if lo < hi - 1 {
      SumRangePositive(ws, lo, hi - 1);
    }
  }

  /**
   * The total width of the logical columns header cell `k` spans: the width of
   * its one column when it spans one, and positive when all of them are.
   */
  function SpanWidth(ws: seq<real>, spans: seq<nat>, k: nat): (r: real)
    requires |ws| == SpanSum(spans) && k < |spans|
    ensures Span(spans[k]) == 1 ==> SpanStart(spans, k) < |ws| && r == ws[SpanStart(spans, k)]
    ensures (forall j :: SpanStart(spans, k) <= j < SpanStart(spans, k + 1) <= |ws| ==> ws[j] > 0.0) ==> r > 0.0
  {
    SpanStartStep(spans, k);
    SpanStartWithin(spans, k + 1);
    SumRangePositive(ws, SpanStart(spans, k), SpanStart(spans, k + 1));
    assert SumRange(ws, SpanStart(spans, k), SpanStart(spans, k)) == 0.0;
    SumRange(ws, SpanStart(spans, k), SpanStart(spans, k + 1))
  }

  /** Re-adding the `n` equal parts of an even split of `w` gives `w` back. */
  lemma SplitIsExact(ws: seq<real>, lo: nat, n: nat, w: real)
    requires n >= 1 && lo + n <= |ws|
    requires forall i :: lo <= i < lo + n ==> ws[i] == w / (n as real)
    ensures SumRange(ws, lo, lo + n) == w
  {
    var share := w / (n as real);
    SumRangeConstant(ws, lo, n, share);
    assert (n as real) * share == w;
  }

  /** The columns of header cell `k` form a block of equal initial widths. */
  lemma InitialBlock(spans: seq<nat>, measured: seq<real>, k: nat)
    requires |measured| == |spans| && k < |spans|
    ensures SpanStart(spans, k) + Span(spans[k]) <= |InitialWidths(spans, measured)|
    ensures forall c :: SpanStart(spans, k) <= c < SpanStart(spans, k) + Span(spans[k]) ==>
              InitialWidths(spans, measured)[c] == measured[k] / (Span(spans[k]) as real)
  {
    SpanStartStep(spans, k);
    SpanStartWithin(spans, k + 1);
    forall c | SpanStart(spans, k) <= c < SpanStart(spans, k) + Span(spans[k])
      ensures InitialWidths(spans, measured)[c] == measured[k] / (Span(spans[k]) as real)
    {
      InitialWidthsAt(spans, measured, k, c);
    }
  }

  /** The even split is exact: the columns of cell `k` add up to its measured width again. */
  lemma InitialSplitIsExact(spans: seq<nat>, measured: seq<real>, k: nat)
    requires |measured| == |spans| && k < |spans|
    ensures SpanWidth(InitialWidths(spans, measured), spans, k) == measured[k]
  {
    var ws := InitialWidths(spans, measured);
    var lo, n := SpanStart(spans, k), Span(spans[k]);
    assert lo + n <= |ws| && SumRange(ws, lo, lo + n) == measured[k] by {
      InitialBlock(spans, measured, k);
      SplitIsExact(ws, lo, n, measured[k]);
    }
    SpanStartStep(spans, k);
  }

  /** A resize handle: the logical column it resizes and the header cell it sits on. */
  datatype Handle = Handle(columnIndex: int, headerCellIndex: int)

  /** The handles of a header row, one per cell, each on the last column of its cell's span. */
  function ResizeHandles(spans: seq<nat>): (hs: seq<Handle>)
    ensures |hs| == |spans|
  {
    seq(|spans|, k requires 0 <= k < |spans| => Handle(HandleTarget(spans, k), k))
  }

  /** Header cell `k` gets a handle that carries its index and resizes the last column of its span. */
  lemma EveryCellGetsHandle(spans: seq<nat>, k: nat)
    requires k < |spans|
    ensures ResizeHandles(spans)[k].headerCellIndex == k
    ensures SpanStart(spans, k) <= ResizeHandles(spans)[k].columnIndex
    ensures ResizeHandles(spans)[k].columnIndex + 1 == SpanStart(spans, k + 1)
  {
  }

  /** The collapse toggles of a header row: toggle `k` carries the header cell index `k`. */
  function CollapseToggles(n: nat): (ts: seq<int>)
    ensures |ts| == n
    ensures forall k :: 0 <= k < n ==> ts[k] == k
  {
    seq(n, k => k)
  }

  /** The index of the first header cell that is not positioned (`relative`, `absolute` or `fixed`). */
  function FirstUnpositioned(positioned: seq<bool>): (i: nat)
    ensures i <= |positioned|
    ensures forall j :: 0 <= j < i ==> positioned[j]
    ensures i < |positioned| ==> !positioned[i]
  {
    if positioned == [] || !positioned[0] then 0 else 1 + FirstUnpositioned(positioned[1..])
  }

  /**
   * The handles the source creates as written: on reaching a header cell that
   * is not already positioned, its log statement names an undeclared `index`,
   * which throws a ReferenceError; the surrounding catch ends handle creation,
   * keeping only the handles made for the cells before it.
   */
  function HandlesAsWritten(spans: seq<nat>, positioned: seq<bool>): (hs: seq<Handle>)
    requires |positioned| == |spans|
    ensures hs <= ResizeHandles(spans)
    ensures |hs| == |ResizeHandles(spans)| <==> forall j :: 0 <= j < |spans| ==> positioned[j]
  {
    ResizeHandles(spans)[..FirstUnpositioned(positioned)]
  }

  /** As written, no header cell from the first unpositioned one onwards gets a handle. */
  lemma UnpositionedCellStopsHandles(spans: seq<nat>, positioned: seq<bool>, k: nat)
    requires |positioned| == |spans| && k < |spans| && !positioned[k]
    ensures |HandlesAsWritten(spans, positioned)| <= k < |ResizeHandles(spans)|
    ensures forall h :: h in HandlesAsWritten(spans, positioned) ==> h.headerCellIndex < k
  {
    var hs := HandlesAsWritten(spans, positioned);
    forall h | h in hs
      ensures h.headerCellIndex < k
    {
      var j :| 0 <= j < |hs| && hs[j] == h;
    }
  }

  /** A two-cell header row whose cells are statically positioned (the browser default) gets no handle at all. */
  lemma StaticHeaderGetsNoHandles()
    ensures HandlesAsWritten([1, 1], [false, false]) == []
    ensures |ResizeHandles([1, 1])| == 2
  {
  }
}
