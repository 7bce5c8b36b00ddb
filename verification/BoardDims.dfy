/** How the pixels of the board are shared out among its cells (xwords4/common/board.c). */
module BoardDims {
  import opened Division

  /** The sizes of the cells from `lo` up to `hi`. */
  function Total(dims: seq<nat>, lo: nat, hi: nat): nat
    requires lo <= hi <= |dims|
    decreases hi - lo
  {
    if lo == hi then 0 else Total(dims, lo, hi - 1) + dims[hi - 1]
  }

  lemma {:induction false} TotalSplit(dims: seq<nat>, lo: nat, mid: nat, hi: nat)
    requires lo <= mid <= hi <= |dims|
    ensures Total(dims, lo, hi) == Total(dims, lo, mid) + Total(dims, mid, hi)
    decreases hi - mid
  {
    if mid < hi {
      TotalSplit(dims, lo, mid, hi - 1);
    }
  }

  /** Cells repeat with the period of the visible ones, the first few of each period a pixel larger. */
  ghost predicate Shared(dims: seq<nat>, nVisible: nat, size: nat, larger: nat)
    requires 0 < nVisible
  {
    forall i :: 0 <= i < |dims| ==> dims[i] == size + if i % nVisible < larger then 1 else 0
  }

  lemma {:induction false} FirstWindow(dims: seq<nat>, nVisible: nat, size: nat, larger: nat, n: nat)
    requires 0 < nVisible && larger < nVisible && Shared(dims, nVisible, size, larger) && n <= nVisible && n <= |dims|
    ensures Total(dims, 0, n) == Times(n, size) + if n < larger then n else larger
    decreases n
  {
    if n > 0 {
      FirstWindow(dims, nVisible, size, larger, n - 1);
      SmallMod(n - 1, nVisible);
    }
  }

  lemma SmallMod(a: nat, n: nat)
    requires a < n
    ensures a % n == a
  {
  }

  lemma NextPeriod(a: nat, n: nat)
    requires 0 < n
    ensures (a + n) % n == a % n
  {
    hide Times;
    DivMod(a, n);
    TimesNext(a / n, n);
    QuotientIs(a + n, n, a / n + 1, a % n);
  }

  lemma TimesNext(q: nat, n: nat)
    ensures Times(q + 1, n) == Times(q, n) + n
  {
  }

  /** At every scroll offset the visible cells take exactly as many pixels as at the start. */
  lemma {:induction false} AnyWindow(dims: seq<nat>, nVisible: nat, size: nat, larger: nat, offset: nat)
    requires 0 < nVisible && larger < nVisible && Shared(dims, nVisible, size, larger) && offset + nVisible <= |dims|
    ensures Total(dims, offset, offset + nVisible) == Times(nVisible, size) + larger
    decreases offset
  {
    if offset == 0 {
      FirstWindow(dims, nVisible, size, larger, nVisible);
    } else {
      var lo := offset - 1;
      AnyWindow(dims, nVisible, size, larger, lo);
      TotalSplit(dims, lo, offset, lo + nVisible);
      TotalSplit(dims, offset, lo + nVisible, offset + nVisible);
      NextPeriod(lo, nVisible);
      assert Total(dims, lo, offset) == Total(dims, lo, lo) + dims[lo] == dims[lo];
      assert Total(dims, lo + nVisible, offset + nVisible) == dims[lo + nVisible];
    }
  }

  lemma NoneShared(nVisible: nat, size: nat, larger: nat)
    requires 0 < nVisible
    ensures Shared([], nVisible, size, larger)
  {
  }

  lemma OneMoreShared(dims: seq<nat>, nVisible: nat, size: nat, larger: nat, next: nat)
    requires 0 < nVisible && Shared(dims, nVisible, size, larger)
    requires next == size + if |dims| % nVisible < larger then 1 else 0
    ensures Shared(dims + [next], nVisible, size, larger)
  {
  }

  method FigureDims(edges: array<nat>, nVisible: nat, increment: nat, extra: nat) returns (changed: bool)
    requires 0 < nVisible
    modifies edges
    ensures Shared(edges[..], nVisible, increment + extra / nVisible, extra % nVisible)
    ensures changed <==> edges[..] != old(edges[..])
  {
    hide Shared;
    NoneShared(nVisible, increment + extra / nVisible, extra % nVisible);
    changed := false;
    var nAtStart := extra % nVisible;
    var size := increment + extra / nVisible;
    for ii := 0 to edges.Length
      invariant Shared(edges[..ii], nVisible, size, nAtStart)
      invariant edges[ii..] == old(edges[..])[ii..]
      invariant changed <==> edges[..] != old(edges[..])
    {
      assert edges[ii] == edges[ii..][0] == old(edges[..])[ii..][0];
      ghost var was := edges[..ii];
      var newVal := size;
      if ii % nVisible < nAtStart {
        newVal := newVal + 1;
      }
      OneMoreShared(was, nVisible, size, nAtStart, newVal);
      if edges[ii] != newVal {
        edges[ii] := newVal;
        changed := true;
        assert edges[..][ii] != old(edges[..])[ii];
      }
      assert edges[..ii + 1] == was + [newVal];
    }
    assert edges[..edges.Length] == edges[..];
  }

  /** The cells shown from `at` on fill the dimension exactly. */
  ghost predicate Fills(dims: seq<nat>, at: nat, nVisible: nat, dimension: nat) {
    at + nVisible <= |dims| && Total(dims, at, at + nVisible) == dimension
  }

  ghost predicate AllFill(dims: seq<nat>, maxOffset: nat, nVisible: nat, dimension: nat) {
    forall at :: 0 <= at <= maxOffset ==> Fills(dims, at, nVisible, dimension)
  }

  lemma WindowsFill(dims: seq<nat>, nVisible: nat, dimension: nat, at: nat)
    requires 0 < nVisible && Shared(dims, nVisible, dimension / nVisible, dimension % nVisible) && at + nVisible <= |dims|
    ensures Fills(dims, at, nVisible, dimension)
  {
    hide Shared, Times, Total;
    AnyWindow(dims, nVisible, dimension / nVisible, dimension % nVisible, at);
    TimesIs(nVisible, dimension / nVisible);
  }

  lemma SpareSpares(dimension: nat, n: nat)
    requires 0 < n
    ensures dimension % n / n == 0 && dimension % n % n == dimension % n
  {
  }

  lemma OneApart(dims: seq<nat>, nVisible: nat, size: nat, larger: nat)
    requires 0 < nVisible && Shared(dims, nVisible, size, larger)
    ensures forall i :: 0 <= i < |dims| ==> size <= dims[i] <= size + 1
  {
  }

  /** Along one axis: the sizes of the cells, the first one shown, and where the board begins. */
  datatype Axis = Axis(dims: seq<nat>, offset: nat, start: int)

  /** The scale and offset for a board of `count` cells with `nVis` of them shown in `dimension` pixels: at
      every offset the visible cells fill the dimension exactly. */
  method FigureScale(dims: array<nat>, count: nat, zoomCount: nat, dimension: nat, oldOffset: nat)
    returns (scale: nat, offset: nat, lastVisible: nat)
    requires zoomCount < count <= dims.Length
    modifies dims
    ensures offset == if oldOffset < zoomCount then oldOffset else zoomCount
    ensures scale == dimension / (count - zoomCount) && forall i :: 0 <= i < dims.Length ==> scale <= dims[i] <= scale + 1
    ensures lastVisible == offset + (count - zoomCount) - 1 < count
    ensures AllFill(dims[..], zoomCount, count - zoomCount, dimension)
  {
    hide Fills, Shared;
    var nVis: nat := count - zoomCount;
    scale := dimension / nVis;
    var spares := dimension % nVis;
    var maxOffset := count - nVis;
    offset := if oldOffset > maxOffset then maxOffset else oldOffset;
    lastVisible := count - zoomCount + offset - 1;
    var _ := FigureDims(dims, nVis, scale, spares);
    SpareSpares(dimension, nVis);
    OneApart(dims[..], nVis, scale, spares);
    assert forall i :: 0 <= i < dims.Length ==> dims[i] == dims[..][i];
    forall at | 0 <= at <= zoomCount
      ensures Fills(dims[..], at, nVis, dimension)
    {
      WindowsFill(dims[..], nVis, dimension, at);
    }
  }

  /** Where a cell is shown, and how large. */
  method GetCellSpan(axis: Axis, cell: nat) returns (left: int, width: nat)
    requires axis.offset <= cell < |axis.dims|
    ensures left == axis.start + Total(axis.dims, axis.offset, cell) && width == axis.dims[cell]
  {
    left := axis.start;
    for cur := axis.offset to cell
      invariant left == axis.start + Total(axis.dims, axis.offset, cur)
    {
      left := left + axis.dims[cur];
    }
    width := axis.dims[cell];
  }

  lemma {:induction false} TotalGrows(dims: seq<nat>, lo: nat, a: nat, b: nat)
    requires lo <= a <= b <= |dims|
    ensures Total(dims, lo, a) <= Total(dims, lo, b)
  {
    TotalSplit(dims, lo, a, b);
  }

  /** The cell at a coordinate: a cell has the pixels after its left edge up to and including its right one,
      and the first cell has the edge of the board as well. */
  method CoordToCell(axis: Axis, coord: int, maxCells: nat) returns (got: int)
    requires axis.offset <= maxCells <= |axis.dims|
    ensures got == -1 || axis.offset <= got < maxCells
    ensures got != -1 ==>
              var rel := coord - axis.start;
              0 <= rel <= Total(axis.dims, axis.offset, got + 1)
              && (got == axis.offset || Total(axis.dims, axis.offset, got) < rel)
    ensures got == -1 <==> coord < axis.start || axis.offset == maxCells
                           || Total(axis.dims, axis.offset, maxCells) < coord - axis.start
  {
    got := -1;
    var xx := coord - axis.start;
    if xx >= 0 {
      var col := axis.offset;
      while col < maxCells
        invariant axis.offset <= col <= maxCells
        invariant xx == coord - axis.start - Total(axis.dims, axis.offset, col)
        invariant col == axis.offset || 0 < xx
        invariant got == -1
      {
        xx := xx - axis.dims[col];
        TotalGrows(axis.dims, axis.offset, col + 1, maxCells);
        if xx <= 0 {
          return col;
        }
        col := col + 1;
      }
    }
  }

  /** Every coordinate within a cell's span, past its left edge, is that cell's. */
  method SpanToCell(axis: Axis, cell: nat, coord: int, maxCells: nat) returns (got: int)
    requires axis.offset <= cell < maxCells <= |axis.dims|
    requires var left := axis.start + Total(axis.dims, axis.offset, cell);
             left < coord <= left + axis.dims[cell]
    ensures got == cell
  {
    TotalGrows(axis.dims, axis.offset, cell + 1, maxCells);
    got := CoordToCell(axis, coord, maxCells);
    if got < cell {
      TotalGrows(axis.dims, axis.offset, got + 1, cell);
    } else if cell < got {
      TotalGrows(axis.dims, axis.offset, cell + 1, got);
    }
  }

  /** Where the visible cells fill the dimension, every coordinate of the board is that of a visible cell:
      none falls between the cells or beyond the last one shown. */
  method InBoundsToCell(axis: Axis, coord: int, maxCells: nat, nVisible: nat, dimension: nat) returns (got: int)
    requires 0 < nVisible && axis.offset + nVisible <= maxCells <= |axis.dims|
    requires Fills(axis.dims, axis.offset, nVisible, dimension)
    requires axis.start <= coord <= axis.start + dimension
    ensures axis.offset <= got < axis.offset + nVisible
    ensures var rel := coord - axis.start;
            rel <= Total(axis.dims, axis.offset, got + 1)
            && (got == axis.offset || Total(axis.dims, axis.offset, got) < rel)
  {
    TotalGrows(axis.dims, axis.offset, axis.offset + nVisible, maxCells);
    got := CoordToCell(axis, coord, maxCells);
    if axis.offset + nVisible <= got {
      TotalGrows(axis.dims, axis.offset, axis.offset + nVisible, got);
    }
  }
}
