/**
  What `draw_line` draws. The pixel sequences of module Raster are described
  case by case: how many pixels there are, that the first and the last are the
  endpoints of the line, that consecutive pixels touch, that no pixel repeats
  and that every pixel lies in the bounding box of the endpoints. From those
  follow that every index written stays inside the buffer when both endpoints
  do, and that a line writes exactly `max(|dx|, |dy|) + 1` distinct cells.
*/
module RasterProps {
  import opened Geometry
  import opened Raster

  /** Two pixels that touch by a side or by a corner. */
  predicate Adjacent(p: IPoint, q: IPoint) {
    p != q && Abs(q.x - p.x) <= 1 && Abs(q.y - p.y) <= 1
  }

  /** Each pixel touches the next: the run has no gap. */
  predicate Connected(pix: seq<IPoint>) {
    forall k :: 0 <= k < |pix| - 1 ==> Adjacent(pix[k], pix[k + 1])
  }

  /** No pixel is visited twice. */
  predicate Distinct(pix: seq<IPoint>) {
    forall i, j :: 0 <= i < j < |pix| ==> pix[i] != pix[j]
  }

  /** Every pixel lies in the bounding box of the line's endpoints. */
  predicate WithinBox(pix: seq<IPoint>, l: ILine) {
    forall k :: 0 <= k < |pix| ==>
      Min(l.p0.x, l.p1.x) <= pix[k].x <= Max(l.p0.x, l.p1.x) &&
      Min(l.p0.y, l.p1.y) <= pix[k].y <= Max(l.p0.y, l.p1.y)
  }

  /** The run starts at one endpoint of `l` and ends at the other. */
  predicate Joins(pix: seq<IPoint>, l: ILine) {
    |pix| > 0 &&
    ((pix[0] == l.p0 && pix[|pix| - 1] == l.p1) || (pix[0] == l.p1 && pix[|pix| - 1] == l.p0))
  }

  /** Everything the pixel sequence of one drawing case is promised to be. */
  predicate GoodRun(pix: seq<IPoint>, l: ILine) {
    |pix| == Max(Abs(l.p1.x - l.p0.x), Abs(l.p1.y - l.p0.y)) + 1 &&
    Joins(pix, l) && Connected(pix) && Distinct(pix) && WithinBox(pix, l)
  }

  // ---------------------------------------------------------------------
  // Runs that advance one column (or one row) per pixel
  // ---------------------------------------------------------------------

  /** The pixels advance one column per step from `x0`. */
  predicate ColumnSteps(pix: seq<IPoint>, x0: int) {
    forall k :: 0 <= k < |pix| ==> pix[k].x == x0 + k
  }

  /** The pixels advance one row per step from `y0`. */
  predicate RowSteps(pix: seq<IPoint>, y0: int) {
    forall k :: 0 <= k < |pix| ==> pix[k].y == y0 + k
  }

  lemma ColumnStepsDistinct(pix: seq<IPoint>, x0: int)
    requires ColumnSteps(pix, x0)
    ensures Distinct(pix)
  {
    forall i, j | 0 <= i < j < |pix| ensures pix[i] != pix[j] {
      assert pix[i].x == x0 + i && pix[j].x == x0 + j;
    }
  }

  lemma RowStepsDistinct(pix: seq<IPoint>, y0: int)
    requires RowSteps(pix, y0)
    ensures Distinct(pix)
  {
    forall i, j | 0 <= i < j < |pix| ensures pix[i] != pix[j] {
      assert pix[i].y == y0 + i && pix[j].y == y0 + j;
    }
  }

  // ---------------------------------------------------------------------
  // The five cases
  // ---------------------------------------------------------------------

  /** `draw_line_vert`: `|dy| + 1` pixels up the column, from the lower endpoint. */
  lemma VertRun(l: ILine)
    requires l.p0.x == l.p1.x
    ensures GoodRun(VertPixels(l.p0, l.p1.y), l)
    ensures RowSteps(VertPixels(l.p0, l.p1.y), Min(l.p0.y, l.p1.y))
  {
    var pix := VertPixels(l.p0, l.p1.y);
    RowStepsDistinct(pix, Min(l.p0.y, l.p1.y));
  }

  /** `draw_line_hori`: `|dx| + 1` pixels along the row, from the left endpoint. */
  lemma HoriRun(l: ILine)
    requires l.p0.y == l.p1.y
    ensures GoodRun(HoriPixels(l.p0, l.p1.x), l)
    ensures ColumnSteps(HoriPixels(l.p0, l.p1.x), Min(l.p0.x, l.p1.x))
  {
    var pix := HoriPixels(l.p0, l.p1.x);
    ColumnStepsDistinct(pix, Min(l.p0.x, l.p1.x));
  }

  /**
    `draw_line_diag`: after the swap x increases; `|dx| + 1` pixels, each one
    column right of the previous and one row in the direction of `sign(dy)`.
  */
  lemma DiagRun(l: ILine)
    requires l.p0.x != l.p1.x && Abs(l.p1.x - l.p0.x) == Abs(l.p1.y - l.p0.y)
    ensures GoodRun(DiagPixels(l), l)
    ensures var m := if l.p0.x > l.p1.x then l.Swap() else l;
      ColumnSteps(DiagPixels(l), m.p0.x) &&
      forall k :: 0 <= k < |DiagPixels(l)| - 1 ==>
        DiagPixels(l)[k + 1].y - DiagPixels(l)[k].y == Sign(m.p1.y - m.p0.y)
  {
    if l.p0.x > l.p1.x {
      var m := l.Swap();
      DiagNormal(m);
      assert DiagPixels(l) == DiagPixels(m);
      GoodRunSwap(DiagPixels(m), m);
      assert m.Swap() == l;
    } else {
      DiagNormal(l);
    }
  }

  /** The diagonal case once x increases from `m.p0` to `m.p1`. */
  lemma DiagNormal(m: ILine)
    requires m.p0.x < m.p1.x && m.p1.x - m.p0.x == Abs(m.p1.y - m.p0.y)
    ensures GoodRun(DiagPixels(m), m) && ColumnSteps(DiagPixels(m), m.p0.x)
    ensures forall k :: 0 <= k < |DiagPixels(m)| - 1 ==>
      DiagPixels(m)[k + 1].y - DiagPixels(m)[k].y == Sign(m.p1.y - m.p0.y)
  {
    var pix := DiagPixels(m);
    var s := m.p1.y - m.p0.y;
    var n := m.p1.x - m.p0.x;
    assert |pix| == n + 1;
    forall k | 0 <= k < |pix|
      ensures pix[k] == IPt(m.p0.x + k, m.p0.y + Toward(s, k))
      ensures m.p0.x <= pix[k].x <= m.p1.x
      ensures Min(m.p0.y, m.p1.y) <= pix[k].y <= Max(m.p0.y, m.p1.y)
    {
    }
    forall k | 0 <= k < |pix| - 1
      ensures pix[k + 1].y - pix[k].y == Sign(s) && Adjacent(pix[k], pix[k + 1])
    {
      assert Toward(s, k + 1) - Toward(s, k) == Sign(s);
    }
    assert ColumnSteps(pix, m.p0.x);
    ColumnStepsDistinct(pix, m.p0.x);
    assert pix[0] == m.p0 && pix[n] == m.p1;
  }

  /** Exchanging the endpoints changes none of the promises about a run. */
  lemma GoodRunSwap(pix: seq<IPoint>, l: ILine)
    requires GoodRun(pix, l)
    ensures GoodRun(pix, l.Swap())
  {
    assert Abs(l.p0.x - l.p1.x) == Abs(l.p1.x - l.p0.x);
    assert Abs(l.p0.y - l.p1.y) == Abs(l.p1.y - l.p0.y);
  }

  /** The pixels of `draw_line_brs_x` on a line already normalised so x increases. */
  lemma BrsXPoints(m: ILine)
    requires Abs(m.p1.y - m.p0.y) < m.p1.x - m.p0.x
    ensures |BrsXPixels(m)| == m.p1.x - m.p0.x + 1
    ensures forall k :: 0 <= k < |BrsXPixels(m)| ==>
      var j := MinorSteps(k, Abs(m.p1.y - m.p0.y), m.p1.x - m.p0.x);
      BrsXPixels(m)[k] == IPt(m.p0.x + k, m.p0.y + Toward(m.p1.y - m.p0.y, j)) &&
      j <= Abs(m.p1.y - m.p0.y)
  {
    var major, minor := m.p1.x - m.p0.x, Abs(m.p1.y - m.p0.y);
    assert Abs(major) == major;
    forall k | 0 <= k <= major
      ensures BrsXPixels(m)[k] == IPt(m.p0.x + k, m.p0.y + Toward(m.p1.y - m.p0.y, MinorSteps(k, minor, major)))
      ensures MinorSteps(k, minor, major) <= minor
    {
      BrsXRunAt(m, major + 1, k);
      assert Abs(k) == k;
      MinorStepsBounded(k, minor, major);
    }
  }

  /** `draw_line_brs_x` on a line normalised so x increases. */
  lemma BrsXRunNormal(m: ILine)
    requires Abs(m.p1.y - m.p0.y) < m.p1.x - m.p0.x
    ensures GoodRun(BrsXPixels(m), m) && ColumnSteps(BrsXPixels(m), m.p0.x)
    ensures forall k :: 0 <= k < |BrsXPixels(m)| - 1 ==>
      BrsXPixels(m)[k + 1].y - BrsXPixels(m)[k].y in {0, Sign(m.p1.y - m.p0.y)}
  {
    var pix := BrsXPixels(m);
    var major, dy := m.p1.x - m.p0.x, m.p1.y - m.p0.y;
    var minor := Abs(dy);
    BrsXPoints(m);
    forall k | 0 <= k < |pix| - 1
      ensures pix[k + 1].y - pix[k].y in {0, Sign(dy)}
      ensures Adjacent(pix[k], pix[k + 1])
    {
      BresenhamStep(k, minor, major);
    }
    BresenhamReachesEnd(minor, major);
    assert pix[|pix| - 1] == m.p1;
    ColumnStepsDistinct(pix, m.p0.x);
  }

  /**
    `draw_line_brs_x`: after normalising so x increases, one pixel per column,
    `|dx| + 1` of them; consecutive pixels differ in row by 0 or by the sign of
    the normalised `dy`.
  */
  lemma BrsXLineRun(l: ILine)
    requires Abs(l.p1.y - l.p0.y) < Abs(l.p1.x - l.p0.x)
    ensures GoodRun(BrsXPixels(l), l)
    ensures var m := if l.p1.x - l.p0.x < 0 then l.Swap() else l;
      ColumnSteps(BrsXPixels(l), m.p0.x) &&
      forall k :: 0 <= k < |BrsXPixels(l)| - 1 ==>
        BrsXPixels(l)[k + 1].y - BrsXPixels(l)[k].y in {0, Sign(m.p1.y - m.p0.y)}
  {
    if l.p1.x - l.p0.x < 0 {
      var m := l.Swap();
      assert BrsXPixels(m) == BrsXPixels(l);
      BrsXRunNormal(m);
      GoodRunSwap(BrsXPixels(m), m);
      assert m.Swap() == l;
    } else {
      BrsXRunNormal(l);
    }
  }

  /** The pixels of `draw_line_brs_y` on a line already normalised so y increases. */
  lemma BrsYPoints(m: ILine)
    requires Abs(m.p1.x - m.p0.x) < m.p1.y - m.p0.y
    ensures |BrsYPixels(m)| == m.p1.y - m.p0.y + 1
    ensures forall k :: 0 <= k < |BrsYPixels(m)| ==>
      var j := MinorSteps(k, Abs(m.p1.x - m.p0.x), m.p1.y - m.p0.y);
      BrsYPixels(m)[k] == IPt(m.p0.x + Toward(m.p1.x - m.p0.x, j), m.p0.y + k) &&
      j <= Abs(m.p1.x - m.p0.x)
  {
    var major, minor := m.p1.y - m.p0.y, Abs(m.p1.x - m.p0.x);
    assert Abs(major) == major;
    forall k | 0 <= k <= major
      ensures BrsYPixels(m)[k] == IPt(m.p0.x + Toward(m.p1.x - m.p0.x, MinorSteps(k, minor, major)), m.p0.y + k)
      ensures MinorSteps(k, minor, major) <= minor
    {
      BrsYRunAt(m, major + 1, k);
      assert Abs(k) == k;
      MinorStepsBounded(k, minor, major);
    }
  }

  /** `draw_line_brs_y` on a line normalised so y increases. */
  lemma BrsYRunNormal(m: ILine)
    requires Abs(m.p1.x - m.p0.x) < m.p1.y - m.p0.y
    ensures GoodRun(BrsYPixels(m), m) && RowSteps(BrsYPixels(m), m.p0.y)
    ensures forall k :: 0 <= k < |BrsYPixels(m)| - 1 ==>
      BrsYPixels(m)[k + 1].x - BrsYPixels(m)[k].x in {0, Sign(m.p1.x - m.p0.x)}
  {
    var pix := BrsYPixels(m);
    var major, dx := m.p1.y - m.p0.y, m.p1.x - m.p0.x;
    var minor := Abs(dx);
    BrsYPoints(m);
    forall k | 0 <= k < |pix| - 1
      ensures pix[k + 1].x - pix[k].x in {0, Sign(dx)}
      ensures Adjacent(pix[k], pix[k + 1])
    {
      BresenhamStep(k, minor, major);
    }
    BresenhamReachesEnd(minor, major);
    assert pix[|pix| - 1] == m.p1;
    RowStepsDistinct(pix, m.p0.y);
  }

  /**
    `draw_line_brs_y`: `draw_line_brs_x` with the axes exchanged, one pixel per
    row from the lower endpoint.
  */
  lemma BrsYLineRun(l: ILine)
    requires Abs(l.p1.x - l.p0.x) < Abs(l.p1.y - l.p0.y)
    ensures GoodRun(BrsYPixels(l), l)
    ensures var m := if l.p1.y - l.p0.y < 0 then l.Swap() else l;
      RowSteps(BrsYPixels(l), m.p0.y) &&
      forall k :: 0 <= k < |BrsYPixels(l)| - 1 ==>
        BrsYPixels(l)[k + 1].x - BrsYPixels(l)[k].x in {0, Sign(m.p1.x - m.p0.x)}
  {
    if l.p1.y - l.p0.y < 0 {
      var m := l.Swap();
      assert BrsYPixels(m) == BrsYPixels(l);
      BrsYRunNormal(m);
      GoodRunSwap(BrsYPixels(m), m);
      assert m.Swap() == l;
    } else {
      BrsYRunNormal(l);
    }
  }

  /**
    Whatever case `draw_line` picks, it writes `max(|dx|, |dy|) + 1` pixels
    without repetition, from one endpoint to the other, each touching the next,
    all inside the bounding box of the endpoints.
  */
  lemma LineRun(l: ILine)
    ensures GoodRun(LinePixels(l), l)
  {
    var dx, dy := l.p1.x - l.p0.x, l.p1.y - l.p0.y;
    match Classify(dx, dy)
    case Vertical => VertRun(l);
    case Horizontal => HoriRun(l);
    case Diagonal => DiagRun(l);
    case BresenhamX => BrsXLineRun(l);
    case BresenhamY => BrsYLineRun(l);
  }

  // ---------------------------------------------------------------------
  // Bounds and cell counts
  // ---------------------------------------------------------------------

  /** A pixel inside the buffer has an index in `[0, width * height)`. */
  lemma IdxInBuffer(p: IPoint, w: int, h: int)
    requires InBuffer(p, w, h)
    ensures 0 <= Idx(p, w) < w * h
  {
    assert p.y * w <= (h - 1) * w;
  }

  /** Within one row-major buffer, distinct pixels have distinct indices. */
  lemma IdxDistinct(p: IPoint, q: IPoint, w: int)
    requires 0 <= p.x < w && 0 <= q.x < w && p != q
    ensures Idx(p, w) != Idx(q, w)
  {
    if p.y < q.y {
      RowGap(p, q, w);
    } else if q.y < p.y {
      RowGap(q, p, w);
    }
  }

  /** A pixel on a later row has a larger index. */
  lemma RowGap(p: IPoint, q: IPoint, w: int)
    requires 0 <= p.x < w && 0 <= q.x < w && p.y < q.y
    ensures Idx(p, w) < Idx(q, w)
  {
    var d := q.y - p.y;
    assert q.y * w == p.y * w + d * w;
    assert (d - 1) * w >= 0;
    assert d * w == (d - 1) * w + w;
  }

  /**
    When both endpoints lie inside a `w * h` buffer, so does every pixel of the
    line, and every index `draw_line` writes is in `[0, w * h)`: the precondition
    of `Raster.DrawLine` holds.
  */
  lemma LineAddressable(l: ILine, w: int, h: int)
    requires InBuffer(l.p0, w, h) && InBuffer(l.p1, w, h)
    ensures forall k :: 0 <= k < |LinePixels(l)| ==> InBuffer(LinePixels(l)[k], w, h)
    ensures Addressable(LinePixels(l), w, w * h)
  {
    var pix := LinePixels(l);
    LineRun(l);
    forall k | 0 <= k < |pix| ensures InBuffer(pix[k], w, h) && 0 <= Idx(pix[k], w) < w * h {
      IdxInBuffer(pix[k], w, h);
    }
  }

  /** Distinct pixels of one buffer row-range cover as many cells as there are pixels. */
  lemma {:induction false} CellsCount(pix: seq<IPoint>, w: int)
    requires Distinct(pix)
    requires forall k :: 0 <= k < |pix| ==> 0 <= pix[k].x < w
    ensures |Cells(pix, w)| == |pix|
  {
    if pix != [] {
      var n := |pix| - 1;
      var prefix := pix[..n];
      assert Distinct(prefix);
      CellsCount(prefix, w);
      CellsSnoc(pix, n, w);
      assert pix[..n + 1] == pix;
      forall m | 0 <= m < n ensures Idx(prefix[m], w) != Idx(pix[n], w) {
        assert prefix[m] == pix[m];
        IdxDistinct(pix[m], pix[n], w);
      }
    }
  }

  /**
    `draw_line` on a line whose endpoints lie in a `w * h` buffer changes
    exactly `max(|dx|, |dy|) + 1` cells to `c` and leaves every other cell alone.
  */
  lemma LineCells(before: seq<Color>, l: ILine, w: int, h: int, c: Color)
    requires InBuffer(l.p0, w, h) && InBuffer(l.p1, w, h) && |before| == w * h
    ensures Addressable(LinePixels(l), w, |before|)
    ensures |Cells(LinePixels(l), w)| == Max(Abs(l.p1.x - l.p0.x), Abs(l.p1.y - l.p0.y)) + 1
    ensures Painted(before, Paint(before, LinePixels(l), w, c), Cells(LinePixels(l), w), c)
  {
    LineRun(l);
    LineAddressable(l, w, h);
    CellsCount(LinePixels(l), w);
    PaintCells(before, LinePixels(l), w, c);
  }

  // ---------------------------------------------------------------------
  // Concrete lines
  // ---------------------------------------------------------------------

  /**
    The line (0,0)-(4,2): the error starts at 0 and the tie goes to the minor
    step, so rows advance at columns 1 and 3.
  */
  lemma BresenhamExample()
    ensures LinePixels(ISeg(IPt(0, 0), IPt(4, 2))) ==
      [IPt(0, 0), IPt(1, 1), IPt(2, 1), IPt(3, 2), IPt(4, 2)]
  {
    var l := ISeg(IPt(0, 0), IPt(4, 2));
    BresenhamExampleDispatch();
    BresenhamExampleColumns();
    BrsXRunOfFive(l, IPt(0, 0), IPt(1, 1), IPt(2, 1), IPt(3, 2), IPt(4, 2));
  }

  /** A run of five columns is the sequence of their pixels. */
  lemma BrsXRunOfFive(m: ILine, a: IPoint, b: IPoint, c: IPoint, d: IPoint, e: IPoint)
    requires BrsXAt(m, 0) == a && BrsXAt(m, 1) == b && BrsXAt(m, 2) == c
    requires BrsXAt(m, 3) == d && BrsXAt(m, 4) == e
    ensures BrsXRun(m, 5) == [a, b, c, d, e]
  {
    assert BrsXRun(m, 1) == [a];
    assert BrsXRun(m, 2) == [a, b];
    assert BrsXRun(m, 3) == [a, b, c];
    assert BrsXRun(m, 4) == [a, b, c, d];
  }

  /** The line (0,0)-(4,2) is driven along x, one pixel for each of its 5 columns. */
  lemma BresenhamExampleDispatch()
    ensures LinePixels(ISeg(IPt(0, 0), IPt(4, 2))) == BrsXRun(ISeg(IPt(0, 0), IPt(4, 2)), 5)
  {
    assert Classify(4, 2) == BresenhamX;
  }

  /** The pixel of each column of (0,0)-(4,2). */
  lemma BresenhamExampleColumns()
    ensures var l := ISeg(IPt(0, 0), IPt(4, 2));
      BrsXAt(l, 0) == IPt(0, 0) && BrsXAt(l, 1) == IPt(1, 1) && BrsXAt(l, 2) == IPt(2, 1)
      && BrsXAt(l, 3) == IPt(3, 2) && BrsXAt(l, 4) == IPt(4, 2)
  {
    assert Bresenham(1, 2, 4) == BrsState(-4, 1);
    assert Bresenham(2, 2, 4) == BrsState(0, 1);
    assert Bresenham(3, 2, 4) == BrsState(-4, 2);
    assert Bresenham(4, 2, 4) == BrsState(0, 2);
  }

  /** A vertical line given top-down is written bottom-up from its lower end. */
  lemma VerticalExample()
    ensures LinePixels(ISeg(IPt(2, 3), IPt(2, 1))) == [IPt(2, 1), IPt(2, 2), IPt(2, 3)]
  {
  }

  /** Equal endpoints count as horizontal and write the single pixel. */
  lemma PointExample()
    ensures LinePixels(ISeg(IPt(5, 7), IPt(5, 7))) == [IPt(5, 7)]
  {
  }
}
