/**
  The integer rasteriser of src/plane/mod.rs: `draw_line` with its four cases
  (vertical run, horizontal run, diagonal, Bresenham driven by x or by y) and
  `draw_rect`, all writing one colour into a row-major pixel buffer in place.

  Each drawing case is specified by a pure function giving the pixels it visits,
  in visiting order; a method's postcondition says that the buffer afterwards
  holds the colour exactly at the indices `x + y * width` of those pixels and is
  unchanged elsewhere. The lemmas then say what those pixel sequences are: how
  many, where they start and end, how consecutive pixels step, and that they
  stay inside the buffer when the endpoints do.
*/
module Raster {
  import opened Geometry

  newtype byte = x: int | 0 <= x < 256

  /** A 4-channel pixel value. */
  datatype Color = Color(r: byte, g: byte, b: byte, a: byte)

  /** The pixel buffer: `width * height` colours stored row by row. */
  class Buffer {
    const width: nat
    const height: nat
    const data: array<Color>

    ghost predicate Valid() {
      data.Length == width * height
    }

    constructor (w: nat, h: nat, fill: Color)
      ensures Valid() && width == w && height == h && fresh(data)
      ensures forall i :: 0 <= i < data.Length ==> data[i] == fill
    {
      width, height := w, h;
      data := new Color[w * h](_ => fill);
    }
  }

  /** The row-major index of a pixel, `x + y * width`. */
  function Idx(p: IPoint, w: int): int { p.x + p.y * w }

  /** The indices of the pixels in `pix`. */
  function Cells(pix: seq<IPoint>, w: int): set<int> {
    set k | 0 <= k < |pix| :: Idx(pix[k], w)
  }

  /** Every pixel of `pix` has an index inside a buffer of `len` cells. */
  predicate Addressable(pix: seq<IPoint>, w: int, len: int) {
    forall k :: 0 <= k < |pix| ==> 0 <= Idx(pix[k], w) < len
  }

  /** `after` is `before` with exactly the cells in `cells` set to `c`. */
  ghost predicate Painted(before: seq<Color>, after: seq<Color>, cells: set<int>, c: Color) {
    |after| == |before| &&
    forall i :: 0 <= i < |after| ==> after[i] == if i in cells then c else before[i]
  }

  predicate InBuffer(p: IPoint, w: int, h: int) {
    0 <= p.x < w && 0 <= p.y < h
  }

  // ---------------------------------------------------------------------
  // The pixels of each case
  // ---------------------------------------------------------------------

  /** `draw_line_vert`: column `a.x`, every row between `a.y` and `yb` inclusive, upwards. */
  function VertPixels(a: IPoint, yb: int): seq<IPoint> {
    var lo := Min(a.y, yb);
    seq(Abs(yb - a.y) + 1, k => IPt(a.x, lo + k))
  }

  /** `draw_line_hori`: row `a.y`, every column between `a.x` and `xb` inclusive, rightwards. */
  function HoriPixels(a: IPoint, xb: int): seq<IPoint> {
    var lo := Min(a.x, xb);
    seq(Abs(xb - a.x) + 1, k => IPt(lo + k, a.y))
  }

  /** `draw_line_diag`: left to right, one row in the direction of `sign(dy)` per column. */
  function DiagPixels(l: ILine): seq<IPoint> {
    var m := if l.p0.x > l.p1.x then l.Swap() else l;
    seq(m.p1.x - m.p0.x + 1, k => IPt(m.p0.x + k, m.p0.y + Toward(m.p1.y - m.p0.y, k)))
  }

  /**
    The Bresenham recurrence shared by `draw_line_brs_x` and `draw_line_brs_y`:
    the error term and the number of minor-axis steps taken before the pixel at
    major-axis offset `k`. The error starts at `2|minor| - major`; a negative
    error grows by `2|minor|`, otherwise the minor axis steps and the error
    grows by `2(|minor| - major)`.
  */
  function Bresenham(k: nat, minor: nat, major: nat): BrsState {
    if k == 0 then BrsState(2 * minor - major, 0)
    else Advance(Bresenham(k - 1, minor, major), minor, major)
  }

  /** The error term and the minor-axis steps taken so far. */
  datatype BrsState = BrsState(err: int, steps: nat)

  /** One iteration of the Bresenham loop. */
  function Advance(st: BrsState, minor: nat, major: nat): BrsState {
    if st.err < 0 then BrsState(st.err + 2 * minor, st.steps)
    else BrsState(st.err + 2 * (minor - major), st.steps + 1)
  }

  function MinorSteps(k: nat, minor: nat, major: nat): nat { Bresenham(k, minor, major).steps }

  /** `draw_line_brs_x`: normalised so x increases; one pixel per column. */
  function BrsXPixels(l: ILine): seq<IPoint> {
    var m := if l.p1.x - l.p0.x < 0 then l.Swap() else l;
    BrsXRun(m, m.p1.x - m.p0.x + 1)
  }

  /** The first `n` pixels of the normalised line `m`, one per column. */
  function BrsXRun(m: ILine, n: nat): (r: seq<IPoint>)
    ensures |r| == n
  {
    if n == 0 then [] else BrsXRun(m, n - 1) + [BrsXAt(m, n - 1)]
  }

  /** The pixel at column offset `k` of a line normalised so x increases. */
  function BrsXAt(m: ILine, k: int): IPoint {
    var dx, dy := m.p1.x - m.p0.x, m.p1.y - m.p0.y;
    IPt(m.p0.x + k, m.p0.y + Toward(dy, MinorSteps(Abs(k), Abs(dy), Abs(dx))))
  }

  /** `draw_line_brs_y`: normalised so y increases; one pixel per row. */
  function BrsYPixels(l: ILine): seq<IPoint> {
    var m := if l.p1.y - l.p0.y < 0 then l.Swap() else l;
    BrsYRun(m, m.p1.y - m.p0.y + 1)
  }

  /** The first `n` pixels of the normalised line `m`, one per row. */
  function BrsYRun(m: ILine, n: nat): (r: seq<IPoint>)
    ensures |r| == n
  {
    if n == 0 then [] else BrsYRun(m, n - 1) + [BrsYAt(m, n - 1)]
  }

  /** The pixel at row offset `k` of a line normalised so y increases. */
  function BrsYAt(m: ILine, k: int): IPoint {
    var dx, dy := m.p1.x - m.p0.x, m.p1.y - m.p0.y;
    IPt(m.p0.x + Toward(dx, MinorSteps(Abs(k), Abs(dx), Abs(dy))), m.p0.y + k)
  }

  datatype LineCase = Vertical | Horizontal | Diagonal | BresenhamX | BresenhamY

  /**
    The case `draw_line` picks for the delta `(dx, dy)`, characterised without
    the order of the source's `if` chain: horizontal includes the single point.
  */
  function Classify(dx: int, dy: int): (k: LineCase)
    ensures k == Vertical <==> dx == 0 && dy != 0
    ensures k == Horizontal <==> dy == 0
    ensures k == Diagonal <==> dx != 0 && dy != 0 && Abs(dx) == Abs(dy)
    ensures k == BresenhamX <==> dy != 0 && Abs(dx) > Abs(dy)
    ensures k == BresenhamY <==> dx != 0 && Abs(dx) < Abs(dy)
  {
    if dx == 0 && dy != 0 then Vertical
    else if dy == 0 then Horizontal
    else if Abs(dx) == Abs(dy) then Diagonal
    else if Abs(dx) > Abs(dy) then BresenhamX
    else BresenhamY
  }

  /** The pixels `draw_line` writes, in the order it writes them. */
  function LinePixels(l: ILine): seq<IPoint> {
    match Classify(l.p1.x - l.p0.x, l.p1.y - l.p0.y)
    case Vertical => VertPixels(l.p0, l.p1.y)
    case Horizontal => HoriPixels(l.p0, l.p1.x)
    case Diagonal => DiagPixels(l)
    case BresenhamX => BrsXPixels(l)
    case BresenhamY => BrsYPixels(l)
  }

  // ---------------------------------------------------------------------
  // The drawing methods
  // ---------------------------------------------------------------------

  /**
    The buffer after writing `c` at each pixel of `pix` in turn: the state every
    drawing loop builds, one write per iteration.
  */
  function Paint(before: seq<Color>, pix: seq<IPoint>, w: int, c: Color): (after: seq<Color>)
    requires Addressable(pix, w, |before|)
    ensures |after| == |before|
  {
    if pix == [] then before
    else Paint(before, pix[..|pix| - 1], w, c)[Idx(pix[|pix| - 1], w) := c]
  }

  /** One more pixel is one more write. */
  lemma PaintSnoc(before: seq<Color>, pix: seq<IPoint>, k: nat, w: int, c: Color)
    requires k < |pix| && Addressable(pix, w, |before|)
    ensures Paint(before, pix[..k + 1], w, c) == Paint(before, pix[..k], w, c)[Idx(pix[k], w) := c]
  {
    assert pix[..k + 1][..k] == pix[..k];
  }

  /**
    What painting does, independently of the order of the writes: the cells of
    the pixels hold `c`, every other cell keeps its colour.
  */
  lemma {:induction false} PaintCells(before: seq<Color>, pix: seq<IPoint>, w: int, c: Color)
    requires Addressable(pix, w, |before|)
    ensures Painted(before, Paint(before, pix, w, c), Cells(pix, w), c)
  {
    if pix != [] {
      var n := |pix| - 1;
      PaintCells(before, pix[..n], w, c);
      assert pix[..n + 1] == pix;
      CellsSnoc(pix, n, w);
    }
  }

  /** `draw_line` */
  method DrawLine(buf: Buffer, c: Color, l: ILine)
    requires buf.Valid()
    requires Addressable(LinePixels(l), buf.width, buf.data.Length)
    modifies buf.data
    ensures buf.data[..] == Paint(old(buf.data[..]), LinePixels(l), buf.width, c)
  {
    var dx, dy := l.p1.x - l.p0.x, l.p1.y - l.p0.y;
    if dx == 0 && dy != 0 {
      DrawLineVert(buf, c, l.p0, l.p1.y);
    } else if dy == 0 {
      DrawLineHori(buf, c, l.p0, l.p1.x);
    } else if Abs(dx) == Abs(dy) {
      DrawLineDiag(buf, c, l);
    } else {
      DrawLineBrs(buf, c, dx, dy, l);
    }
  }

  /** `draw_line_vert` */
  method DrawLineVert(buf: Buffer, c: Color, a: IPoint, yb: int)
    requires buf.Valid()
    requires Addressable(VertPixels(a, yb), buf.width, buf.data.Length)
    modifies buf.data
    ensures buf.data[..] == Paint(old(buf.data[..]), VertPixels(a, yb), buf.width, c)
  {
    ghost var pix := VertPixels(a, yb);
    var a, yb := a, yb;
    if a.y > yb {
      a, yb := a.(y := yb), a.y;
    }
    var w := buf.width;
    var index := a.x + a.y * w;
    var y := a.y;
    ghost var n := 0;
    while y <= yb
      invariant n == y - a.y && 0 <= n <= |pix| == yb - a.y + 1
      invariant forall k :: 0 <= k < |pix| ==> pix[k] == IPt(a.x, a.y + k)
      invariant index == Idx(IPt(a.x, y), w)
      invariant buf.data[..] == Paint(old(buf.data[..]), pix[..n], w, c)
    {
      Write(buf, index, c, pix, n, IPt(a.x, y), old(buf.data[..]));
      NextIdx(index, IPt(a.x, y), IPt(a.x, y + 1), 0, 1, w, w);
      index := index + w;
      y := y + 1;
      n := n + 1;
    }
    assert pix[..n] == pix;
  }

  /** `draw_line_hori` */
  method DrawLineHori(buf: Buffer, c: Color, a: IPoint, xb: int)
    requires buf.Valid()
    requires Addressable(HoriPixels(a, xb), buf.width, buf.data.Length)
    modifies buf.data
    ensures buf.data[..] == Paint(old(buf.data[..]), HoriPixels(a, xb), buf.width, c)
  {
    ghost var pix := HoriPixels(a, xb);
    var a, xb := a, xb;
    if a.x > xb {
      a, xb := a.(x := xb), a.x;
    }
    var w := buf.width;
    var index := a.x + a.y * w;
    var x := a.x;
    ghost var n := 0;
    while x <= xb
      invariant n == x - a.x && 0 <= n <= |pix| == xb - a.x + 1
      invariant forall k :: 0 <= k < |pix| ==> pix[k] == IPt(a.x + k, a.y)
      invariant index == Idx(IPt(x, a.y), w)
      invariant buf.data[..] == Paint(old(buf.data[..]), pix[..n], w, c)
    {
      Write(buf, index, c, pix, n, IPt(x, a.y), old(buf.data[..]));
      NextIdx(index, IPt(x, a.y), IPt(x + 1, a.y), 1, 0, w, 0);
      index := index + 1;
      x := x + 1;
      n := n + 1;
    }
    assert pix[..n] == pix;
  }

  /** `draw_line_diag` */
  method DrawLineDiag(buf: Buffer, c: Color, l: ILine)
    requires buf.Valid()
    requires Addressable(DiagPixels(l), buf.width, buf.data.Length)
    modifies buf.data
    ensures buf.data[..] == Paint(old(buf.data[..]), DiagPixels(l), buf.width, c)
  {
    ghost var pix := DiagPixels(l);
    var l := l;
    if l.p0.x > l.p1.x {
      l := l.Swap();
    }
    var w := buf.width;
    var index := l.p0.x + l.p0.y * w;
    var dy := Sign(l.p1.y - l.p0.y) * w;
    ghost var s := l.p1.y - l.p0.y;
    SignIsToward(s);
    ghost var y := l.p0.y;
    var x := l.p0.x;
    ghost var n := 0;
    while x <= l.p1.x
      invariant n == x - l.p0.x && 0 <= n <= |pix| == l.p1.x - l.p0.x + 1
      invariant forall k :: 0 <= k < |pix| ==> pix[k] == IPt(l.p0.x + k, l.p0.y + Toward(s, k))
      invariant y == l.p0.y + Toward(s, n)
      invariant index == Idx(IPt(x, y), w)
      invariant buf.data[..] == Paint(old(buf.data[..]), pix[..n], w, c)
    {
      assert pix[n] == IPt(x, y);
      Write(buf, index, c, pix, n, IPt(x, y), old(buf.data[..]));
      ghost var i0, p0 := index, IPt(x, y);
      TowardStep(s, n);
      index := index + 1 + dy;
      x := x + 1;
      y := y + Sign(s);
      n := n + 1;
      NextIdx(i0, p0, IPt(x, y), 1, Sign(s), w, dy);
    }
    assert pix[..n] == pix;
  }

  /** `draw_line_brs`: the driving axis is the one with the larger delta. */
  method DrawLineBrs(buf: Buffer, c: Color, dx: int, dy: int, l: ILine)
    requires buf.Valid()
    requires dx == l.p1.x - l.p0.x && dy == l.p1.y - l.p0.y && Abs(dx) != Abs(dy)
    requires Addressable(if Abs(dx) > Abs(dy) then BrsXPixels(l) else BrsYPixels(l), buf.width, buf.data.Length)
    modifies buf.data
    ensures buf.data[..] == Paint(old(buf.data[..]),
                                  if Abs(dx) > Abs(dy) then BrsXPixels(l) else BrsYPixels(l), buf.width, c)
  {
    if Abs(dx) > Abs(dy) {
      DrawLineBrsX(buf, c, dx, dy, l);
    } else {
      DrawLineBrsY(buf, c, dx, dy, l);
    }
  }

  /** `draw_line_brs_x` */
  method DrawLineBrsX(buf: Buffer, c: Color, dx: int, dy: int, l: ILine)
    requires buf.Valid()
    requires dx == l.p1.x - l.p0.x && dy == l.p1.y - l.p0.y && Abs(dy) < Abs(dx)
    requires Addressable(BrsXPixels(l), buf.width, buf.data.Length)
    modifies buf.data
    ensures buf.data[..] == Paint(old(buf.data[..]), BrsXPixels(l), buf.width, c)
  {
    ghost var pix := BrsXPixels(l);
    var l, dx, dy := l, dx, dy;
    if dx < 0 {
      l := l.Swap();
      dx := l.p1.x - l.p0.x;
      dy := l.p1.y - l.p0.y;
    }
    assert pix == BrsXPixels(l);
    var w := buf.width;
    var sign := Sign(dy);
    SignIsToward(dy);
    var err := 2 * Abs(dy) - dx;
    var i1 := 2 * Abs(dy);
    var i2 := 2 * (Abs(dy) - dx);
    var index := l.p0.x + l.p0.y * w;
    ghost var j: nat := 0;
    ghost var y := l.p0.y;
    var x := l.p0.x;
    ghost var n := 0;
    while x <= l.p1.x
      invariant n == x - l.p0.x && 0 <= n <= |pix| == dx + 1
      invariant BrsState(err, j) == Bresenham(n, Abs(dy), dx)
      invariant y == l.p0.y + Toward(dy, j)
      invariant index == Idx(IPt(x, y), w)
      invariant buf.data[..] == Paint(old(buf.data[..]), pix[..n], w, c)
    {
      BrsXPixelsAt(l, n, BrsState(err, j));
      Write(buf, index, c, pix, n, IPt(x, y), old(buf.data[..]));
      BrsXStep(l.p0.y, dy, dx, w, n, err, j, x, y, index);
      index := index + 1;
      if err < 0 {
        err := err + i1;
      } else {
        index := index + sign * w;
        err := err + i2;
        j := j + 1;
        y := y + sign;
      }
      x := x + 1;
      n := n + 1;
    }
    assert pix[..n] == pix;
  }

  /** `draw_line_brs_y` */
  method DrawLineBrsY(buf: Buffer, c: Color, dx: int, dy: int, l: ILine)
    requires buf.Valid()
    requires dx == l.p1.x - l.p0.x && dy == l.p1.y - l.p0.y && Abs(dx) < Abs(dy)
    requires Addressable(BrsYPixels(l), buf.width, buf.data.Length)
    modifies buf.data
    ensures buf.data[..] == Paint(old(buf.data[..]), BrsYPixels(l), buf.width, c)
  {
    ghost var pix := BrsYPixels(l);
    var l, dx, dy := l, dx, dy;
    if dy < 0 {
      l := l.Swap();
      dy := l.p1.y - l.p0.y;
      dx := l.p1.x - l.p0.x;
    }
    assert pix == BrsYPixels(l);
    var w := buf.width;
    var sign := Sign(dx);
    SignIsToward(dx);
    var err := 2 * Abs(dx) - dy;
    var i1 := 2 * Abs(dx);
    var i2 := 2 * (Abs(dx) - dy);
    var index := l.p0.x + l.p0.y * w;
    ghost var j: nat := 0;
    ghost var x := l.p0.x;
    var y := l.p0.y;
    ghost var n := 0;
    while y <= l.p1.y
      invariant n == y - l.p0.y && 0 <= n <= |pix| == dy + 1
      invariant BrsState(err, j) == Bresenham(n, Abs(dx), dy)
      invariant x == l.p0.x + Toward(dx, j)
      invariant index == Idx(IPt(x, y), w)
      invariant buf.data[..] == Paint(old(buf.data[..]), pix[..n], w, c)
    {
      BrsYPixelsAt(l, n, BrsState(err, j));
      Write(buf, index, c, pix, n, IPt(x, y), old(buf.data[..]));
      BrsYStep(l.p0.x, dx, dy, w, n, err, j, x, y, index);
      index := index + w;
      if err < 0 {
        err := err + i1;
      } else {
        index := index + sign;
        err := err + i2;
        j := j + 1;
        x := x + sign;
      }
      y := y + 1;
      n := n + 1;
    }
    assert pix[..n] == pix;
  }

  /**
    One iteration of the `draw_line_brs_x` loop on its error term, row and
    index: both branches keep the loop's relation to the Bresenham recurrence.
  */
  lemma BrsXStep(y0: int, dy: int, dx: nat, w: int, n: nat, err: int, j: nat, x: int, y: int, index: int)
    requires BrsState(err, j) == Bresenham(n, Abs(dy), dx)
    requires y == y0 + Toward(dy, j) && index == Idx(IPt(x, y), w)
    ensures err < 0 ==> BrsState(err + 2 * Abs(dy), j) == Bresenham(n + 1, Abs(dy), dx)
    ensures err < 0 ==> index + 1 == Idx(IPt(x + 1, y), w)
    ensures err >= 0 ==> BrsState(err + 2 * (Abs(dy) - dx), j + 1) == Bresenham(n + 1, Abs(dy), dx)
    ensures err >= 0 ==> y + Sign(dy) == y0 + Toward(dy, j + 1)
    ensures err >= 0 ==> index + 1 + Sign(dy) * w == Idx(IPt(x + 1, y + Sign(dy)), w)
  {
    BresenhamNext(n, Abs(dy), dx);
    IdxStep(IPt(x, y), 1, 0, w);
    IdxStep(IPt(x, y), 1, Sign(dy), w);
  }

  /** One iteration of the `draw_line_brs_y` loop, as `BrsXStep` with the axes exchanged. */
  lemma BrsYStep(x0: int, dx: int, dy: nat, w: int, n: nat, err: int, j: nat, x: int, y: int, index: int)
    requires BrsState(err, j) == Bresenham(n, Abs(dx), dy)
    requires x == x0 + Toward(dx, j) && index == Idx(IPt(x, y), w)
    ensures err < 0 ==> BrsState(err + 2 * Abs(dx), j) == Bresenham(n + 1, Abs(dx), dy)
    ensures err < 0 ==> index + w == Idx(IPt(x, y + 1), w)
    ensures err >= 0 ==> BrsState(err + 2 * (Abs(dx) - dy), j + 1) == Bresenham(n + 1, Abs(dx), dy)
    ensures err >= 0 ==> x + Sign(dx) == x0 + Toward(dx, j + 1)
    ensures err >= 0 ==> index + w + Sign(dx) == Idx(IPt(x + Sign(dx), y + 1), w)
  {
    BresenhamNext(n, Abs(dx), dy);
    IdxStep(IPt(x, y), 0, 1, w);
    IdxStep(IPt(x, y), Sign(dx), 1, w);
  }

  /**
    The single write `buf.data[index] = c` every drawing loop performs, at the
    index of its `k`-th pixel `p`: the buffer grows from the first `k` pixels
    painted to the first `k + 1`.
  */
  method Write(buf: Buffer, index: int, c: Color, ghost pix: seq<IPoint>, ghost k: nat, ghost p: IPoint,
               ghost before: seq<Color>)
    requires k < |pix| && pix[k] == p && index == Idx(p, buf.width)
    requires Addressable(pix, buf.width, |before|) && |before| == buf.data.Length
    requires buf.data[..] == Paint(before, pix[..k], buf.width, c)
    modifies buf.data
    ensures buf.data[..] == Paint(before, pix[..k + 1], buf.width, c)
  {
    PaintSnoc(before, pix, k, buf.width, c);
    buf.data[index] := c;
  }

  lemma BresenhamNext(k: nat, minor: nat, major: nat)
    ensures Bresenham(k + 1, minor, major) == Advance(Bresenham(k, minor, major), minor, major)
  {
  }

  /** The `k`-th pixel of a line normalised so x increases, given the Bresenham state at `k`. */
  lemma BrsXPixelsAt(l: ILine, k: int, st: BrsState)
    requires 0 <= k <= l.p1.x - l.p0.x
    requires st == Bresenham(k, Abs(l.p1.y - l.p0.y), l.p1.x - l.p0.x)
    ensures |BrsXPixels(l)| == l.p1.x - l.p0.x + 1
    ensures BrsXPixels(l)[k] == IPt(l.p0.x + k, l.p0.y + Toward(l.p1.y - l.p0.y, st.steps))
  {
    assert Abs(k) == k && Abs(l.p1.x - l.p0.x) == l.p1.x - l.p0.x;
    BrsXRunAt(l, l.p1.x - l.p0.x + 1, k);
  }

  /** The `k`-th pixel of a line normalised so y increases, given the Bresenham state at `k`. */
  lemma BrsYPixelsAt(l: ILine, k: int, st: BrsState)
    requires 0 <= k <= l.p1.y - l.p0.y
    requires st == Bresenham(k, Abs(l.p1.x - l.p0.x), l.p1.y - l.p0.y)
    ensures |BrsYPixels(l)| == l.p1.y - l.p0.y + 1
    ensures BrsYPixels(l)[k] == IPt(l.p0.x + Toward(l.p1.x - l.p0.x, st.steps), l.p0.y + k)
  {
    assert Abs(k) == k && Abs(l.p1.y - l.p0.y) == l.p1.y - l.p0.y;
    BrsYRunAt(l, l.p1.y - l.p0.y + 1, k);
  }

  lemma {:induction false} BrsXRunAt(m: ILine, n: nat, k: nat)
    requires k < n
    ensures BrsXRun(m, n)[k] == BrsXAt(m, k)
  {
    if k < n - 1 {
      BrsXRunAt(m, n - 1, k);
    }
  }

  lemma {:induction false} BrsYRunAt(m: ILine, n: nat, k: nat)
    requires k < n
    ensures BrsYRun(m, n)[k] == BrsYAt(m, k)
  {
    if k < n - 1 {
      BrsYRunAt(m, n - 1, k);
    }
  }

  /** Moving a pixel by `(dx, dy)` moves its index by `dx + dy * w`. */
  lemma IdxStep(p: IPoint, dx: int, dy: int, w: int)
    ensures Idx(IPt(p.x + dx, p.y + dy), w) == Idx(p, w) + dx + dy * w
  {
    assert (p.y + dy) * w == p.y * w + dy * w;
  }

  /** The index of pixel `p` moved by `(dx, dy)` to `q`, with `dyw` the row offset `dy * w`. */
  lemma NextIdx(index: int, p: IPoint, q: IPoint, dx: int, dy: int, w: int, dyw: int)
    requires index == Idx(p, w) && q == IPt(p.x + dx, p.y + dy) && dyw == dy * w
    ensures index + dx + dyw == Idx(q, w)
  {
    IdxStep(p, dx, dy, w);
  }

  lemma CellsSnoc(pix: seq<IPoint>, k: nat, w: int)
    requires k < |pix|
    ensures Cells(pix[..k + 1], w) == Cells(pix[..k], w) + {Idx(pix[k], w)}
  {
    var prefix := pix[..k + 1];
    assert prefix[k] == pix[k];
    forall i | i in Cells(prefix, w) ensures i in Cells(pix[..k], w) + {Idx(pix[k], w)} {
      var m :| 0 <= m < |prefix| && i == Idx(prefix[m], w);
      if m < k {
        assert pix[..k][m] == prefix[m];
      }
    }
    forall i | i in Cells(pix[..k], w) ensures i in Cells(prefix, w) {
      var m :| 0 <= m < k && i == Idx(pix[..k][m], w);
      assert prefix[m] == pix[..k][m];
    }
  }

  /** `draw_rect` */
  method DrawRect(buf: Buffer, c: Color, l: ILine)
    requires buf.Valid()
    requires l.p0.y <= l.p1.y ==> l.p0.x <= l.p1.x
    requires RowsAddressable(l, buf.width, buf.data.Length)
    modifies buf.data
    ensures Painted(old(buf.data[..]), buf.data[..], RectCells(l, buf.width), c)
    ensures l.p0.y > l.p1.y ==> buf.data[..] == old(buf.data[..])
  {
    var w := buf.width;
    var index := l.p0.x + l.p0.y * w;
    var dx := l.p1.x - l.p0.x;
    var dy := Sign(l.p1.y - l.p0.y) * w;
    var y := l.p0.y;
    while y <= l.p1.y
      invariant l.p0.y <= y <= Max(l.p0.y, l.p1.y + 1)
      invariant y <= l.p1.y ==> index == Idx(IPt(l.p0.x, y), w)
      invariant Painted(old(buf.data[..]), buf.data[..], RowCells(l, w, y), c)
    {
      ghost var before := buf.data[..];
      forall i | index <= i <= index + dx {
        buf.data[i] := c;
      }
      RowSpan(l, w, y);
      RowCellsSnoc(l, w, y);
      PaintRow(before, buf.data[..], RowCells(l, w, y), Row(l, w, y), c, old(buf.data[..]));
      if y < l.p1.y {
        IdxStep(IPt(l.p0.x, y), 0, 1, w);
      }
      index := index + dy;
      y := y + 1;
    }
    if l.p0.y <= l.p1.y {
      assert RowCells(l, w, y) == RectCells(l, w);
    } else {
      assert RowCells(l, w, y) == {};
      assert RectCells(l, w) == {};
      PaintedNothing(old(buf.data[..]), buf.data[..], c);
    }
  }

  /**
    Every row `copy_from_slice` writes lies inside the buffer: a negative start
    index or an end past the buffer makes the slice access fail.
  */
  predicate RowsAddressable(l: ILine, w: int, len: int) {
    forall y :: l.p0.y <= y <= l.p1.y ==> 0 <= Idx(IPt(l.p0.x, y), w) && Idx(IPt(l.p1.x, y), w) < len
  }

  /** The cells of the inclusive rectangle spanned by `l`. */
  function RectCells(l: ILine, w: int): set<int> {
    set x, y | l.p0.x <= x <= l.p1.x && l.p0.y <= y <= l.p1.y :: Idx(IPt(x, y), w)
  }

  /** The cells of the rectangle's rows below `yEnd`. */
  function RowCells(l: ILine, w: int, yEnd: int): set<int> {
    set x, y | l.p0.x <= x <= l.p1.x && l.p0.y <= y < yEnd :: Idx(IPt(x, y), w)
  }

  /** The cells of row `y` of the rectangle. */
  function Row(l: ILine, w: int, y: int): set<int> {
    set x | l.p0.x <= x <= l.p1.x :: Idx(IPt(x, y), w)
  }

  /** A row of the rectangle is one contiguous run of indices. */
  lemma RowSpan(l: ILine, w: int, y: int)
    ensures forall i :: i in Row(l, w, y) <==> Idx(IPt(l.p0.x, y), w) <= i <= Idx(IPt(l.p1.x, y), w)
  {
    forall i | Idx(IPt(l.p0.x, y), w) <= i <= Idx(IPt(l.p1.x, y), w)
      ensures i in Row(l, w, y)
    {
      var x := i - y * w;
      assert i == Idx(IPt(x, y), w);
    }
  }

  lemma RowCellsSnoc(l: ILine, w: int, y: int)
    requires l.p0.y <= y
    ensures RowCells(l, w, y + 1) == RowCells(l, w, y) + Row(l, w, y)
  {
  }

  lemma PaintRow(mid: seq<Color>, after: seq<Color>, cells: set<int>, row: set<int>, c: Color, before: seq<Color>)
    requires Painted(before, mid, cells, c) && |after| == |mid|
    requires forall i :: 0 <= i < |after| ==> after[i] == if i in row then c else mid[i]
    ensures Painted(before, after, cells + row, c)
  {
  }

  lemma PaintedNothing(before: seq<Color>, after: seq<Color>, c: Color)
    requires Painted(before, after, {}, c)
    ensures after == before
  {
  }

  // ---------------------------------------------------------------------
  // Properties of the Bresenham recurrence
  // ---------------------------------------------------------------------

  /**
    The error term is an affine function of the pixel offset and of the number
    of minor steps taken, and stays in `[2(minor - major), 2 minor)`.
  */
  lemma {:induction false} BresenhamInvariant(k: nat, minor: nat, major: nat)
    requires minor <= major && 0 < major
    ensures var st := Bresenham(k, minor, major);
      st.err == ErrorAt(k, st.steps, minor, major) &&
      2 * (minor - major) <= st.err < 2 * minor && st.steps <= k
  {
    if k > 0 {
      BresenhamInvariant(k - 1, minor, major);
      AdvanceKeepsError(k - 1, Bresenham(k - 1, minor, major), minor, major);
    }
  }

  /** The closed form of the error term: `2 minor (k + 1) - major - 2 major j`. */
  function ErrorAt(k: int, j: int, minor: int, major: int): int {
    2 * minor * (k + 1) - major - 2 * major * j
  }

  lemma AdvanceKeepsError(k: int, st: BrsState, minor: nat, major: nat)
    requires st.err == ErrorAt(k, st.steps, minor, major)
    ensures Advance(st, minor, major).err == ErrorAt(k + 1, Advance(st, minor, major).steps, minor, major)
  {
    var j := st.steps;
    assert 2 * minor * (k + 2) == 2 * minor * (k + 1) + 2 * minor;
    assert 2 * major * (j + 1) == 2 * major * j + 2 * major;
  }

  /** The minor coordinate advances by 0 or 1 from one pixel to the next. */
  lemma BresenhamStep(k: nat, minor: nat, major: nat)
    ensures MinorSteps(k + 1, minor, major) - MinorSteps(k, minor, major) in {0, 1}
  {
  }

  lemma {:induction false} MinorStepsMonotone(k1: nat, k2: nat, minor: nat, major: nat)
    requires k1 <= k2
    ensures MinorSteps(k1, minor, major) <= MinorSteps(k2, minor, major)
  {
    if k1 < k2 {
      MinorStepsMonotone(k1, k2 - 1, minor, major);
    }
  }

  /**
    After `major` steps the minor coordinate has advanced by exactly `minor`:
    the last pixel written is the far endpoint.
  */
  lemma BresenhamReachesEnd(minor: nat, major: nat)
    requires minor <= major && 0 < major
    ensures MinorSteps(major, minor, major) == minor
  {
    BresenhamInvariant(major, minor, major);
    var st := Bresenham(major, minor, major);
    var err, j := st.err, st.steps;
    var q := 2 * minor - 1 - 2 * j;
    ErrorAtEnd(err, minor, major, j);
    FactorBetween(major, q);
  }

  /** At the last pixel the error is `major * (2 minor - 1 - 2 j) + 2 minor`. */
  lemma ErrorAtEnd(err: int, minor: int, major: int, j: int)
    requires err == ErrorAt(major, j, minor, major)
    ensures err == major * (2 * minor - 1 - 2 * j) + 2 * minor
  {
  }

  /** A multiple `a * q` of a positive `a` in `[-2a, 0)` has `q` in {-1, -2}. */
  lemma FactorBetween(a: int, q: int)
    requires 0 < a && -2 * a <= a * q < 0
    ensures q == -1 || q == -2
  {
  }

  /** Within the line, the minor offset stays between 0 and `minor`. */
  lemma MinorStepsBounded(k: nat, minor: nat, major: nat)
    requires minor <= major && 0 < major && k <= major
    ensures MinorSteps(k, minor, major) <= minor
  {
    MinorStepsMonotone(k, major, minor, major);
    BresenhamReachesEnd(minor, major);
  }
}
