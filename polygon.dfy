/**
  The polygon code of src/plane/polygon.rs: the cyclic edge iterator, the
  four-pass Sutherland-Hodgman clipper, the extreme y coordinates, and the
  intersections of a line with the edges of a polygon or a rectangle.

  A panic of `clip_side` (the `unwrap` on an intersection that was not found)
  is the outcome `Fault`; an emptied pass is `Emptied`, Rust's `None`.
*/
module Polygons {
  import opened Geometry
  import opened Plane

  /** `Polygon<f64>`: the vertices in order; the last one connects back to the first. */
  datatype Polygon = Polygon(points: seq<Point>)

  // ---------------------------------------------------------------------
  // Edges
  // ---------------------------------------------------------------------

  /** Edge `i` of the polygon, `[p_i, p_{(i + 1) % n}]`. */
  function Edge(poly: Polygon, i: int): Line
    requires 0 <= i < |poly.points|
  {
    Seg(poly.points[i], poly.points[(i + 1) % |poly.points|])
  }

  /** The edges `Polygon::edges` yields, in order. */
  function Edges(poly: Polygon): seq<Line> {
    seq(|poly.points|, i requires 0 <= i < |poly.points| => Edge(poly, i))
  }

  /** `EdgeIterator`: the polygon it walks and the index `a` of the next edge. */
  class EdgeIterator {
    const polygon: Polygon
    var a: nat

    /** `EdgeIterator::new`, reached through `Polygon::edges`. */
    constructor (polygon: Polygon)
      ensures this.polygon == polygon && a == 0
    {
      this.polygon := polygon;
      a := 0;
    }

    /** `Iterator::next`: the edge starting at vertex `a`, or `None` once all are out. */
    method Next() returns (e: Option<Line>)
      modifies this
      ensures old(a) < |polygon.points| ==> e == Some(Edge(polygon, old(a))) && a == old(a) + 1
      ensures old(a) >= |polygon.points| ==> e == None && a == old(a)
    {
      if a >= |polygon.points| {
        return None;
      }
      e := Some(Seg(polygon.points[a], polygon.points[(a + 1) % |polygon.points|]));
      a := a + 1;
    }
  }

  /**
    Running an edge iterator to its end yields exactly `Edges(poly)`: one edge
    per vertex, in vertex order.
  */
  method DrainEdges(poly: Polygon) returns (es: seq<Line>)
    ensures es == Edges(poly)
  {
    var it := new EdgeIterator(poly);
    es := [];
    while true
      invariant it.polygon == poly && it.a <= |poly.points|
      invariant es == Edges(poly)[..it.a]
      decreases |poly.points| - it.a
    {
      var e := it.Next();
      if e.None? {
        break;
      }
      es := es + [e.value];
    }
  }

  /**
    The edges form a closed cycle: each edge ends where the next one starts, and
    the last edge ends at the first vertex.
  */
  lemma EdgesCycle(poly: Polygon)
    requires |poly.points| > 0
    ensures |Edges(poly)| == |poly.points|
    ensures forall i :: 0 <= i < |poly.points| ==> Edges(poly)[i].p0 == poly.points[i]
    ensures forall i :: 0 <= i < |poly.points| - 1 ==> Edges(poly)[i].p1 == Edges(poly)[i + 1].p0
    ensures Edges(poly)[|poly.points| - 1].p1 == poly.points[0]
  {
    var n := |poly.points|;
    forall i | 0 <= i < n - 1 ensures Edges(poly)[i].p1 == Edges(poly)[i + 1].p0 {
      assert (i + 1) % n == i + 1;
    }
    assert (n - 1 + 1) % n == 0;
  }

  // ---------------------------------------------------------------------
  // `square`
  // ---------------------------------------------------------------------

  /** `Polygon::square`: the square of half-side `r` centred on `(ox, oy)`. */
  function Square(r: real, ox: real, oy: real): Polygon {
    var off := Pt(ox, oy);
    Polygon([Add(Pt(-r, -r), off), Add(Pt(r, -r), off), Add(Pt(r, r), off), Add(Pt(-r, r), off)])
  }

  /** The square's corners are `rect_to_vertices` of its lower and upper corners. */
  lemma SquareCorners(r: real, ox: real, oy: real)
    ensures Square(r, ox, oy).points == RectToVertices(Seg(Pt(ox - r, oy - r), Pt(ox + r, oy + r)))
  {
  }

  // ---------------------------------------------------------------------
  // One clipping pass
  // ---------------------------------------------------------------------

  /** `Side`: the half-plane of the bound a pass keeps. */
  datatype Side = Left | Top | Right | Bottom

  /** The comparison each pass applies to a vertex: the vertex is kept. */
  predicate Inside(side: Side, bound: Line, p: Point) {
    match side
    case Left => p.x >= bound.p0.x
    case Right => p.x <= bound.p1.x
    case Bottom => p.y >= bound.p0.y
    case Top => p.y <= bound.p1.y
  }

  /** The boundary line each pass intersects an edge with. */
  function Boundary(side: Side, bound: Line): Line {
    match side
    case Left => Seg(bound.p0, Pt(bound.p0.x, bound.p1.y))
    case Right => Seg(Pt(bound.p1.x, bound.p0.y), bound.p1)
    case Bottom => Seg(bound.p0, Pt(bound.p1.x, bound.p0.y))
    case Top => Seg(Pt(bound.p0.x, bound.p1.y), bound.p1)
  }

  /** The point lies on the boundary of the pass. */
  predicate OnBoundary(side: Side, bound: Line, p: Point) {
    match side
    case Left => p.x == bound.p0.x
    case Right => p.x == bound.p1.x
    case Bottom => p.y == bound.p0.y
    case Top => p.y == bound.p1.y
  }

  /**
    `inf_line_intersection(&[a, b], boundary).unwrap()`: `None` where the
    `unwrap` panics. The `B` arm, whose `panic!` reports a parallel clip, is
    never taken: `inf_line_intersection` only returns points.
  */
  function Crossing(side: Side, bound: Line, a: Point, b: Point): Option<Point> {
    match InfLineIntersection(Seg(a, b), Boundary(side, bound))
    case None => None
    case Some(e) => Some(e.left)
  }

  /**
    What one iteration of `clip_side` pushes for the edge `a -> b`; `None` when
    its `unwrap` panics.
  */
  function Emit(side: Side, bound: Line, a: Point, b: Point): Option<seq<Point>> {
    if Inside(side, bound, b) then
      if !Inside(side, bound, a) then
        match Crossing(side, bound, a, b)
        case None => None
        case Some(p) => Some([p, b])
      else Some([b])
    else if Inside(side, bound, a) then
      match Crossing(side, bound, a, b)
      case None => None
      case Some(p) => Some([p])
    else Some([])
  }

  /** The vertex before vertex `k`, cyclically: the loop starts with `a` = the last vertex. */
  function Prev(pts: seq<Point>, k: int): Point
    requires 0 <= k < |pts|
  {
    if k == 0 then pts[|pts| - 1] else pts[k - 1]
  }

  /**
    What `clip_side` has pushed after its first `n` iterations, or `None` once
    an `unwrap` has panicked.
  */
  function Pass(side: Side, bound: Line, pts: seq<Point>, n: nat): Option<seq<Point>>
    requires n <= |pts|
  {
    if n == 0 then Some([])
    else
      match Pass(side, bound, pts, n - 1)
      case None => None
      case Some(res) =>
        match Emit(side, bound, Prev(pts, n - 1), pts[n - 1])
        case None => None
        case Some(out) => Some(res + out)
  }

  /** The result of a pass, of `clip` and of its `?`: `Some`, `None`, or a panic. */
  datatype Outcome = Kept(poly: Polygon) | Emptied | Fault

  /** The outcome of `clip_side` on a polygon. */
  function SideResult(side: Side, bound: Line, poly: Polygon): (r: Outcome)
    requires |poly.points| > 0
    ensures r.Kept? ==> |r.poly.points| > 0
  {
    match Pass(side, bound, poly.points, |poly.points|)
    case None => Fault
    case Some(res) => if res == [] then Emptied else Kept(Polygon(res))
  }

  /** `clip_side`: one Sutherland-Hodgman pass against one side of `bound`. */
  method ClipSide(side: Side, bound: Line, poly: Polygon) returns (r: Outcome)
    requires |poly.points| > 0
    ensures r == SideResult(side, bound, poly)
    ensures r.Kept? ==> |r.poly.points| > 0
  {
    var pts := poly.points;
    var res: seq<Point> := [];
    var a := pts[|pts| - 1];
    var i := 0;
    while i < |pts|
      invariant 0 <= i <= |pts|
      invariant Pass(side, bound, pts, i) == Some(res)
      invariant i < |pts| ==> a == Prev(pts, i)
    {
      var b := pts[i];
      ghost var res0 := res;
      if Inside(side, bound, b) {
        if !Inside(side, bound, a) {
          var x := Crossing(side, bound, a, b);
          if x.None? {
            PassFaultStays(side, bound, pts, i + 1, |pts|);
            return Fault;
          }
          res := res + [x.value];
        }
        res := res + [b];
      } else if Inside(side, bound, a) {
        var x := Crossing(side, bound, a, b);
        if x.None? {
          PassFaultStays(side, bound, pts, i + 1, |pts|);
          return Fault;
        }
        res := res + [x.value];
      }
      assert res == res0 + Emit(side, bound, a, b).value;
      a := b;
      i := i + 1;
    }
    if |res| == 0 {
      return Emptied;
    }
    r := Kept(Polygon(res));
  }

  /** Once an `unwrap` has panicked nothing later matters. */
  lemma {:induction false} PassFaultStays(side: Side, bound: Line, pts: seq<Point>, i: nat, n: nat)
    requires i <= n <= |pts| && Pass(side, bound, pts, i).None?
    ensures Pass(side, bound, pts, n).None?
  {
    if i < n {
      PassFaultStays(side, bound, pts, i, n - 1);
    }
  }

  // ---------------------------------------------------------------------
  // `clip`
  // ---------------------------------------------------------------------

  /** The next pass after `?`: an emptied or panicked pass ends the chain. */
  function Then(o: Outcome, side: Side, bound: Line): (r: Outcome)
    requires o.Kept? ==> |o.poly.points| > 0
    ensures r.Kept? ==> |r.poly.points| > 0
  {
    match o
    case Kept(p) => SideResult(side, bound, p)
    case _ => o
  }

  /** `Polygon::clip`: the passes Left, Top, Right and Bottom, in that order. */
  function Clipped(poly: Polygon, bound: Line): Outcome
    requires |poly.points| > 0
  {
    Then(Then(Then(SideResult(Left, bound, poly), Top, bound), Right, bound), Bottom, bound)
  }

  /** `Polygon::clip` */
  method Clip(poly: Polygon, bound: Line) returns (r: Outcome)
    requires |poly.points| > 0
    ensures r == Clipped(poly, bound)
  {
    r := ClipSide(Left, bound, poly);
    if !r.Kept? {
      return;
    }
    r := ClipSide(Top, bound, r.poly);
    if !r.Kept? {
      return;
    }
    r := ClipSide(Right, bound, r.poly);
    if !r.Kept? {
      return;
    }
    r := ClipSide(Bottom, bound, r.poly);
  }

  // ---------------------------------------------------------------------
  // What a pass computes
  // ---------------------------------------------------------------------

  /**
    A point `inf_line_intersection` finds for a pass lies on that pass's
    boundary and on the edge.
  */
  lemma CrossingOnBoundary(side: Side, bound: Line, a: Point, b: Point)
    requires Crossing(side, bound, a, b).Some?
    ensures OnBoundary(side, bound, Crossing(side, bound, a, b).value)
    ensures OnSegment(Crossing(side, bound, a, b).value, Seg(a, b))
  {
    var e := Boundary(side, bound);
    var p := Crossing(side, bound, a, b).value;
    InfLineIntersectionSound(Seg(a, b), e);
    var d := Dir(e);
    var q := Sub(p, e.p0);
    assert Cross(q, d) == 0.0;
    if side == Left || side == Right {
      assert d.x == 0.0 && q.y * d.x == 0.0;
      assert d.y != 0.0;
      CancelFactor(q.x, 0.0, d.y);
    } else {
      assert d.y == 0.0 && q.x * d.y == 0.0;
      assert d.x != 0.0;
      CancelFactor(q.y, 0.0, d.x);
    }
  }

  /**
    An edge that crosses the boundary (one end kept, the other not) and is not
    nearly parallel to it always has its crossing found: the `unwrap` can only
    panic on an edge whose cross product with the boundary is within
    `f64::EPSILON` of zero.
  */
  lemma CrossingFound(side: Side, bound: Line, a: Point, b: Point)
    requires Inside(side, bound, a) != Inside(side, bound, b)
    requires !NearZero(Cross(Dir(Seg(a, b)), Dir(Boundary(side, bound))))
    ensures Crossing(side, bound, a, b).Some?
  {
    var e := Boundary(side, bound);
    var t;
    if side == Left || side == Right {
      t := ReachX(a, b, e.p0.x);
    } else {
      t := ReachY(a, b, e.p0.y);
    }
    var p := Lerp(a, b, t);
    assert Sub(p, e.p0).x * Dir(e).y - Sub(p, e.p0).y * Dir(e).x == 0.0;
    InfLineIntersectionComplete(Seg(a, b), e, t);
  }

  /** A value `c` between `a.x` and `b.x` is reached at some parameter in [0, 1]. */
  lemma ReachX(a: Point, b: Point, c: real) returns (t: real)
    requires (a.x < c <= b.x) || (b.x < c <= a.x) || (a.x <= c < b.x) || (b.x <= c < a.x)
    ensures 0.0 <= t <= 1.0 && Lerp(a, b, t).x == c
  {
    t := (c - a.x) / (b.x - a.x);
    Fraction(c - a.x, b.x - a.x);
  }

  /** A value `c` between `a.y` and `b.y` is reached at some parameter in [0, 1]. */
  lemma ReachY(a: Point, b: Point, c: real) returns (t: real)
    requires (a.y < c <= b.y) || (b.y < c <= a.y) || (a.y <= c < b.y) || (b.y <= c < a.y)
    ensures 0.0 <= t <= 1.0 && Lerp(a, b, t).y == c
  {
    t := (c - a.y) / (b.y - a.y);
    Fraction(c - a.y, b.y - a.y);
  }

  /** `num / den` for `num` between 0 and `den` (either sign) lies in [0, 1]. */
  lemma Fraction(num: real, den: real)
    requires den != 0.0
    requires (0.0 <= num <= den) || (den <= num <= 0.0)
    ensures 0.0 <= num / den <= 1.0 && (num / den) * den == num
  {
    if den < 0.0 {
      assert num / den == (-num) / (-den);
    }
  }

  /**
    What one iteration pushes, by the position of the edge's ends: the kept
    end `b` last, one boundary point first when the edge crosses the boundary,
    and a panic exactly when a crossing edge is nearly parallel to it.
  */
  lemma EmitShape(side: Side, bound: Line, a: Point, b: Point)
    ensures Emit(side, bound, a, b).Some? ==>
      var out := Emit(side, bound, a, b).value;
      |out| == (if Inside(side, bound, b) then 1 else 0) +
               (if Inside(side, bound, a) != Inside(side, bound, b) then 1 else 0) &&
      (Inside(side, bound, b) ==> out[|out| - 1] == b) &&
      (Inside(side, bound, a) != Inside(side, bound, b) ==> OnBoundary(side, bound, out[0]))
    ensures Emit(side, bound, a, b).None? <==>
      Inside(side, bound, a) != Inside(side, bound, b) &&
      NearZero(Cross(Dir(Seg(a, b)), Dir(Boundary(side, bound))))
  {
    if Inside(side, bound, a) != Inside(side, bound, b) {
      if Crossing(side, bound, a, b).Some? {
        CrossingOnBoundary(side, bound, a, b);
      }
      if !NearZero(Cross(Dir(Seg(a, b)), Dir(Boundary(side, bound)))) {
        CrossingFound(side, bound, a, b);
      }
    }
  }

  /** Every point a pass emits is inside its half-plane. */
  lemma EmitInside(side: Side, bound: Line, a: Point, b: Point)
    requires Emit(side, bound, a, b).Some?
    ensures forall q :: q in Emit(side, bound, a, b).value ==> Inside(side, bound, q)
  {
    if Crossing(side, bound, a, b).Some? {
      CrossingOnBoundary(side, bound, a, b);
    }
  }

  /**
    A pass keeps every other half-plane that both ends of the edge lie in: the
    crossing point lies between them.
  */
  lemma EmitKeeps(side: Side, other: Side, bound: Line, a: Point, b: Point)
    requires Emit(side, bound, a, b).Some?
    requires Inside(other, bound, a) && Inside(other, bound, b)
    ensures forall q :: q in Emit(side, bound, a, b).value ==> Inside(other, bound, q)
  {
    if Crossing(side, bound, a, b).Some? {
      var p := Crossing(side, bound, a, b).value;
      CrossingOnBoundary(side, bound, a, b);
      var t :| 0.0 <= t <= 1.0 && p == Lerp(a, b, t);
      LerpBetween(a, b, t);
    }
  }

  /** All points of `pts` are inside the half-plane of `side`. */
  predicate AllInside(side: Side, bound: Line, pts: seq<Point>) {
    forall k :: 0 <= k < |pts| ==> Inside(side, bound, pts[k])
  }

  /** After a pass, every vertex is inside the pass's half-plane. */
  lemma {:induction false} PassInside(side: Side, bound: Line, pts: seq<Point>, n: nat)
    requires n <= |pts| && Pass(side, bound, pts, n).Some?
    ensures AllInside(side, bound, Pass(side, bound, pts, n).value)
  {
    if n > 0 {
      PassInside(side, bound, pts, n - 1);
      EmitInside(side, bound, Prev(pts, n - 1), pts[n - 1]);
    }
  }

  /** A pass keeps a half-plane all its input vertices lie in. */
  lemma {:induction false} PassKeeps(side: Side, other: Side, bound: Line, pts: seq<Point>, n: nat)
    requires n <= |pts| && Pass(side, bound, pts, n).Some?
    requires AllInside(other, bound, pts)
    ensures AllInside(other, bound, Pass(side, bound, pts, n).value)
  {
    if n > 0 {
      PassKeeps(side, other, bound, pts, n - 1);
      EmitKeeps(side, other, bound, Prev(pts, n - 1), pts[n - 1]);
    }
  }

  /** A pass emits at most two vertices per input vertex. */
  lemma {:induction false} PassSize(side: Side, bound: Line, pts: seq<Point>, n: nat)
    requires n <= |pts| && Pass(side, bound, pts, n).Some?
    ensures |Pass(side, bound, pts, n).value| <= 2 * n
  {
    if n > 0 {
      PassSize(side, bound, pts, n - 1);
      EmitShape(side, bound, Prev(pts, n - 1), pts[n - 1]);
    }
  }

  /** A pass over vertices that are all inside pushes exactly those vertices, in order. */
  lemma {:induction false} PassAllInside(side: Side, bound: Line, pts: seq<Point>, n: nat)
    requires n <= |pts| && AllInside(side, bound, pts)
    ensures Pass(side, bound, pts, n) == Some(pts[..n])
  {
    if n > 0 {
      PassAllInside(side, bound, pts, n - 1);
      assert pts[..n] == pts[..n - 1] + [pts[n - 1]];
    }
  }

  /** A pass over vertices none of which is inside pushes nothing. */
  lemma {:induction false} PassAllOutside(side: Side, bound: Line, pts: seq<Point>, n: nat)
    requires n <= |pts|
    requires forall k :: 0 <= k < |pts| ==> !Inside(side, bound, pts[k])
    ensures Pass(side, bound, pts, n) == Some([])
  {
    if n > 0 {
      PassAllOutside(side, bound, pts, n - 1);
      assert !Inside(side, bound, Prev(pts, n - 1));
      assert Emit(side, bound, Prev(pts, n - 1), pts[n - 1]) == Some([]);
      var r := Pass(side, bound, pts, n - 1).value;
      assert r + [] == r;
    }
  }

  /** A pass panics exactly when one of its edges crosses the boundary nearly in parallel. */
  lemma {:induction false} PassFault(side: Side, bound: Line, pts: seq<Point>, n: nat)
    requires n <= |pts|
    ensures Pass(side, bound, pts, n).None? <==>
      exists k :: 0 <= k < n && Emit(side, bound, Prev(pts, k), pts[k]).None?
  {
    if n > 0 {
      PassFault(side, bound, pts, n - 1);
    }
  }

  /** The outcome of one pass, for `clip_side` as a whole. */
  lemma SideResultProps(side: Side, bound: Line, poly: Polygon)
    requires |poly.points| > 0
    ensures SideResult(side, bound, poly).Kept? ==>
      var q := SideResult(side, bound, poly).poly.points;
      0 < |q| <= 2 * |poly.points| && AllInside(side, bound, q)
    ensures AllInside(side, bound, poly.points) ==> SideResult(side, bound, poly) == Kept(poly)
    ensures (forall k :: 0 <= k < |poly.points| ==> !Inside(side, bound, poly.points[k])) ==>
      SideResult(side, bound, poly) == Emptied
  {
    var pts := poly.points;
    var n := |pts|;
    if Pass(side, bound, pts, n).Some? {
      PassSize(side, bound, pts, n);
      PassInside(side, bound, pts, n);
    }
    if AllInside(side, bound, pts) {
      PassAllInside(side, bound, pts, n);
      assert pts[..n] == pts;
    }
    if forall k :: 0 <= k < n ==> !Inside(side, bound, pts[k]) {
      PassAllOutside(side, bound, pts, n);
    }
  }

  /** A pass keeps, for the next passes, a half-plane its input lies in. */
  lemma SideResultKeeps(side: Side, other: Side, bound: Line, poly: Polygon)
    requires |poly.points| > 0 && AllInside(other, bound, poly.points)
    ensures SideResult(side, bound, poly).Kept? ==>
      AllInside(other, bound, SideResult(side, bound, poly).poly.points)
  {
    if Pass(side, bound, poly.points, |poly.points|).Some? {
      PassKeeps(side, other, bound, poly.points, |poly.points|);
    }
  }

  // ---------------------------------------------------------------------
  // What `clip` computes
  // ---------------------------------------------------------------------

  /** `bound[0] <= p <= bound[1]` componentwise. */
  predicate WithinBound(bound: Line, p: Point) {
    bound.p0.x <= p.x <= bound.p1.x && bound.p0.y <= p.y <= bound.p1.y
  }

  /**
    Every vertex of a clipped polygon lies within the bound: each pass puts its
    vertices in its half-plane and keeps them in the earlier ones.
  */
  lemma ClipContained(poly: Polygon, bound: Line)
    requires |poly.points| > 0 && Clipped(poly, bound).Kept?
    ensures forall k :: 0 <= k < |Clipped(poly, bound).poly.points| ==>
      WithinBound(bound, Clipped(poly, bound).poly.points[k])
  {
    var p1 := SideResult(Left, bound, poly).poly;
    SideResultProps(Left, bound, poly);
    var p2 := SideResult(Top, bound, p1).poly;
    SideResultProps(Top, bound, p1);
    SideResultKeeps(Top, Left, bound, p1);
    var p3 := SideResult(Right, bound, p2).poly;
    SideResultProps(Right, bound, p2);
    SideResultKeeps(Right, Left, bound, p2);
    SideResultKeeps(Right, Top, bound, p2);
    var p4 := SideResult(Bottom, bound, p3).poly;
    SideResultProps(Bottom, bound, p3);
    SideResultKeeps(Bottom, Left, bound, p3);
    SideResultKeeps(Bottom, Top, bound, p3);
    SideResultKeeps(Bottom, Right, bound, p3);
    assert Clipped(poly, bound).poly == p4;
  }

  /** A polygon already within the bound comes back unchanged: only `res.push(b)` runs. */
  lemma ClipInsideUnchanged(poly: Polygon, bound: Line)
    requires |poly.points| > 0
    requires forall k :: 0 <= k < |poly.points| ==> WithinBound(bound, poly.points[k])
    ensures Clipped(poly, bound) == Kept(poly)
  {
    SideResultProps(Left, bound, poly);
    SideResultProps(Top, bound, poly);
    SideResultProps(Right, bound, poly);
    SideResultProps(Bottom, bound, poly);
  }

  /** A polygon wholly left of the bound is emptied by the first pass and `clip` returns `None`. */
  lemma ClipLeftOfBound(poly: Polygon, bound: Line)
    requires |poly.points| > 0
    requires forall k :: 0 <= k < |poly.points| ==> poly.points[k].x < bound.p0.x
    ensures Clipped(poly, bound) == Emptied
  {
    SideResultProps(Left, bound, poly);
  }

  /** The square `square(r, ox, oy)` clipped to its own corners is itself. */
  lemma SquareClipsToItself(r: real, ox: real, oy: real)
    requires 0.0 <= r
    ensures Clipped(Square(r, ox, oy), Seg(Pt(ox - r, oy - r), Pt(ox + r, oy + r))) == Kept(Square(r, ox, oy))
  {
    ClipInsideUnchanged(Square(r, ox, oy), Seg(Pt(ox - r, oy - r), Pt(ox + r, oy + r)));
  }

  /**
    The triangle (-2^-52, 0.5), (0, 0.5), (0.5, 0.9) against the unit square:
    its edge from the first to the second vertex enters the left half-plane,
    but its cross product with the left boundary is 2^-52, which
    `relative_eq!` takes for zero, so the `unwrap` panics.
  */
  lemma ClipFaultExample()
    ensures Clipped(Polygon([Pt(-Epsilon, 0.5), Pt(0.0, 0.5), Pt(0.5, 0.9)]),
                    Seg(Pt(0.0, 0.0), Pt(1.0, 1.0))) == Fault
  {
    var pts := [Pt(-Epsilon, 0.5), Pt(0.0, 0.5), Pt(0.5, 0.9)];
    var bound := Seg(Pt(0.0, 0.0), Pt(1.0, 1.0));
    assert Cross(Dir(Seg(pts[0], pts[1])), Dir(Boundary(Left, bound))) == Epsilon;
    assert Emit(Left, bound, Prev(pts, 1), pts[1]).None?;
    PassFault(Left, bound, pts, 3);
  }

  // ---------------------------------------------------------------------
  // Extreme y coordinates
  // ---------------------------------------------------------------------

  /** `Polygon::min_y`: the smallest y of the vertices; indexing vertex 0 needs one. */
  method MinY(poly: Polygon) returns (res: real)
    requires |poly.points| > 0
    ensures forall k :: 0 <= k < |poly.points| ==> res <= poly.points[k].y
    ensures exists k :: 0 <= k < |poly.points| && res == poly.points[k].y
  {
    res := poly.points[0].y;
    ghost var at := 0;
    for i := 0 to |poly.points|
      invariant 0 <= at < |poly.points| && res == poly.points[at].y
      invariant forall k :: 0 <= k < i ==> res <= poly.points[k].y
    {
      if res > poly.points[i].y {
        res := poly.points[i].y;
        at := i;
      }
    }
  }

  /** `Polygon::max_y`: the largest y of the vertices. */
  method MaxY(poly: Polygon) returns (res: real)
    requires |poly.points| > 0
    ensures forall k :: 0 <= k < |poly.points| ==> poly.points[k].y <= res
    ensures exists k :: 0 <= k < |poly.points| && res == poly.points[k].y
  {
    res := poly.points[0].y;
    ghost var at := 0;
    for i := 0 to |poly.points|
      invariant 0 <= at < |poly.points| && res == poly.points[at].y
      invariant forall k :: 0 <= k < i ==> poly.points[k].y <= res
    {
      if res < poly.points[i].y {
        res := poly.points[i].y;
        at := i;
      }
    }
  }

  // ---------------------------------------------------------------------
  // Line intersections
  // ---------------------------------------------------------------------

  /** The results of `line_intersection(edge, line)` that are `Some`, in edge order. */
  function Hits(es: seq<Line>, line: Line): seq<Either<Point, Line>> {
    if es == [] then []
    else
      Hits(es[..|es| - 1], line) +
      match LineIntersection(es[|es| - 1], line)
      case None => []
      case Some(i) => [i]
  }

  /**
    At most one hit per edge; each hit is a point lying on the line and on some
    edge; and the intersection of every edge that meets the line is among the
    hits (with `LineIntersectionComplete`, every edge the line crosses clearly).
  */
  lemma {:induction false} HitsProps(es: seq<Line>, line: Line)
    ensures |Hits(es, line)| <= |es|
    ensures forall h :: h in Hits(es, line) ==>
      h.A? && OnSegment(h.left, line) && exists k :: 0 <= k < |es| && OnSegment(h.left, es[k])
    ensures forall k :: 0 <= k < |es| && LineIntersection(es[k], line).Some? ==>
      LineIntersection(es[k], line).value in Hits(es, line)
  {
    if es != [] {
      var n := |es| - 1;
      HitsProps(es[..n], line);
      forall k | 0 <= k < n && LineIntersection(es[k], line).Some?
        ensures LineIntersection(es[k], line).value in Hits(es, line)
      {
        assert es[..n][k] == es[k];
      }
      if LineIntersection(es[n], line).Some? {
        LineIntersectionSound(es[n], line);
      }
      forall h | h in Hits(es, line)
        ensures h.A? && OnSegment(h.left, line) && exists k :: 0 <= k < |es| && OnSegment(h.left, es[k])
      {
        if h in Hits(es[..n], line) {
          var k :| 0 <= k < n && OnSegment(h.left, es[..n][k]);
          assert es[..n][k] == es[k];
        }
      }
    }
  }

  /** `Polygon::intersection_line`: walks the edges with an `EdgeIterator`. */
  method IntersectionLine(poly: Polygon, line: Line) returns (res: seq<Either<Point, Line>>)
    ensures res == Hits(Edges(poly), line)
  {
    var it := new EdgeIterator(poly);
    res := [];
    while true
      invariant it.polygon == poly && it.a <= |poly.points|
      invariant res == Hits(Edges(poly)[..it.a], line)
      decreases |poly.points| - it.a
    {
      var e := it.Next();
      if e.None? {
        break;
      }
      assert Edges(poly)[..it.a][..it.a - 1] == Edges(poly)[..it.a - 1];
      var intersect := LineIntersection(e.value, line);
      if intersect.Some? {
        res := res + [intersect.value];
      }
    }
    assert Edges(poly)[..it.a] == Edges(poly);
  }

  /**
    `intersection_line` yields at most one point per edge, each on the line and
    on an edge, and misses no edge that meets the line.
  */
  lemma IntersectionLineProps(poly: Polygon, line: Line)
    ensures |Hits(Edges(poly), line)| <= |poly.points|
    ensures forall h :: h in Hits(Edges(poly), line) ==>
      h.A? && OnSegment(h.left, line) && exists i :: 0 <= i < |poly.points| && OnSegment(h.left, Edge(poly, i))
    ensures forall i :: 0 <= i < |poly.points| && LineIntersection(Edge(poly, i), line).Some? ==>
      LineIntersection(Edge(poly, i), line).value in Hits(Edges(poly), line)
  {
    var es := Edges(poly);
    HitsProps(es, line);
    forall h | h in Hits(es, line)
      ensures exists i :: 0 <= i < |poly.points| && OnSegment(h.left, Edge(poly, i))
    {
      var k :| 0 <= k < |es| && OnSegment(h.left, es[k]);
      assert es[k] == Edge(poly, k);
    }
    forall i | 0 <= i < |poly.points| && LineIntersection(Edge(poly, i), line).Some?
      ensures LineIntersection(Edge(poly, i), line).value in Hits(es, line)
    {
      assert es[i] == Edge(poly, i);
    }
  }

  /**
    The rectangle edges `line_rect_intersection` tests, `[r0, br]`, `[r0, tl]`,
    `[br, r1]`, `[tl, r1]`, with `tl`/`br` the other two corners.
  */
  function RectSides(rect: Line): seq<Line> {
    var tl := Pt(rect.p0.x, rect.p1.y);
    var br := Pt(rect.p1.x, rect.p0.y);
    [Seg(rect.p0, br), Seg(rect.p0, tl), Seg(br, rect.p1), Seg(tl, rect.p1)]
  }

  /** They are the edges of `rect_to_edges`, two of them reversed. */
  lemma RectSidesAreEdges(rect: Line)
    ensures forall i :: 0 <= i < 4 ==>
      RectSides(rect)[i] in RectToEdges(rect) || RectSides(rect)[i].Swap() in RectToEdges(rect)
  {
    var e := RectToEdges(rect);
    assert RectSides(rect)[0] == e[0];
    assert RectSides(rect)[1].Swap() == e[3];
    assert RectSides(rect)[2] == e[1];
    assert RectSides(rect)[3].Swap() == e[2];
  }

  /** `line_rect_intersection` */
  method LineRectIntersection(line: Line, rect: Line) returns (res: seq<Either<Point, Line>>)
    ensures res == Hits(RectSides(rect), line)
  {
    var edges := RectSides(rect);
    res := [];
    for i := 0 to 4
      invariant res == Hits(edges[..i], line)
    {
      assert edges[..i + 1][..i] == edges[..i];
      var intersect := LineIntersection(edges[i], line);
      if intersect.Some? {
        res := res + [intersect.value];
      }
    }
    assert edges[..4] == edges;
  }

  /**
    At most four results, each on the line and on the rectangle's boundary, and
    no side that meets the line is missed.
  */
  lemma LineRectIntersectionProps(line: Line, rect: Line)
    ensures |Hits(RectSides(rect), line)| <= 4
    ensures forall h :: h in Hits(RectSides(rect), line) ==>
      h.A? && OnSegment(h.left, line) && exists k :: 0 <= k < 4 && OnSegment(h.left, RectSides(rect)[k])
    ensures forall k :: 0 <= k < 4 && LineIntersection(RectSides(rect)[k], line).Some? ==>
      LineIntersection(RectSides(rect)[k], line).value in Hits(RectSides(rect), line)
  {
    HitsProps(RectSides(rect), line);
  }
}
