/**
  The pure geometry of src/plane/mod.rs: the segment/segment and
  segment/infinite-line intersections, and the corners and edges of an
  axis-aligned rectangle given by two opposite corners.
*/
module Plane {
  import opened Geometry

  /**
    `line_intersection`: where segment `a` meets segment `b`. Parallel or
    nearly parallel directions give no result; the collinear-overlap variant `B`
    is never produced (that branch is commented out in the source).
  */
  function LineIntersection(a: Line, b: Line): (res: Option<Either<Point, Line>>)
    ensures res.Some? ==> res.value.A?
    ensures NearZero(Cross(Dir(a), Dir(b))) ==> res.None?
  {
    var r := Dir(a);
    var s := Dir(b);
    var rxs := Cross(r, s);
    var diff := Sub(b.p0, a.p0);
    if !NearZero(rxs) then
      var u := Cross(diff, r) / rxs;
      if 0.0 <= u <= 1.0 then
        var t := Cross(diff, s) / rxs;
        if 0.0 <= t <= 1.0 then Some(A(Add(a.p0, Scale(r, t)))) else None
      else None
    else None
  }

  /**
    `inf_line_intersection`: where segment `a` meets the infinite line through
    `inf`. Only the parameter along `a` is constrained to [0, 1].
  */
  function InfLineIntersection(a: Line, inf: Line): (res: Option<Either<Point, Line>>)
    ensures res.Some? ==> res.value.A?
    ensures NearZero(Cross(Dir(a), Dir(inf))) ==> res.None?
  {
    var r := Dir(a);
    var s := Dir(inf);
    var rxs := Cross(r, s);
    var diff := Sub(inf.p0, a.p0);
    if !NearZero(rxs) then
      var t := Cross(diff, s) / rxs;
      if 0.0 <= t <= 1.0 then Some(A(Add(a.p0, Scale(r, t)))) else None
    else None
  }

  /** Moving along `r` by `t` changes the cross product with `s` by `t * (r x s)`. */
  lemma CrossAlong(a0: Point, r: Point, q: Point, s: Point, t: real)
    ensures Cross(Sub(Add(a0, Scale(r, t)), q), s) == t * Cross(r, s) - Cross(Sub(q, a0), s)
  {
  }

  lemma CancelFactor(x: real, y: real, c: real)
    requires c != 0.0 && x * c == y * c
    ensures x == y
  {
    assert (x - y) * c == 0.0;
  }

  /** A result of `inf_line_intersection` lies on segment `a` and on the line through `inf`. */
  lemma InfLineIntersectionSound(a: Line, inf: Line)
    requires InfLineIntersection(a, inf).Some?
    ensures OnSegment(InfLineIntersection(a, inf).value.left, a)
    ensures OnLine(InfLineIntersection(a, inf).value.left, inf)
  {
    var r, s := Dir(a), Dir(inf);
    var rxs := Cross(r, s);
    var diff := Sub(inf.p0, a.p0);
    var t := Cross(diff, s) / rxs;
    var p := InfLineIntersection(a, inf).value.left;
    assert p == Lerp(a.p0, a.p1, t);
    CrossAlong(a.p0, r, inf.p0, s, t);
    assert t * rxs == Cross(diff, s);
  }

  /**
    Conversely, whenever segment `a` crosses the line through `inf` at a
    parameter `t` in [0, 1] and the directions are not nearly parallel,
    `inf_line_intersection` finds exactly that point.
  */
  lemma InfLineIntersectionComplete(a: Line, inf: Line, t: real)
    requires 0.0 <= t <= 1.0
    requires OnLine(Lerp(a.p0, a.p1, t), inf)
    requires !NearZero(Cross(Dir(a), Dir(inf)))
    ensures InfLineIntersection(a, inf) == Some(A(Lerp(a.p0, a.p1, t)))
  {
    var r, s := Dir(a), Dir(inf);
    var rxs := Cross(r, s);
    var diff := Sub(inf.p0, a.p0);
    CrossAlong(a.p0, r, inf.p0, s, t);
    assert t * rxs == Cross(diff, s);
    assert (Cross(diff, s) / rxs) * rxs == Cross(diff, s);
    CancelFactor(t, Cross(diff, s) / rxs, rxs);
  }

  /** A result of `line_intersection` lies on both segments. */
  lemma LineIntersectionSound(a: Line, b: Line)
    requires LineIntersection(a, b).Some?
    ensures OnSegment(LineIntersection(a, b).value.left, a)
    ensures OnSegment(LineIntersection(a, b).value.left, b)
  {
    var r, s := Dir(a), Dir(b);
    var rxs := Cross(r, s);
    var diff := Sub(b.p0, a.p0);
    var u := Cross(diff, r) / rxs;
    var t := Cross(diff, s) / rxs;
    var p := LineIntersection(a, b).value.left;
    assert p == Lerp(a.p0, a.p1, t);
    assert t * rxs == Cross(diff, s);
    assert u * rxs == Cross(diff, r);
    assert (t * r.x - u * s.x) * rxs == diff.x * rxs;
    assert (t * r.y - u * s.y) * rxs == diff.y * rxs;
    CancelFactor(t * r.x - u * s.x, diff.x, rxs);
    CancelFactor(t * r.y - u * s.y, diff.y, rxs);
    LerpMeet(a, b, t, u);
  }

  lemma LerpMeet(a: Line, b: Line, t: real, u: real)
    requires t * Dir(a).x - u * Dir(b).x == b.p0.x - a.p0.x
    requires t * Dir(a).y - u * Dir(b).y == b.p0.y - a.p0.y
    ensures Add(a.p0, Scale(Dir(a), t)) == Lerp(b.p0, b.p1, u)
  {
    var r, s := Dir(a), Dir(b);
    assert a.p0.x + r.x * t == b.p0.x + s.x * u;
    assert a.p0.y + r.y * t == b.p0.y + s.y * u;
    AlongIs(a.p0, r, t);
    AlongIs(b.p0, s, u);
  }

  lemma AlongIs(p: Point, r: Point, t: real)
    ensures Add(p, Scale(r, t)) == Pt(p.x + r.x * t, p.y + r.y * t)
    ensures Lerp(p, Add(p, r), t) == Add(p, Scale(r, t))
  {
  }

  /**
    Conversely, two segments that are not nearly parallel and meet at a point
    `p` (parameter `t` along `a`, `u` along `b`) make `line_intersection` return `p`.
  */
  lemma LineIntersectionComplete(a: Line, b: Line, t: real, u: real)
    requires 0.0 <= t <= 1.0 && 0.0 <= u <= 1.0
    requires Lerp(a.p0, a.p1, t) == Lerp(b.p0, b.p1, u)
    requires !NearZero(Cross(Dir(a), Dir(b)))
    ensures LineIntersection(a, b) == Some(A(Lerp(a.p0, a.p1, t)))
  {
    var r, s := Dir(a), Dir(b);
    var rxs := Cross(r, s);
    var diff := Sub(b.p0, a.p0);
    // a0 + t r == b0 + u s, so diff == t r - u s
    assert diff == Pt(t * r.x - u * s.x, t * r.y - u * s.y);
    assert Cross(diff, s) == t * rxs;
    assert Cross(diff, r) == u * rxs;
    assert (Cross(diff, s) / rxs) * rxs == Cross(diff, s);
    assert (Cross(diff, r) / rxs) * rxs == Cross(diff, r);
    CancelFactor(t, Cross(diff, s) / rxs, rxs);
    CancelFactor(u, Cross(diff, r) / rxs, rxs);
  }

  /**
    `rect_to_vertices`: the four corners of the rectangle spanned by `rect`,
    starting at `rect[0]`, going along x first, with `rect[1]` opposite it.
  */
  function RectToVertices(rect: Line): (v: seq<Point>)
    ensures |v| == 4 && v[0] == rect.p0 && v[2] == rect.p1
    ensures forall i :: 0 <= i < 4 ==> v[i].x in {rect.p0.x, rect.p1.x} && v[i].y in {rect.p0.y, rect.p1.y}
    ensures v[1] == Pt(rect.p1.x, rect.p0.y) && v[3] == Pt(rect.p0.x, rect.p1.y)
  {
    [rect.p0, Pt(rect.p1.x, rect.p0.y), rect.p1, Pt(rect.p0.x, rect.p1.y)]
  }

  /**
    `rect_to_edges`: the rectangle's boundary as four edges between consecutive
    corners; the end of each edge is the start of the next, cyclically.
  */
  function RectToEdges(rect: Line): (e: seq<Line>)
    ensures |e| == 4
    ensures forall i :: 0 <= i < 4 ==> e[i].p0 == RectToVertices(rect)[i]
    ensures e[0].p1 == e[1].p0 && e[1].p1 == e[2].p0 && e[2].p1 == e[3].p0 && e[3].p1 == e[0].p0
  {
    var v := RectToVertices(rect);
    [Seg(v[0], v[1]), Seg(v[1], v[2]), Seg(v[2], v[3]), Seg(v[3], v[0])]
  }

  /** Every edge of the rectangle is axis-aligned: its ends share x or share y. */
  lemma RectEdgesAxisAligned(rect: Line, i: int)
    requires 0 <= i < 4
    ensures var e := RectToEdges(rect)[i]; e.p0.x == e.p1.x || e.p0.y == e.p1.y
  {
  }
}
