/**
  The indexed triangle mesh of src/volume/polyhedron.rs: `map`, indexing, the
  `FromIterator` construction that deduplicates the corners of a stream of
  triangles, and the built-in primitives.

  `from_iter` keeps the points in the order they are first met and turns each
  corner into the index of its point, cast `as u16`: the indices wrap modulo
  65536 once there are more distinct points than a `u16` can count.
*/
module Polyhedra {
  import opened Geometry

  newtype u16 = x: int | 0 <= x < 65536

  /** `[T; 3]`: the three corners of a triangle, or the three indices of a face. */
  datatype Tri<T> = Tri(a: T, b: T, c: T)

  /** Corner `j` of a triangle, `tri[j]`. */
  function Corner<T>(t: Tri<T>, j: int): T
    requires 0 <= j < 3
  {
    if j == 0 then t.a else if j == 1 then t.b else t.c
  }

  /** `Polyhedron<P>`: the points and, per face, the indices of its three points. */
  datatype Polyhedron<P> = Polyhedron(points: seq<P>, faces: seq<Tri<u16>>)

  /** Every face index names a point. */
  predicate WellFormed<P>(poly: Polyhedron<P>) {
    forall k, j :: 0 <= k < |poly.faces| && 0 <= j < 3 ==> (Corner(poly.faces[k], j) as int) < |poly.points|
  }

  // ---------------------------------------------------------------------
  // `map`, `Index`, `IndexMut`
  // ---------------------------------------------------------------------

  /** `Polyhedron::map`: `f` applied to every point; the faces are moved over untouched. */
  function Map<P, O>(poly: Polyhedron<P>, f: P -> O): (r: Polyhedron<O>)
    ensures |r.points| == |poly.points|
  {
    Polyhedron(seq(|poly.points|, i requires 0 <= i < |poly.points| => f(poly.points[i])), poly.faces)
  }

  /**
    Mapping keeps the faces and the well-formedness of the mesh, sends point `i`
    to `f(point i)`, and two maps compose into one.
  */
  lemma MapProps<P, O, Q>(poly: Polyhedron<P>, f: P -> O, g: O -> Q)
    ensures Map(poly, f).faces == poly.faces
    ensures forall i :: 0 <= i < |poly.points| ==> Map(poly, f).points[i] == f(poly.points[i])
    ensures WellFormed(poly) <==> WellFormed(Map(poly, f))
    ensures Map(Map(poly, f), g) == Map(poly, x => g(f(x)))
  {
  }

  /** `Index::index`: point `i`. */
  function Index<P>(poly: Polyhedron<P>, i: int): P
    requires 0 <= i < |poly.points|
  {
    poly.points[i]
  }

  /** The mesh after `poly[i] = v` through `IndexMut::index_mut`. */
  function SetPoint<P>(poly: Polyhedron<P>, i: int, v: P): Polyhedron<P>
    requires 0 <= i < |poly.points|
  {
    poly.(points := poly.points[i := v])
  }

  /** `IndexMut` changes point `i` only: every other point and all faces stay. */
  lemma SetPointProps<P>(poly: Polyhedron<P>, i: int, v: P)
    requires 0 <= i < |poly.points|
    ensures |SetPoint(poly, i, v).points| == |poly.points|
    ensures SetPoint(poly, i, v).faces == poly.faces
    ensures forall j :: 0 <= j < |poly.points| ==>
      Index(SetPoint(poly, i, v), j) == if j == i then v else Index(poly, j)
    ensures WellFormed(poly) ==> WellFormed(SetPoint(poly, i, v))
  {
  }

  // ---------------------------------------------------------------------
  // `from_iter`: the specification
  // ---------------------------------------------------------------------

  /** The corners of the triangles, triangle by triangle. */
  function Corners<P>(tris: seq<Tri<P>>): (cs: seq<P>)
    ensures |cs| == 3 * |tris|
  {
    if tris == [] then []
    else
      var t := tris[|tris| - 1];
      Corners(tris[..|tris| - 1]) + [t.a, t.b, t.c]
  }

  /** The points list after meeting `p`: unchanged if `p` is there, else `p` appended. */
  function AddPoint<P(==)>(points: seq<P>, p: P): seq<P> {
    if p in points then points else points + [p]
  }

  /** The distinct values of `cs` in the order of their first occurrence. */
  function Firsts<P(==)>(cs: seq<P>): seq<P> {
    if cs == [] then [] else AddPoint(Firsts(cs[..|cs| - 1]), cs[|cs| - 1])
  }

  /** The position of the first `p` in `ps`. */
  function IndexOf<P(==)>(ps: seq<P>, p: P): (i: nat)
    requires p in ps
    ensures i < |ps| && ps[i] == p && forall m :: 0 <= m < i ==> ps[m] != p
  {
    if ps[0] == p then 0 else 1 + IndexOf(ps[1..], p)
  }

  /** `i as u16`: the index modulo 65536. */
  function AsU16(i: nat): u16 {
    (i % 65536) as u16
  }

  /** The face `from_iter` records for a triangle, given the final points. */
  function FaceOf<P(==)>(points: seq<P>, t: Tri<P>): Tri<u16>
    requires t.a in points && t.b in points && t.c in points
  {
    Tri(AsU16(IndexOf(points, t.a)), AsU16(IndexOf(points, t.b)), AsU16(IndexOf(points, t.c)))
  }

  /**
    The first `n` faces are the faces of the first `n` triangles, each corner
    replaced by the position of its point.
  */
  ghost predicate Recorded<P>(points: seq<P>, faces: seq<Tri<u16>>, tris: seq<Tri<P>>, n: int) {
    0 <= n <= |tris| && n <= |faces| &&
    forall m :: 0 <= m < n ==>
      tris[m].a in points && tris[m].b in points && tris[m].c in points &&
      faces[m] == FaceOf(points, tris[m])
  }

  // ---------------------------------------------------------------------
  // `from_iter`: the loops
  // ---------------------------------------------------------------------

  /**
    The closure `from_iter` maps over the corners: a linear search through the
    points found so far; the index of the equal point, or a push and the new
    last index.
  */
  method FindOrPush<P(==)>(points: seq<P>, p: P) returns (points': seq<P>, i: nat)
    ensures points' == AddPoint(points, p)
    ensures p in points' && i == IndexOf(points', p)
  {
    var j := 0;
    while j < |points|
      invariant 0 <= j <= |points|
      invariant forall m :: 0 <= m < j ==> points[m] != p
    {
      if points[j] == p {
        IndexOfIs(points, p, j);
        return points, j;
      }
      j := j + 1;
    }
    points' := points + [p];
    i := |points|;
    IndexOfIs(points', p, i);
  }

  /** `FromIterator::from_iter` over a sequence of triangles. */
  method FromTriangles<P(==)>(tris: seq<Tri<P>>) returns (poly: Polyhedron<P>)
    ensures poly.points == Firsts(Corners(tris))
    ensures |poly.faces| == |tris| && Recorded(poly.points, poly.faces, tris, |tris|)
  {
    var points: seq<P> := [];
    var faces: seq<Tri<u16>> := [];
    for k := 0 to |tris|
      invariant points == Firsts(Corners(tris[..k]))
      invariant |faces| == k && Recorded(points, faces, tris, k)
    {
      ghost var before := points;
      var t := tris[k];
      var i0, i1, i2;
      points, i0 := FindOrPush(points, t.a);
      ghost var p1 := points;
      points, i1 := FindOrPush(points, t.b);
      ghost var p2 := points;
      points, i2 := FindOrPush(points, t.c);
      RecordStep(tris, faces, k, before, p1, p2, points, i0, i1, i2);
      faces := faces + [Tri(AsU16(i0), AsU16(i1), AsU16(i2))];
    }
    assert tris[..|tris|] == tris;
    poly := Polyhedron(points, faces);
  }

  // ---------------------------------------------------------------------
  // Lemmas for the loops
  // ---------------------------------------------------------------------

  /** The first occurrence is the one before which `p` does not occur. */
  lemma IndexOfIs<P>(ps: seq<P>, p: P, j: nat)
    requires j < |ps| && ps[j] == p && forall m :: 0 <= m < j ==> ps[m] != p
    ensures IndexOf(ps, p) == j
  {
  }

  /** One iteration of the outer loop keeps both loop invariants. */
  lemma RecordStep<P>(tris: seq<Tri<P>>, faces: seq<Tri<u16>>, k: nat, before: seq<P>, p1: seq<P>, p2: seq<P>,
                      after: seq<P>, i0: nat, i1: nat, i2: nat)
    requires k < |tris| && |faces| == k
    requires before == Firsts(Corners(tris[..k])) && Recorded(before, faces, tris, k)
    requires p1 == AddPoint(before, tris[k].a) && tris[k].a in p1 && i0 == IndexOf(p1, tris[k].a)
    requires p2 == AddPoint(p1, tris[k].b) && tris[k].b in p2 && i1 == IndexOf(p2, tris[k].b)
    requires after == AddPoint(p2, tris[k].c) && tris[k].c in after && i2 == IndexOf(after, tris[k].c)
    ensures after == Firsts(Corners(tris[..k + 1]))
    ensures Recorded(after, faces + [Tri(AsU16(i0), AsU16(i1), AsU16(i2))], tris, k + 1)
  {
    FirstsStep(tris, k);
    RecordFace(tris, faces, k, before, p1, p2, after, i0, i1, i2);
  }

  /** The faces part of `RecordStep`, which does not depend on how the points arose. */
  lemma RecordFace<P>(tris: seq<Tri<P>>, faces: seq<Tri<u16>>, k: nat, before: seq<P>, p1: seq<P>, p2: seq<P>,
                      after: seq<P>, i0: nat, i1: nat, i2: nat)
    requires k < |tris| && |faces| == k && Recorded(before, faces, tris, k)
    requires p1 == AddPoint(before, tris[k].a) && tris[k].a in p1 && i0 == IndexOf(p1, tris[k].a)
    requires p2 == AddPoint(p1, tris[k].b) && tris[k].b in p2 && i1 == IndexOf(p2, tris[k].b)
    requires after == AddPoint(p2, tris[k].c) && tris[k].c in after && i2 == IndexOf(after, tris[k].c)
    ensures Recorded(after, faces + [Tri(AsU16(i0), AsU16(i1), AsU16(i2))], tris, k + 1)
  {
    AddPointPrefix(before, tris[k].a);
    AddPointPrefix(p1, tris[k].b);
    AddPointPrefix(p2, tris[k].c);
    IndexOfPrefix(p1, after, tris[k].a);
    IndexOfPrefix(p2, after, tris[k].b);
    FacesStay(tris, faces, k, before, after);
    FacesExtend(after, faces, tris, k, i0, i1, i2);
  }

  /** Meeting `p` only ever appends. */
  lemma AddPointPrefix<P>(points: seq<P>, p: P)
    ensures p in AddPoint(points, p) && points <= AddPoint(points, p)
  {
  }

  /** Appending points keeps the first position of every point already there. */
  lemma IndexOfPrefix<P>(ps: seq<P>, qs: seq<P>, p: P)
    requires ps <= qs && p in ps
    ensures p in qs && IndexOf(qs, p) == IndexOf(ps, p)
  {
    var i := IndexOf(ps, p);
    assert qs[i] == ps[i];
    IndexOfIs(qs, p, i);
  }

  /**
    Faces recorded against the points found so far stay right as more points
    are appended.
  */
  lemma FacesStay<P>(tris: seq<Tri<P>>, faces: seq<Tri<u16>>, k: nat, before: seq<P>, after: seq<P>)
    requires Recorded(before, faces, tris, k) && before <= after
    ensures Recorded(after, faces, tris, k)
  {
    forall m | 0 <= m < k
      ensures tris[m].a in after && tris[m].b in after && tris[m].c in after
      ensures faces[m] == FaceOf(after, tris[m])
    {
      IndexOfPrefix(before, after, tris[m].a);
      IndexOfPrefix(before, after, tris[m].b);
      IndexOfPrefix(before, after, tris[m].c);
    }
  }

  /** The face of triangle `k` recorded next. */
  lemma FacesExtend<P>(points: seq<P>, faces: seq<Tri<u16>>, tris: seq<Tri<P>>, k: nat, i0: nat, i1: nat, i2: nat)
    requires Recorded(points, faces, tris, k) && |faces| == k < |tris|
    requires tris[k].a in points && tris[k].b in points && tris[k].c in points
    requires i0 == IndexOf(points, tris[k].a) && i1 == IndexOf(points, tris[k].b) && i2 == IndexOf(points, tris[k].c)
    ensures Recorded(points, faces + [Tri(AsU16(i0), AsU16(i1), AsU16(i2))], tris, k + 1)
  {
    var faces' := faces + [Tri(AsU16(i0), AsU16(i1), AsU16(i2))];
    forall m | 0 <= m < k + 1
      ensures tris[m].a in points && tris[m].b in points && tris[m].c in points
      ensures faces'[m] == FaceOf(points, tris[m])
    {
      if m < k {
        assert faces'[m] == faces[m];
      }
    }
  }

  /** One more triangle is three more corners met. */
  lemma FirstsStep<P>(tris: seq<Tri<P>>, k: nat)
    requires k < |tris|
    ensures Firsts(Corners(tris[..k + 1])) ==
      AddPoint(AddPoint(AddPoint(Firsts(Corners(tris[..k])), tris[k].a), tris[k].b), tris[k].c)
  {
    var t := tris[k];
    var cs := Corners(tris[..k]);
    assert tris[..k + 1][..k] == tris[..k];
    var c1 := cs + [t.a];
    var c2 := c1 + [t.b];
    var c3 := c2 + [t.c];
    assert Corners(tris[..k + 1]) == c3;
    FirstsSnoc(cs, t.a);
    FirstsSnoc(c1, t.b);
    FirstsSnoc(c2, t.c);
  }

  /** Meeting one more corner. */
  lemma FirstsSnoc<P>(cs: seq<P>, p: P)
    ensures Firsts(cs + [p]) == AddPoint(Firsts(cs), p)
  {
    var c := cs + [p];
    assert c[..|c| - 1] == cs;
  }

  // ---------------------------------------------------------------------
  // What `from_iter` produces
  // ---------------------------------------------------------------------

  predicate NoDuplicates<P(==)>(ps: seq<P>) {
    forall i, j :: 0 <= i < j < |ps| ==> ps[i] != ps[j]
  }

  /**
    The points of `from_iter`: no point is stored twice, every corner is
    stored, nothing else is, and there are at most as many points as corners.
  */
  lemma {:induction false} FirstsProps<P>(cs: seq<P>)
    ensures NoDuplicates(Firsts(cs))
    ensures forall p :: p in Firsts(cs) <==> p in cs
    ensures |Firsts(cs)| <= |cs|
  {
    if cs != [] {
      var n := |cs| - 1;
      FirstsProps(cs[..n]);
      assert cs == cs[..n] + [cs[n]];
    }
  }

  /**
    The points are kept in the order of their first occurrence: the points
    found in a prefix of the corners are a prefix of all the points.
  */
  lemma {:induction false} FirstsPrefix<P>(cs: seq<P>, i: nat)
    requires i <= |cs|
    ensures Firsts(cs[..i]) <= Firsts(cs)
  {
    if i < |cs| {
      var n := |cs| - 1;
      FirstsPrefix(cs[..n], i);
      assert cs[..n][..i] == cs[..i];
    } else {
      assert cs[..i] == cs;
    }
  }

  /**
    The points are listed in the order in which the corners first show them:
    of two stored points, the earlier one occurs first among the corners.
  */
  lemma {:induction false} FirstsOrder<P>(cs: seq<P>)
    ensures forall p :: p in Firsts(cs) ==> p in cs
    ensures forall i, j :: 0 <= i < j < |Firsts(cs)| ==>
      IndexOf(cs, Firsts(cs)[i]) < IndexOf(cs, Firsts(cs)[j])
  {
    FirstsProps(cs);
    if cs != [] {
      var n := |cs| - 1;
      var pre, c := cs[..n], cs[n];
      var before := Firsts(pre);
      FirstsOrder(pre);
      FirstsProps(pre);
      assert pre <= cs;
      forall p | p in before
        ensures IndexOf(cs, p) == IndexOf(pre, p) < n
      {
        IndexOfPrefix(pre, cs, p);
      }
      if c !in before {
        assert c !in pre;
        forall m | 0 <= m < n
          ensures cs[m] != c
        {
          assert cs[m] == pre[m];
        }
        IndexOfIs(cs, c, n);
        assert Firsts(cs) == before + [c];
      }
    }
  }

  /**
    The round trip of `from_iter`: while there are at most 65536 distinct
    points, every face index names the very point of the triangle's corner,
    one face per triangle.
  */
  lemma FromTrianglesRoundTrip<P>(poly: Polyhedron<P>, tris: seq<Tri<P>>)
    requires |poly.faces| == |tris| && Recorded(poly.points, poly.faces, tris, |tris|)
    requires |poly.points| <= 65536
    ensures WellFormed(poly)
    ensures forall k, j :: 0 <= k < |tris| && 0 <= j < 3 ==>
      poly.points[Corner(poly.faces[k], j)] == Corner(tris[k], j)
  {
    forall k, j | 0 <= k < |tris| && 0 <= j < 3
      ensures (Corner(poly.faces[k], j) as int) < |poly.points|
      ensures poly.points[Corner(poly.faces[k], j)] == Corner(tris[k], j)
    {
      FaceRoundTrip(poly.points, poly.faces, tris, k, j);
    }
  }

  /** Corner `j` of recorded face `k` names the point at corner `j` of triangle `k`. */
  lemma FaceRoundTrip<P>(points: seq<P>, faces: seq<Tri<u16>>, tris: seq<Tri<P>>, k: int, j: int)
    requires Recorded(points, faces, tris, |tris|) && |points| <= 65536
    requires 0 <= k < |tris| && 0 <= j < 3
    ensures (Corner(faces[k], j) as int) < |points| && points[Corner(faces[k], j)] == Corner(tris[k], j)
  {
    assert faces[k] == FaceOf(points, tris[k]);
    FaceCorner(points, tris[k], j);
  }

  /** Corner `j` of a recorded face is the position of the triangle's corner `j`. */
  lemma FaceCorner<P>(points: seq<P>, t: Tri<P>, j: int)
    requires t.a in points && t.b in points && t.c in points && |points| <= 65536
    requires 0 <= j < 3
    ensures Corner(t, j) in points
    ensures Corner(FaceOf(points, t), j) as int == IndexOf(points, Corner(t, j))
  {
    var i := IndexOf(points, Corner(t, j));
    SmallIndex(i);
    assert Corner(FaceOf(points, t), j) == AsU16(i);
  }

  /** Below 65536 the cast keeps the index. */
  lemma SmallIndex(i: nat)
    requires i < 65536
    ensures AsU16(i) as int == i
  {
  }

  /**
    With more than 65536 distinct points the `as u16` cast wraps: a face index
    always names some point, and it names the corner's own point exactly when
    that point sits below position 65536.
  */
  lemma IndexWraps<P>(points: seq<P>, t: Tri<P>, j: int)
    requires t.a in points && t.b in points && t.c in points && 0 <= j < 3
    requires NoDuplicates(points)
    ensures (Corner(FaceOf(points, t), j) as int) < |points|
    ensures points[Corner(FaceOf(points, t), j)] == Corner(t, j) <==>
      IndexOf(points, Corner(t, j)) < 65536
  {
    var p := Corner(t, j);
    var i := IndexOf(points, p);
    assert Corner(FaceOf(points, t), j) == AsU16(i);
    WrapAround(points, i);
  }

  /** The point at position `AsU16(i)` is the point at `i` exactly when `i < 65536`. */
  lemma WrapAround<P>(points: seq<P>, i: nat)
    requires i < |points| && NoDuplicates(points)
    ensures (AsU16(i) as int) < |points|
    ensures points[AsU16(i)] == points[i] <==> i < 65536
  {
    var r := AsU16(i) as int;
    if i >= 65536 {
      assert r < i;
    }
  }

  /**
    The faces `from_iter` builds: corner `j` of face `k` names the point at
    corner `j` of triangle `k` if and only if that point is among the first
    65536 distinct points; past them the index has wrapped onto another point.
  */
  lemma FromTrianglesWraps<P>(poly: Polyhedron<P>, tris: seq<Tri<P>>, k: int, j: int)
    requires poly.points == Firsts(Corners(tris))
    requires |poly.faces| == |tris| && Recorded(poly.points, poly.faces, tris, |tris|)
    requires 0 <= k < |tris| && 0 <= j < 3
    ensures (Corner(poly.faces[k], j) as int) < |poly.points|
    ensures poly.points[Corner(poly.faces[k], j)] == Corner(tris[k], j) <==>
      IndexOf(poly.points, Corner(tris[k], j)) < 65536
  {
    FirstsProps(Corners(tris));
    FaceWraps(poly.points, poly.faces, tris, k, j);
  }

  /** `IndexWraps` for face `k` of a recorded mesh. */
  lemma FaceWraps<P>(points: seq<P>, faces: seq<Tri<u16>>, tris: seq<Tri<P>>, k: int, j: int)
    requires Recorded(points, faces, tris, |tris|) && NoDuplicates(points)
    requires 0 <= k < |tris| && 0 <= j < 3
    ensures (Corner(faces[k], j) as int) < |points|
    ensures points[Corner(faces[k], j)] == Corner(tris[k], j) <==>
      IndexOf(points, Corner(tris[k], j)) < 65536
  {
    assert faces[k] == FaceOf(points, tris[k]);
    IndexWraps(points, tris[k], j);
  }

  // ---------------------------------------------------------------------
  // The primitives
  // ---------------------------------------------------------------------

  function V(x: real, y: real, z: real): Vec3 { Vec3(x, y, z) }

  function F(a: u16, b: u16, c: u16): Tri<u16> { Tri(a, b, c) }

  /** `Polyhedron::cube`: the unit cube centred on the origin. */
  function Cube(): Polyhedron<Vec3> {
    Polyhedron(
      [V(0.5, -0.5, -0.5), V(-0.5, -0.5, -0.5), V(-0.5, 0.5, -0.5), V(0.5, 0.5, -0.5),
       V(-0.5, -0.5, 0.5), V(0.5, -0.5, 0.5), V(0.5, 0.5, 0.5), V(-0.5, 0.5, 0.5)],
      [F(0, 1, 2), F(2, 3, 0), F(4, 5, 6), F(6, 7, 4), F(5, 4, 1), F(1, 0, 5),
       F(3, 2, 7), F(7, 6, 3), F(1, 4, 7), F(7, 2, 1), F(5, 0, 3), F(3, 6, 5)])
  }

  /** `Polyhedron::octohedron` */
  function Octohedron(): Polyhedron<Vec3> {
    Polyhedron(
      [V(-0.5, 0.0, -0.5), V(0.5, 0.0, -0.5), V(0.5, 0.0, 0.5), V(-0.5, 0.0, 0.5),
       V(0.0, 0.5, 0.0), V(0.0, -0.5, 0.0)],
      [F(4, 1, 0), F(4, 2, 1), F(4, 3, 2), F(4, 0, 3),
       F(5, 0, 1), F(5, 1, 2), F(5, 2, 3), F(5, 3, 0)])
  }

  /** `Polyhedron::triangle` */
  function Triangle(): Polyhedron<Vec3> {
    Polyhedron([V(0.5, -0.5, -0.5), V(-0.5, -0.5, -0.5), V(0.0, -0.5, 0.5)], [F(0, 1, 2)])
  }

  /** `Polyhedron::quad` */
  function Quad(): Polyhedron<Vec3> {
    Polyhedron(
      [V(0.5, -0.5, -0.5), V(-0.5, -0.5, -0.5), V(-0.5, -0.5, 0.5), V(0.5, -0.5, 0.5)],
      [F(0, 1, 2), F(2, 3, 0)])
  }

  /** `Polyhedron::ramp_tri` */
  function RampTri(): Polyhedron<Vec3> {
    Polyhedron([V(0.5, -0.5, -0.5), V(-0.5, -0.5, -0.5), V(-0.5, 0.5, 0.5)], [F(0, 1, 2)])
  }

  /** `Polyhedron::ramp_quad` */
  function RampQuad(): Polyhedron<Vec3> {
    Polyhedron(
      [V(0.5, -0.5, -0.5), V(-0.5, -0.5, -0.5), V(-0.5, 0.5, 0.5), V(0.5, 0.5, 0.5)],
      [F(0, 1, 2), F(2, 3, 0)])
  }

  /**
    Every face of a mesh names three different points, and no point is listed
    twice: each face is a real triangle of the mesh.
  */
  predicate Proper<P(==)>(poly: Polyhedron<P>) {
    WellFormed(poly) && NoDuplicates(poly.points) &&
    forall k :: 0 <= k < |poly.faces| ==>
      poly.faces[k].a != poly.faces[k].b && poly.faces[k].b != poly.faces[k].c &&
      poly.faces[k].a != poly.faces[k].c
  }

  /** `cube`: 8 points, 12 faces. */
  lemma CubeProper()
    ensures |Cube().points| == 8 && |Cube().faces| == 12 && Proper(Cube())
  {
  }

  /** `octohedron`: 6 points, 8 faces. */
  lemma OctohedronProper()
    ensures |Octohedron().points| == 6 && |Octohedron().faces| == 8 && Proper(Octohedron())
  {
  }

  /** `triangle` and `ramp_tri`: 3 points, 1 face. */
  lemma TrianglesProper()
    ensures |Triangle().points| == 3 && |Triangle().faces| == 1 && Proper(Triangle())
    ensures |RampTri().points| == 3 && |RampTri().faces| == 1 && Proper(RampTri())
  {
  }

  /** `quad` and `ramp_quad`: 4 points, 2 faces. */
  lemma QuadsProper()
    ensures |Quad().points| == 4 && |Quad().faces| == 2 && Proper(Quad())
    ensures |RampQuad().points| == 4 && |RampQuad().faces| == 2 && Proper(RampQuad())
  {
  }
}
