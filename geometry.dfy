/**
  Shared vocabulary: the crate's `Either`, Rust's `Option`, and the 2-D points
  and two-point lines (`Line2<N> = [Point2<N>; 2]`) that the rasteriser and the
  clipper use. Floating-point coordinates are modelled as `real`, pixel
  coordinates (`isize`) as `int`.
*/
module Geometry {

  datatype Option<T> = None | Some(value: T)

  /** `Either` of src/lib.rs: a single point, or a segment (collinear overlap). */
  datatype Either<L, R> = A(left: L) | B(right: R)

  /** `Point2<f64>` */
  datatype Point = Pt(x: real, y: real)

  /** `Line2<f64>`: a directed pair of points. */
  datatype Line = Seg(p0: Point, p1: Point) {
    /** The line with its endpoints swapped, `[l[1], l[0]]`. */
    function Swap(): Line { Seg(p1, p0) }
  }

  /** A 3-D point or vector (`[f32; 3]`, `Point3`, `Vector3`). */
  datatype Vec3 = Vec3(x: real, y: real, z: real)

  /** `Point2<isize>`, a pixel coordinate. */
  datatype IPoint = IPt(x: int, y: int)

  /** `Line2<isize>` */
  datatype ILine = ISeg(p0: IPoint, p1: IPoint) {
    /** The line with its endpoints swapped, `[l[1], l[0]]`. */
    function Swap(): ILine { ISeg(p1, p0) }
  }

  function Abs(x: int): nat { if x < 0 then -x else x }

  /** `isize::signum` */
  function Sign(x: int): int { if x < 0 then -1 else if x == 0 then 0 else 1 }

  /** `n` steps in the direction of the sign of `d`: `d.signum() * n` without the product. */
  function Toward(d: int, n: int): int { if d < 0 then -n else if d == 0 then 0 else n }

  lemma SignIsToward(d: int)
    ensures Sign(d) == Toward(d, 1)
  {
  }

  /** One more step in the direction of `d` adds `sign(d)`. */
  lemma TowardStep(d: int, n: int)
    ensures Toward(d, n + 1) == Toward(d, n) + Sign(d)
  {
  }

  function Min(a: int, b: int): int { if a <= b then a else b }

  function Max(a: int, b: int): int { if a <= b then b else a }

  function Add(a: Point, b: Point): Point { Pt(a.x + b.x, a.y + b.y) }

  function Sub(a: Point, b: Point): Point { Pt(a.x - b.x, a.y - b.y) }

  function Scale(a: Point, t: real): Point { Pt(a.x * t, a.y * t) }

  /** Direction vector of a line, `l[1] - l[0]`. */
  function Dir(l: Line): Point { Sub(l.p1, l.p0) }

  /** The 2-D cross product `a[0] * b[1] - a[1] * b[0]`. */
  function Cross(a: Point, b: Point): real { a.x * b.y - a.y * b.x }

  /** The point at parameter `t` along `a -> b`: `a + (b - a) * t`. */
  function Lerp(a: Point, b: Point, t: real): Point { Add(a, Scale(Sub(b, a), t)) }

  /** `f64::EPSILON` = 2^-52, the default tolerance of the `approx` crate. */
  const Epsilon: real := 1.0 / 4503599627370496.0

  /**
    `relative_eq!(x, 0.0)` with the default tolerances: the absolute difference
    test `|x - 0| <= EPSILON` decides it (the relative test against 0 only
    accepts 0 itself).
  */
  predicate NearZero(x: real) { -Epsilon <= x <= Epsilon }

  /** `p` lies on the segment `l`: some `t` in [0, 1] reaches it. */
  ghost predicate OnSegment(p: Point, l: Line) {
    exists t: real :: 0.0 <= t <= 1.0 && p == Lerp(l.p0, l.p1, t)
  }

  /** `p` lies on the infinite line through `l`. */
  predicate OnLine(p: Point, l: Line) { Cross(Sub(p, l.p0), Dir(l)) == 0.0 }

  /**
    A point between `a` and `b` keeps every bound on `x` and on `y` that both
    `a` and `b` satisfy: the half-planes of an axis-aligned rectangle are convex.
  */
  lemma LerpBetween(a: Point, b: Point, t: real)
    requires 0.0 <= t <= 1.0
    ensures MinR(a.x, b.x) <= Lerp(a, b, t).x <= MaxR(a.x, b.x)
    ensures MinR(a.y, b.y) <= Lerp(a, b, t).y <= MaxR(a.y, b.y)
  {
    var p := Lerp(a, b, t);
    assert p.x == (1.0 - t) * a.x + t * b.x;
    assert p.y == (1.0 - t) * a.y + t * b.y;
    MixBetween(a.x, b.x, t);
    MixBetween(a.y, b.y, t);
  }

  function MinR(a: real, b: real): real { if a <= b then a else b }

  function MaxR(a: real, b: real): real { if a <= b then b else a }

  /** A mix `(1 - t)u + tv` with `t` in [0, 1] lies between `u` and `v`. */
  lemma MixBetween(u: real, v: real, t: real)
    requires 0.0 <= t <= 1.0
    ensures MinR(u, v) <= (1.0 - t) * u + t * v <= MaxR(u, v)
  {
    var m := (1.0 - t) * u + t * v;
    var d := v - u;
    assert m - u == t * d;
    assert v - m == (1.0 - t) * d;
    if u <= v {
      assert 0.0 <= t * d;
      assert 0.0 <= (1.0 - t) * d;
    } else {
      assert t * d <= 0.0;
      assert (1.0 - t) * d <= 0.0;
    }
  }
}
