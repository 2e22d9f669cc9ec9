/** The collinear overlap of two integer segments, as exact parameters on the second
    (tools/lightning_gate/record.py, `_cross` and `_segment_overlap`). Python's `Fraction` is `real`. */
module SegmentOverlap {
  import opened Options

  datatype Point = Point(x: int, y: int)

  datatype Interval = Interval(low: real, high: real)

  function Cross(a: Point, b: Point, c: Point): int {
    (b.x - a.x) * (c.y - a.y) - (b.y - a.y) * (c.x - a.x)
  }

  function LengthSquared(a: Point, b: Point): int {
    (b.x - a.x) * (b.x - a.x) + (b.y - a.y) * (b.y - a.y)
  }

  function Dot(a: Point, b: Point, c: Point): int {
    (c.x - a.x) * (b.x - a.x) + (c.y - a.y) * (b.y - a.y)
  }

  /** The end of a boundary segment passes when it is close enough to the source line. */
  predicate NearLine(point: Point, sourceStart: Point, sourceEnd: Point, tolerance: int) {
    var cross := Cross(sourceStart, sourceEnd, point);
    if tolerance == 0 then cross == 0
    else cross * cross <= tolerance * tolerance * LengthSquared(sourceStart, sourceEnd)
  }

  function Projection(point: Point, sourceStart: Point, sourceEnd: Point): real
    requires LengthSquared(sourceStart, sourceEnd) != 0
  {
    Dot(sourceStart, sourceEnd, point) as real / LengthSquared(sourceStart, sourceEnd) as real
  }

  function Overlap(boundaryStart: Point, boundaryEnd: Point, sourceStart: Point, sourceEnd: Point, tolerance: int)
    : (r: Option<Interval>)
    ensures r.Some? ==> 0.0 <= r.value.low < r.value.high <= 1.0
  {
    if LengthSquared(sourceStart, sourceEnd) == 0 then None
    else if !NearLine(boundaryStart, sourceStart, sourceEnd, tolerance) then None
    else if !NearLine(boundaryEnd, sourceStart, sourceEnd, tolerance) then None
    else
      var p := Projection(boundaryStart, sourceStart, sourceEnd);
      var q := Projection(boundaryEnd, sourceStart, sourceEnd);
      var (low, high) := if p > q then (q, p) else (p, q);
      var low' := if low > 0.0 then low else 0.0;
      var high' := if high < 1.0 then high else 1.0;
      if high' <= low' then None else Some(Interval(low', high'))
  }

  // ---- The geometric meaning ----

  datatype RealPoint = RealPoint(x: real, y: real)

  /** The point at parameter `t` on the line through `a` and `b`. */
  function At(a: Point, b: Point, t: real): RealPoint {
    RealPoint(a.x as real + t * (b.x - a.x) as real, a.y as real + t * (b.y - a.y) as real)
  }

  ghost predicate On(p: RealPoint, a: Point, b: Point) {
    exists t: real :: 0.0 <= t <= 1.0 && At(a, b, t) == p
  }

  /** Two different points, hence by convexity a piece of positive length, lie on both segments. */
  ghost predicate SharePiece(a: Point, b: Point, c: Point, d: Point) {
    exists p, q :: p != q && On(p, a, b) && On(q, a, b) && On(p, c, d) && On(q, c, d)
  }

  /** The parameters of `r` are exactly the source parameters whose points lie on the boundary. */
  ghost predicate ExactParameters(r: Interval, boundaryStart: Point, boundaryEnd: Point,
                                  sourceStart: Point, sourceEnd: Point)
  {
    forall t: real ::
      r.low <= t <= r.high <==>
      0.0 <= t <= 1.0 && On(At(sourceStart, sourceEnd, t), boundaryStart, boundaryEnd)
  }

  lemma SquaresPositive(x: int, y: int)
    requires x * x + y * y == 0
    ensures x == 0 && y == 0
  {
    assert x * x >= 0 && y * y >= 0;
    assert x != 0 ==> x * x > 0;
    assert y != 0 ==> y * y > 0;
  }

  lemma LengthZero(a: Point, b: Point)
    ensures LengthSquared(a, b) == 0 <==> a == b
    ensures LengthSquared(a, b) >= 0
  {
    var x, y := b.x - a.x, b.y - a.y;
    assert x * x >= 0 && y * y >= 0;
    if LengthSquared(a, b) == 0 { SquaresPositive(x, y); }
  }

  lemma DotTimes(dx: int, dy: int, vx: int, vy: int)
    requires dx * vy == dy * vx
    ensures (vx * dx + vy * dy) * dx == (dx * dx + dy * dy) * vx
  {
    calc { (vx * dx + vy * dy) * dx; vx * dx * dx + (vy * dx) * dy; vx * dx * dx + (dy * vx) * dy; }
  }

  /** A point on the line sits at the parameter that `Projection` computes. */
  lemma ProjectionIsParameter(p: Point, a: Point, b: Point)
    requires a != b && Cross(a, b, p) == 0
    ensures LengthSquared(a, b) != 0
    ensures At(a, b, Projection(p, a, b)) == RealPoint(p.x as real, p.y as real)
  {
    LengthZero(a, b);
    var dx, dy, vx, vy := b.x - a.x, b.y - a.y, p.x - a.x, p.y - a.y;
    var l, dot := dx * dx + dy * dy, vx * dx + vy * dy;
    assert dx * vy == dy * vx;
    DotTimes(dx, dy, vx, vy);
    DotTimes(dy, dx, vy, vx);
    Scale(dot, dx, l, vx);
    Scale(dot, dy, l, vy);
  }

  lemma Scale(dot: int, d: int, l: int, v: int)
    requires l != 0 && dot * d == l * v
    ensures dot as real / l as real * d as real == v as real
  {
    assert (dot * d) as real == dot as real * d as real;
    assert (l * v) as real == l as real * v as real;
    var q := dot as real / l as real;
    assert q * l as real == dot as real;
    assert q * d as real * l as real == v as real * l as real;
  }

  lemma AtInjective(a: Point, b: Point, t: real, u: real)
    requires a != b && At(a, b, t) == At(a, b, u)
    ensures t == u
  {
    var dx, dy := (b.x - a.x) as real, (b.y - a.y) as real;
    assert (t - u) * dx == 0.0 && (t - u) * dy == 0.0;
    assert dx != 0.0 || dy != 0.0;
  }

  /** The boundary segment, seen through the parameters of its two ends on the source line. */
  lemma AtAffine(a: Point, b: Point, c: Point, d: Point, p: real, q: real, u: real)
    requires At(c, d, p) == RealPoint(a.x as real, a.y as real)
    requires At(c, d, q) == RealPoint(b.x as real, b.y as real)
    ensures At(a, b, u) == At(c, d, p + u * (q - p))
  {
    var dx, dy := (d.x - c.x) as real, (d.y - c.y) as real;
    assert (b.x - a.x) as real == (q - p) * dx;
    assert (b.y - a.y) as real == (q - p) * dy;
    AffineStep(p, q, u, dx);
    AffineStep(p, q, u, dy);
  }

  lemma AffineStep(p: real, q: real, u: real, d: real)
    ensures p * d + u * ((q - p) * d) == (p + u * (q - p)) * d
  {
  }

  lemma OnImpliesBetween(a: Point, b: Point, c: Point, d: Point, p: real, q: real, t: real, u: real)
    requires c != d && 0.0 <= u <= 1.0 && At(a, b, u) == At(c, d, t)
    requires At(a, b, u) == At(c, d, p + u * (q - p))
    ensures p <= t <= q || q <= t <= p
  {
    var m := p + u * (q - p);
    Convex(p, q, u, m);
    AtInjective(c, d, t, m);
  }

  lemma BetweenParameter(p: real, q: real, t: real) returns (u: real)
    requires p <= t <= q || q <= t <= p
    ensures 0.0 <= u <= 1.0 && p + u * (q - p) == t
  {
    u := if p == q then 0.0 else (t - p) / (q - p);
    if p != q { Ratio(t - p, q - p); }
  }

  lemma OnIffBetween(a: Point, b: Point, c: Point, d: Point, p: real, q: real, t: real)
    requires c != d
    requires At(c, d, p) == RealPoint(a.x as real, a.y as real)
    requires At(c, d, q) == RealPoint(b.x as real, b.y as real)
    ensures On(At(c, d, t), a, b) <==> p <= t <= q || q <= t <= p
  {
    var target := At(c, d, t);
    if On(target, a, b) {
      var u: real :| 0.0 <= u <= 1.0 && At(a, b, u) == target;
      AtAffine(a, b, c, d, p, q, u);
      OnImpliesBetween(a, b, c, d, p, q, t, u);
    }
    if p <= t <= q || q <= t <= p {
      var u := BetweenParameter(p, q, t);
      AtAffine(a, b, c, d, p, q, u);
    }
  }

  lemma Convex(p: real, q: real, u: real, m: real)
    requires 0.0 <= u <= 1.0 && m == p + u * (q - p)
    ensures p <= m <= q || q <= m <= p
  {
    if p <= q {
      ProductNonNegative(u, q - p);
      ProductNonNegative(1.0 - u, q - p);
    } else {
      ProductNonNegative(u, p - q);
      ProductNonNegative(1.0 - u, p - q);
    }
  }

  lemma ProductNonNegative(x: real, y: real)
    requires 0.0 <= x && 0.0 <= y
    ensures 0.0 <= x * y
  {
  }

  lemma Ratio(n: real, m: real)
    requires m != 0.0 && (0.0 <= n <= m || m <= n <= 0.0)
    ensures 0.0 <= n / m <= 1.0 && n / m * m == n
  {
  }

  /** A returned interval is exactly the set of source parameters lying on the boundary. */
  lemma OverlapIsExact(a: Point, b: Point, c: Point, d: Point)
    ensures Overlap(a, b, c, d, 0).Some? ==> ExactParameters(Overlap(a, b, c, d, 0).value, a, b, c, d)
  {
    if Overlap(a, b, c, d, 0).Some? {
      LengthZero(c, d);
      ProjectionIsParameter(a, c, d);
      ProjectionIsParameter(b, c, d);
      var p, q := Projection(a, c, d), Projection(b, c, d);
      var r := Overlap(a, b, c, d, 0).value;
      forall t: real
        ensures r.low <= t <= r.high <==> 0.0 <= t <= 1.0 && On(At(c, d, t), a, b)
      {
        OnIffBetween(a, b, c, d, p, q, t);
      }
    }
  }

  lemma SharedPieceIsCollinear(a: Point, b: Point, c: Point, d: Point, t1: real, t2: real, u1: real, u2: real)
    requires t1 != t2
    requires At(c, d, t1) == At(a, b, u1) && At(c, d, t2) == At(a, b, u2)
    requires At(c, d, t1) != At(c, d, t2)
    ensures Cross(c, d, a) == 0 && Cross(c, d, b) == 0
  {
    var dx, dy := (d.x - c.x) as real, (d.y - c.y) as real;
    var ex, ey := (b.x - a.x) as real, (b.y - a.y) as real;
    var vx, vy := (a.x - c.x) as real, (a.y - c.y) as real;
    assert vx == t1 * dx - u1 * ex && vy == t1 * dy - u1 * ey;
    assert (t1 - t2) * dx == (u1 - u2) * ex && (t1 - t2) * dy == (u1 - u2) * ey;
    Parallel(dx, dy, ex, ey, t1 - t2, u1 - u2);
    CrossOfCombination(dx, dy, ex, ey, t1, u1);
    assert dx * vy - dy * vx == 0.0;
    assert dx * (vy + ey) - dy * (vx + ex) == 0.0;
    CrossAsReal(c, d, a);
    CrossAsReal(c, d, b);
    assert (b.x - c.x) as real == vx + ex && (b.y - c.y) as real == vy + ey;
  }

  lemma CrossAsReal(a: Point, b: Point, c: Point)
    ensures Cross(a, b, c) as real
         == (b.x - a.x) as real * (c.y - a.y) as real - (b.y - a.y) as real * (c.x - a.x) as real
  {
    assert ((b.x - a.x) * (c.y - a.y)) as real == (b.x - a.x) as real * (c.y - a.y) as real;
    assert ((b.y - a.y) * (c.x - a.x)) as real == (b.y - a.y) as real * (c.x - a.x) as real;
  }

  lemma Parallel(dx: real, dy: real, ex: real, ey: real, s: real, w: real)
    requires s != 0.0 && s * dx == w * ex && s * dy == w * ey
    ensures dx * ey == dy * ex
  {
    calc { s * (dx * ey); (w * ex) * ey; (w * ey) * ex; s * (dy * ex); }
  }

  lemma CrossOfCombination(dx: real, dy: real, ex: real, ey: real, t: real, u: real)
    requires dx * ey == dy * ex
    ensures dx * (t * dy - u * ey) - dy * (t * dx - u * ex) == 0.0
  {
    calc {
      dx * (t * dy - u * ey) - dy * (t * dx - u * ex);
      u * (dy * ex) - u * (dx * ey);
      0.0;
    }
  }

  lemma OverlapSharesPiece(a: Point, b: Point, c: Point, d: Point)
    requires Overlap(a, b, c, d, 0).Some?
    ensures SharePiece(a, b, c, d)
  {
    OverlapIsExact(a, b, c, d);
    LengthZero(c, d);
    var r := Overlap(a, b, c, d, 0).value;
    var p, q := At(c, d, r.low), At(c, d, r.high);
    if p == q { AtInjective(c, d, r.low, r.high); }
    assert On(p, a, b) && On(q, a, b) && On(p, c, d) && On(q, c, d);
  }

  lemma SharedPointsOverlap(a: Point, b: Point, c: Point, d: Point, t1: real, t2: real, u1: real, u2: real)
    requires 0.0 <= t1 <= 1.0 && 0.0 <= t2 <= 1.0 && 0.0 <= u1 <= 1.0 && 0.0 <= u2 <= 1.0
    requires At(c, d, t1) == At(a, b, u1) && At(c, d, t2) == At(a, b, u2)
    requires t1 != t2 && At(c, d, t1) != At(c, d, t2)
    ensures Overlap(a, b, c, d, 0).Some?
  {
    SharedPieceIsCollinear(a, b, c, d, t1, t2, u1, u2);
    LengthZero(c, d);
    ProjectionIsParameter(a, c, d);
    ProjectionIsParameter(b, c, d);
    OnIffBetween(a, b, c, d, Projection(a, c, d), Projection(b, c, d), t1);
    OnIffBetween(a, b, c, d, Projection(a, c, d), Projection(b, c, d), t2);
  }

  /** At tolerance 0 an interval is returned if and only if the segments share a piece of positive length. */
  lemma OverlapIffSharePiece(a: Point, b: Point, c: Point, d: Point)
    ensures Overlap(a, b, c, d, 0).Some? <==> SharePiece(a, b, c, d)
  {
    if Overlap(a, b, c, d, 0).Some? { OverlapSharesPiece(a, b, c, d); }
    if SharePiece(a, b, c, d) {
      var p, q :| p != q && On(p, a, b) && On(q, a, b) && On(p, c, d) && On(q, c, d);
      var t1: real :| 0.0 <= t1 <= 1.0 && At(c, d, t1) == p;
      var t2: real :| 0.0 <= t2 <= 1.0 && At(c, d, t2) == q;
      var u1: real :| 0.0 <= u1 <= 1.0 && At(a, b, u1) == p;
      var u2: real :| 0.0 <= u2 <= 1.0 && At(a, b, u2) == q;
      SharedPointsOverlap(a, b, c, d, t1, t2, u1, u2);
    }
  }

  /** Exact overlap does not depend on which segment plays the source. */
  lemma OverlapSymmetric(a: Point, b: Point, c: Point, d: Point)
    ensures Overlap(a, b, c, d, 0).Some? <==> Overlap(c, d, a, b, 0).Some?
  {
    OverlapIffSharePiece(a, b, c, d);
    OverlapIffSharePiece(c, d, a, b);
    if SharePiece(a, b, c, d) {
      var p, q :| p != q && On(p, a, b) && On(q, a, b) && On(p, c, d) && On(q, c, d);
      assert SharePiece(c, d, a, b);
    }
    if SharePiece(c, d, a, b) {
      var p, q :| p != q && On(p, c, d) && On(q, c, d) && On(p, a, b) && On(q, a, b);
      assert SharePiece(a, b, c, d);
    }
  }

  /** The order of the boundary's end points does not matter, at any tolerance. */
  lemma OverlapIgnoresBoundaryDirection(a: Point, b: Point, c: Point, d: Point, tolerance: int)
    ensures Overlap(b, a, c, d, tolerance) == Overlap(a, b, c, d, tolerance)
  {
  }

  /** Reversing the source segment mirrors the interval, at any tolerance. */
  lemma OverlapMirrorsSourceDirection(a: Point, b: Point, c: Point, d: Point, tolerance: int)
    ensures Overlap(a, b, d, c, tolerance)
         == match Overlap(a, b, c, d, tolerance)
            case None => None
            case Some(r) => Some(Interval(1.0 - r.high, 1.0 - r.low))
  {
    MirrorPoint(a, c, d);
    MirrorPoint(b, c, d);
  }

  lemma MirrorPoint(p: Point, c: Point, d: Point)
    ensures LengthSquared(d, c) == LengthSquared(c, d)
    ensures Cross(d, c, p) == -Cross(c, d, p)
    ensures Cross(d, c, p) * Cross(d, c, p) == Cross(c, d, p) * Cross(c, d, p)
    ensures LengthSquared(c, d) != 0 ==> Projection(p, d, c) == 1.0 - Projection(p, c, d)
  {
    var dx, dy, vx, vy := d.x - c.x, d.y - c.y, p.x - c.x, p.y - c.y;
    MirrorProducts(dx, dy, vx, vy);
    assert c.x - d.x == -dx && c.y - d.y == -dy && p.x - d.x == vx - dx && p.y - d.y == vy - dy;
    assert LengthSquared(d, c) == (-dx) * (-dx) + (-dy) * (-dy);
    assert Cross(d, c, p) == (-dx) * (vy - dy) - (-dy) * (vx - dx);
    assert Dot(d, c, p) == (vx - dx) * (-dx) + (vy - dy) * (-dy);
    if LengthSquared(c, d) != 0 {
      MirrorRatio(LengthSquared(c, d) as real, Dot(c, d, p) as real);
    }
    SquareOfNegation(Cross(c, d, p));
  }

  lemma MirrorProducts(dx: int, dy: int, vx: int, vy: int)
    ensures (-dx) * (-dx) + (-dy) * (-dy) == dx * dx + dy * dy
    ensures (-dx) * (vy - dy) - (-dy) * (vx - dx) == -(dx * vy - dy * vx)
    ensures (vx - dx) * (-dx) + (vy - dy) * (-dy) == dx * dx + dy * dy - (vx * dx + vy * dy)
  {
  }

  lemma SquareOfNegation(x: int)
    ensures (-x) * (-x) == x * x
  {
  }

  lemma MirrorRatio(l: real, m: real)
    requires l != 0.0
    ensures (l - m) / l == 1.0 - m / l
  {
    var x, q := (l - m) / l, m / l;
    assert x * l == l - m && (1.0 - q) * l == l - m;
    Cancel(x, 1.0 - q, l);
  }

  lemma Cancel(x: real, y: real, l: real)
    requires l != 0.0 && x * l == y * l
    ensures x == y
  {
  }

  /** Two ends near the line whose projections differ, the first at the start of the source. */
  lemma NearAndInside(a: Point, b: Point, c: Point, d: Point, tolerance: int)
    requires LengthSquared(c, d) > 0 && Dot(c, d, a) == 0 < Dot(c, d, b) <= LengthSquared(c, d)
    requires NearLine(a, c, d, tolerance) && NearLine(b, c, d, tolerance)
    ensures Overlap(a, b, c, d, tolerance).Some?
  {
    assert Projection(a, c, d) == 0.0;
    assert Projection(b, c, d) > 0.0;
  }

  lemma LongLength(a: Point, d: Point)
    requires a == Point(0, 0) && d == Point(4, 0)
    ensures LengthSquared(a, d) == 16
  {
  }

  lemma LongDots(a: Point, b: Point, d: Point)
    requires a == Point(0, 0) && b == Point(1, 1) && d == Point(4, 0)
    ensures Dot(a, d, a) == 0 && Dot(a, d, b) == 4
  {
  }

  lemma NearTheLongSide(a: Point, b: Point, d: Point)
    requires a == Point(0, 0) && b == Point(1, 1) && d == Point(4, 0)
    ensures NearLine(a, a, d, 1) && NearLine(b, a, d, 1)
  {
  }

  /** One unit of tolerance is measured from the source line only. A short boundary next to a long source
      overlaps it */
  lemma TolerantOverlapFromTheLongSide(a: Point, b: Point, d: Point)
    requires a == Point(0, 0) && b == Point(1, 1) && d == Point(4, 0)
    ensures Overlap(a, b, a, d, 1).Some?
  {
    LongLength(a, d);
    LongDots(a, b, d);
    NearTheLongSide(a, b, d);
    NearAndInside(a, b, a, d, 1);
  }

  /** while the same two segments with their roles swapped do not overlap. */
  lemma TolerantOverlapFromTheShortSide(a: Point, b: Point, d: Point)
    requires a == Point(0, 0) && b == Point(1, 1) && d == Point(4, 0)
    ensures Overlap(a, d, a, b, 1).None?
  {
    assert Cross(a, b, d) == -4 && LengthSquared(a, b) == 2;
    assert !NearLine(d, a, b, 1);
  }

  /** Neither sees the other exactly. */
  lemma NoExactOverlap(a: Point, b: Point, d: Point)
    requires a == Point(0, 0) && b == Point(1, 1) && d == Point(4, 0)
    ensures Overlap(a, b, a, d, 0).None? && Overlap(a, d, a, b, 0).None?
  {
    assert Cross(a, d, b) == 4 && Cross(a, b, d) == -4;
    assert !NearLine(b, a, d, 0) && !NearLine(d, a, b, 0);
  }
}
