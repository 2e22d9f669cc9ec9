/** Overlap at a positive tolerance, from both sides (tools/lightning_gate/record.py, `_segment_overlap`). The test
    measures distances from the source line only, so swapping the segments changes what is asked; on integer
    coordinates and one unit of tolerance, the distances are all that can differ. */
module TolerantOverlap {
  import opened Options
  import opened SegmentOverlap

  // ---- The test as one guard ----

  /** The stretch between two parameters is not empty and reaches into the open interval from 0 to 1. */
  predicate MeetsInside(p: real, q: real) {
    p != q && (p < 1.0 || q < 1.0) && (p > 0.0 || q > 0.0)
  }

  /** Both ends of the first segment are near the second one's line. */
  predicate EndsNear(a: Point, b: Point, c: Point, d: Point, tolerance: int) {
    NearLine(a, c, d, tolerance) && NearLine(b, c, d, tolerance)
  }

  /** The source segment has length, both ends of the boundary are near its line, and their projections differ and
      meet its inside. */
  predicate PassesGuard(a: Point, b: Point, c: Point, d: Point, tolerance: int) {
    && LengthSquared(c, d) != 0
    && EndsNear(a, b, c, d, tolerance)
    && MeetsInside(Projection(a, c, d), Projection(b, c, d))
  }

  /** An interval is returned if and only if the guard passes, at any tolerance. */
  lemma OverlapIffGuard(a: Point, b: Point, c: Point, d: Point, tolerance: int)
    ensures Overlap(a, b, c, d, tolerance).Some? <==> PassesGuard(a, b, c, d, tolerance)
  {
  }

  // ---- In integers ----

  datatype Vector = Vector(x: int, y: int)

  function Minus(p: Point, q: Point): Vector { Vector(p.x - q.x, p.y - q.y) }

  function Plus(u: Vector, v: Vector): Vector { Vector(u.x + v.x, u.y + v.y) }

  function Neg(u: Vector): Vector { Vector(-u.x, -u.y) }

  function Inner(u: Vector, v: Vector): int { u.x * v.x + u.y * v.y }

  function Outer(u: Vector, v: Vector): int { u.x * v.y - u.y * v.x }

  lemma AsVectors(a: Point, b: Point, p: Point)
    ensures LengthSquared(a, b) == Inner(Minus(b, a), Minus(b, a))
    ensures Dot(a, b, p) == Inner(Minus(p, a), Minus(b, a))
    ensures Cross(a, b, p) == Outer(Minus(b, a), Minus(p, a))
  {
  }

  lemma SumOfProducts(u: Vector, v: Vector, w: Vector)
    ensures Inner(Plus(u, v), w) == Inner(u, w) + Inner(v, w)
    ensures Outer(w, Plus(u, v)) == Outer(w, u) + Outer(w, v)
    ensures Inner(Neg(u), w) == -Inner(u, w) && Outer(w, Neg(u)) == -Outer(w, u)
    ensures Inner(u, w) == Inner(w, u) && Outer(u, w) == -Outer(w, u)
    ensures Outer(w, w) == 0
  {
  }

  lemma FourProducts(p: int, q: int, r: int, s: int)
    ensures (p + q) * (r + s) == p * r + p * s + q * r + q * s
  {
  }

  lemma Regroup(p: int, q: int, r: int, s: int)
    ensures (p * q) * (r * s) == (p * r) * (q * s)
  {
  }

  lemma InnerProducts(p: Vector, u: Vector, v: Vector)
    ensures Inner(p, v) * Inner(u, v)
         == (p.x * u.x) * (v.x * v.x) + (p.x * u.y) * (v.x * v.y)
          + (p.y * u.x) * (v.x * v.y) + (p.y * u.y) * (v.y * v.y)
  {
    FourProducts(p.x * v.x, p.y * v.y, u.x * v.x, u.y * v.y);
    Regroup(p.x, v.x, u.x, v.x);
    Regroup(p.x, v.x, u.y, v.y);
    Regroup(p.y, v.y, u.x, v.x);
    Regroup(p.y, v.y, u.y, v.y);
  }

  lemma OuterProducts(p: Vector, u: Vector, v: Vector)
    ensures Outer(v, p) * Outer(v, u)
         == (p.y * u.y) * (v.x * v.x) - (p.y * u.x) * (v.x * v.y)
          - (p.x * u.y) * (v.x * v.y) + (p.x * u.x) * (v.y * v.y)
  {
    FourProducts(v.x * p.y, -(v.y * p.x), v.x * u.y, -(v.y * u.x));
    Regroup(v.x, p.y, v.x, u.y);
    Regroup(v.x, p.y, v.y, u.x);
    Regroup(v.y, p.x, v.x, u.y);
    Regroup(v.y, p.x, v.y, u.x);
    Signs(v.x * p.y, v.y * u.x, v.y * p.x, v.x * u.y);
  }

  lemma Signs(p: int, q: int, r: int, s: int)
    ensures p * -q == -(p * q) && -r * s == -(r * s) && -r * -q == r * q
  {
  }

  /** A product of two vectors, taken apart along and across a third. */
  lemma Decompose(p: Vector, u: Vector, v: Vector)
    ensures Inner(p, u) * Inner(v, v) == Inner(p, v) * Inner(u, v) + Outer(v, p) * Outer(v, u)
  {
    InnerProducts(p, u, v);
    OuterProducts(p, u, v);
    FourProducts(p.x * u.x, p.y * u.y, v.x * v.x, v.y * v.y);
  }

  /** Projections compare as their numerators do. */
  lemma MeetsInNumerators(x: int, y: int, l: int)
    requires l > 0
    ensures MeetsInside(x as real / l as real, y as real / l as real)
       <==> x != y && (x < l || y < l) && (x > 0 || y > 0)
  {
    Numerator(x, l);
    Numerator(y, l);
    if x as real / l as real == y as real / l as real {
      assert x as real == y as real;
    }
  }

  lemma Numerator(x: int, l: int)
    requires l > 0
    ensures x as real / l as real * l as real == x as real
    ensures x as real / l as real < 1.0 <==> x < l
    ensures x as real / l as real > 0.0 <==> x > 0
  {
    var q := x as real / l as real;
    assert q * l as real == x as real;
    OrderOfProducts(q, 1.0, l as real);
    OrderOfProducts(0.0, q, l as real);
  }

  lemma OrderOfProducts(p: real, q: real, l: real)
    requires l > 0.0
    ensures p < q <==> p * l < q * l
  {
    if p < q { assert (q - p) * l > 0.0; }
    if p > q { assert (p - q) * l > 0.0; }
  }

  // ---- What integer coordinates give ----

  /** Of two integer vectors, `e` and `f` are the parts along a third one of squared length `l`, `x` and `y` those
      across. When the parts across add up to no more than its length, the parts along outweigh them. */
  lemma LatticeStep(e: int, f: int, x: int, y: int, l: int, m: int, n: int)
    requires e > 0 && f > 0 && l > 0 && m >= 1 && n >= 1
    requires e * e + x * x == m * l && f * f + y * y == n * l
    requires x * y > 0 && (x + y) * (x + y) <= l
    ensures e * f > x * y
  {
    var xx, yy, xy := x * x, y * y, x * y;
    FourProducts(x, y, x, y);
    assert xx >= 0 && yy >= 0 && xx + 2 * xy + yy <= l;
    AtLeast(m, l);
    AtLeast(n, l);
    ProductsAbove(e * e, f * f, l - xx, l - yy);
    CrossTerms(l, xx, yy);
    Regroup(x, x, y, y);
    Regroup(e, e, f, f);
    RootsAbove(e * f, xy);
  }

  lemma AtLeast(m: int, l: int)
    requires m >= 1 && l > 0
    ensures m * l >= l
  {
  }

  lemma CrossTerms(l: int, p: int, q: int)
    requires l > 0 && p + q < l
    ensures (l - p) * (l - q) > p * q
  {
    FourProducts(l, -p, l, -q);
    assert l * (l - p - q) > 0;
  }

  lemma ProductsAbove(p: int, q: int, a: int, b: int)
    requires p >= a > 0 && q >= b > 0
    ensures p * q >= a * b
  {
    assert p * q >= a * q >= a * b;
  }

  lemma RootsAbove(p: int, q: int)
    requires p > 0 && q > 0 && p * p > q * q
    ensures p > q
  {
    assert p <= q ==> p * p <= p * q && p * q <= q * q;
  }

  /** Two integer vectors that both point along `v`, and whose parts across it differ by at most its length, point
      along each other. */
  lemma Along(p: Vector, u: Vector, v: Vector)
    requires Inner(v, v) > 0 && Inner(p, v) > 0 && Inner(u, v) > 0
    requires Square(Outer(v, p) - Outer(v, u)) <= Inner(v, v)
    ensures Inner(p, u) > 0
  {
    var l, e, f, x, y := Inner(v, v), Inner(p, v), Inner(u, v), Outer(v, p), Outer(v, u);
    Decompose(p, p, v);
    Decompose(u, u, v);
    Decompose(p, u, v);
    PositiveFactor(Inner(p, p), l, e, x);
    PositiveFactor(Inner(u, u), l, f, y);
    assert e * f > 0;
    if x * y < 0 {
      Negate(x, y);
      LatticeStep(e, f, -x, y, l, Inner(p, p), Inner(u, u));
    }
    assert Inner(p, u) * l > 0;
    PositiveProduct(Inner(p, u), l);
  }

  function Square(n: int): int { n * n }

  lemma Negate(x: int, y: int)
    ensures -x * -x == x * x && -x * y == -(x * y) && (-x + y) * (-x + y) == Square(x - y)
  {
  }

  lemma PositiveFactor(m: int, l: int, e: int, x: int)
    requires l > 0 && e > 0 && m * l == e * e + x * x
    ensures m >= 1
  {
    assert e * e > 0 && x * x >= 0;
    PositiveProduct(m, l);
  }

  lemma PositiveProduct(m: int, l: int)
    requires l > 0 && m * l > 0
    ensures m > 0
  {
    assert m <= 0 ==> m * l <= 0;
  }

  // ---- Swapping the segments at one unit ----

  lemma NearInProducts(p: Point, c: Point, d: Point)
    ensures NearLine(p, c, d, 1) <==> Square(Outer(Minus(d, c), Minus(p, c))) <= Inner(Minus(d, c), Minus(d, c))
  {
    AsVectors(c, d, p);
  }

  /** The guard in integers. */
  predicate GuardInProducts(a: Point, b: Point, c: Point, d: Point) {
    var v := Minus(d, c);
    var l, x, y := Inner(v, v), Inner(Minus(a, c), v), Inner(Minus(b, c), v);
    l > 0 && x != y && (x < l || y < l) && (x > 0 || y > 0)
  }

  lemma GuardAsProducts(a: Point, b: Point, c: Point, d: Point, tolerance: int)
    ensures PassesGuard(a, b, c, d, tolerance) <==> EndsNear(a, b, c, d, tolerance) && GuardInProducts(a, b, c, d)
  {
    LengthZero(c, d);
    AsVectors(c, d, a);
    AsVectors(c, d, b);
    if LengthSquared(c, d) > 0 {
      MeetsInNumerators(Dot(c, d, a), Dot(c, d, b), LengthSquared(c, d));
    }
  }

  /** When the boundary runs along the source, the projections meet on the other side as well. */
  lemma MeetsBackForward(a: Point, b: Point, c: Point, d: Point)
    requires EndsNear(a, b, c, d, 1) && GuardInProducts(a, b, c, d)
    requires Inner(Minus(b, a), Minus(d, c)) > 0
    ensures GuardInProducts(c, d, a, b)
  {
    var u, v, w := Minus(b, a), Minus(d, c), Minus(a, c);
    NearInProducts(a, c, d);
    NearInProducts(b, c, d);
    assert Minus(b, c) == Plus(w, u);
    SumOfProducts(w, u, v);
    var ahead := Plus(v, Neg(w));
    SumOfProducts(v, Neg(w), v);
    SumOfProducts(v, Neg(w), u);
    SumOfProducts(w, v, v);
    SumOfProducts(w, v, u);
    SumOfProducts(w, u, u);
    Negate(Outer(v, w), Outer(v, u));
    Opposite(Outer(v, w) + Outer(v, u));
    Along(ahead, u, v);
    Along(Plus(w, u), u, v);
    assert Minus(d, a) == ahead && Minus(c, a) == Neg(w);
    Along(u, u, v);
  }

  lemma Opposite(n: int)
    ensures Square(-n) == Square(n)
  {
  }

  lemma Directed(a: Point, b: Point, c: Point, d: Point)
    ensures Inner(Minus(b, a), Minus(d, c)) == Inner(Minus(b, c), Minus(d, c)) - Inner(Minus(a, c), Minus(d, c))
    ensures Inner(Minus(a, b), Minus(d, c)) == -Inner(Minus(b, a), Minus(d, c))
  {
    assert Minus(b, a) == Plus(Minus(b, c), Neg(Minus(a, c)));
    SumOfProducts(Minus(b, c), Neg(Minus(a, c)), Minus(d, c));
    SumOfProducts(Minus(a, c), Neg(Minus(b, a)), Minus(d, c));
    SumOfProducts(Minus(b, a), Neg(Minus(b, a)), Minus(d, c));
    assert Minus(a, b) == Neg(Minus(b, a));
  }

  /** Reversing the source changes neither the distances nor whether there is an overlap. */
  lemma ReversedSource(a: Point, b: Point, c: Point, d: Point, tolerance: int)
    ensures Overlap(a, b, d, c, tolerance).Some? <==> Overlap(a, b, c, d, tolerance).Some?
    ensures EndsNear(a, b, d, c, tolerance) <==> EndsNear(a, b, c, d, tolerance)
  {
    OverlapMirrorsSourceDirection(a, b, c, d, tolerance);
    MirrorPoint(a, c, d);
    MirrorPoint(b, c, d);
  }

  lemma ReturnedForward(a: Point, b: Point, c: Point, d: Point)
    requires Overlap(a, b, c, d, 1).Some? && EndsNear(c, d, a, b, 1)
    requires Inner(Minus(b, a), Minus(d, c)) > 0
    ensures Overlap(c, d, a, b, 1).Some?
  {
    OverlapIffGuard(a, b, c, d, 1);
    GuardAsProducts(a, b, c, d, 1);
    MeetsBackForward(a, b, c, d);
    GuardAsProducts(c, d, a, b, 1);
    OverlapIffGuard(c, d, a, b, 1);
  }

  /** At one unit of tolerance an overlap is returned, with the segments swapped, if and only if the ends of the
      former source are near the line of the former boundary. */
  lemma ReturnedIffNear(a: Point, b: Point, c: Point, d: Point)
    ensures Overlap(a, b, c, d, 1).Some? ==> (Overlap(c, d, a, b, 1).Some? <==> EndsNear(c, d, a, b, 1))
  {
    if Overlap(a, b, c, d, 1).Some? && EndsNear(c, d, a, b, 1) {
      OverlapIffGuard(a, b, c, d, 1);
      GuardAsProducts(a, b, c, d, 1);
      Directed(a, b, c, d);
      if Inner(Minus(b, a), Minus(d, c)) > 0 {
        ReturnedForward(a, b, c, d);
      } else {
        OverlapIgnoresBoundaryDirection(a, b, c, d, 1);
        ReversedSource(c, d, a, b, 1);
        ReturnedForward(b, a, c, d);
      }
    }
  }

  // ---- Parallel segments ----

  predicate ParallelDirections(a: Point, b: Point, c: Point, d: Point) { Outer(Minus(b, a), Minus(d, c)) == 0 }

  lemma AlongParallel(p: Vector, u: Vector, v: Vector)
    requires Outer(v, u) == 0 && Inner(v, v) > 0 && Inner(p, v) > 0 && Inner(u, v) > 0
    ensures Inner(p, u) > 0
  {
    Decompose(p, u, v);
    assert Inner(p, v) * Inner(u, v) > 0;
    PositiveProduct(Inner(p, u), Inner(v, v));
  }

  lemma MeetsBackParallel(a: Point, b: Point, c: Point, d: Point)
    requires ParallelDirections(a, b, c, d) && GuardInProducts(a, b, c, d)
    requires Inner(Minus(b, a), Minus(d, c)) > 0
    ensures GuardInProducts(c, d, a, b)
  {
    var u, v, w := Minus(b, a), Minus(d, c), Minus(a, c);
    assert Minus(b, c) == Plus(w, u);
    SumOfProducts(w, u, v);
    SumOfProducts(u, v, v);
    SumOfProducts(v, u, u);
    var ahead := Plus(v, Neg(w));
    SumOfProducts(v, Neg(w), v);
    SumOfProducts(v, Neg(w), u);
    SumOfProducts(w, v, v);
    SumOfProducts(w, v, u);
    SumOfProducts(w, u, u);
    assert Outer(v, u) == -Outer(u, v);
    AlongParallel(ahead, u, v);
    AlongParallel(Plus(w, u), u, v);
    AlongParallel(u, u, v);
    assert Minus(d, a) == ahead && Minus(c, a) == Neg(w);
  }

  lemma SameDistance(u: Vector, v: Vector, w: Vector)
    requires Outer(u, v) == 0
    ensures Square(Outer(v, w)) * Inner(u, u) == Square(Outer(u, w)) * Inner(v, v)
  {
    var x, y := Outer(v, w), Outer(u, w);
    Proportional(u.x, u.y, v.x, v.y, w.x, w.y);
    Regroup(x, u.x, x, u.x);
    Regroup(x, u.y, x, u.y);
    Regroup(y, v.x, y, v.x);
    Regroup(y, v.y, y, v.y);
    Distribute(x * x, u.x * u.x, u.y * u.y);
    Distribute(y * y, v.x * v.x, v.y * v.y);
  }

  lemma Distribute(p: int, q: int, r: int)
    ensures p * (q + r) == p * q + p * r
  {
  }

  lemma Proportional(ux: int, uy: int, vx: int, vy: int, wx: int, wy: int)
    requires ux * vy - uy * vx == 0
    ensures (vx * wy - vy * wx) * ux == (ux * wy - uy * wx) * vx
    ensures (vx * wy - vy * wx) * uy == (ux * wy - uy * wx) * vy
  {
    calc {
      (vx * wy - vy * wx) * ux;
      ux * wy * vx - (ux * vy) * wx;
      ux * wy * vx - (uy * vx) * wx;
      (ux * wy - uy * wx) * vx;
    }
    calc {
      (vx * wy - vy * wx) * uy;
      (uy * vx) * wy - uy * wx * vy;
      (ux * vy) * wy - uy * wx * vy;
      (ux * wy - uy * wx) * vy;
    }
  }

  /** A distance within `t` units stays so when it is measured from a parallel line. */
  lemma WithinUnits(x: int, y: int, l: int, m: int, t: int)
    requires l > 0 && m > 0 && x * x * m == y * y * l
    ensures x == 0 ==> y == 0
    ensures x * x <= t * t * l ==> y * y <= t * t * m
  {
    if x == 0 {
      assert y * y * l == 0;
      assert y * y == 0;
    }
    if x * x <= t * t * l {
      assert x * x * m <= t * t * l * m;
      Scaled(y * y, t * t * m, l);
    }
  }

  lemma Scaled(p: int, q: int, l: int)
    requires l > 0 && p * l <= q * l
    ensures p <= q
  {
    assert p > q ==> p * l > q * l;
  }

  lemma NearParallel(a: Point, b: Point, c: Point, d: Point, tolerance: int)
    requires ParallelDirections(a, b, c, d) && a != b && c != d && EndsNear(a, b, c, d, tolerance)
    ensures EndsNear(c, d, a, b, tolerance)
  {
    var u, v, w := Minus(b, a), Minus(d, c), Minus(a, c);
    LengthZero(a, b);
    LengthZero(c, d);
    AsVectors(a, b, c);
    AsVectors(a, b, d);
    AsVectors(c, d, a);
    SameDistance(u, v, w);
    WithinUnits(Outer(v, w), Outer(u, w), Inner(v, v), Inner(u, u), tolerance);
    assert Minus(c, a) == Neg(w) && Minus(d, a) == Plus(v, Neg(w));
    SumOfProducts(w, Neg(w), u);
    SumOfProducts(v, Neg(w), u);
    Opposite(Outer(u, w));
  }

  lemma ParallelForward(a: Point, b: Point, c: Point, d: Point, tolerance: int)
    requires ParallelDirections(a, b, c, d) && Overlap(a, b, c, d, tolerance).Some?
    requires Inner(Minus(b, a), Minus(d, c)) > 0
    ensures Overlap(c, d, a, b, tolerance).Some?
  {
    OverlapIffGuard(a, b, c, d, tolerance);
    GuardAsProducts(a, b, c, d, tolerance);
    MeetsBackParallel(a, b, c, d);
    LengthZero(c, d);
    NearParallel(a, b, c, d, tolerance);
    GuardAsProducts(c, d, a, b, tolerance);
    OverlapIffGuard(c, d, a, b, tolerance);
  }

  lemma ParallelBack(a: Point, b: Point, c: Point, d: Point, tolerance: int)
    requires ParallelDirections(a, b, c, d) && Overlap(a, b, c, d, tolerance).Some?
    ensures Overlap(c, d, a, b, tolerance).Some?
  {
    OverlapIffGuard(a, b, c, d, tolerance);
    GuardAsProducts(a, b, c, d, tolerance);
    Directed(a, b, c, d);
    if Inner(Minus(b, a), Minus(d, c)) > 0 {
      ParallelForward(a, b, c, d, tolerance);
    } else {
      OverlapIgnoresBoundaryDirection(a, b, c, d, tolerance);
      assert Minus(a, b) == Neg(Minus(b, a));
      SumOfProducts(Minus(b, a), Minus(b, a), Minus(d, c));
      SumOfProducts(Minus(a, b), Minus(a, b), Minus(d, c));
      ParallelForward(b, a, c, d, tolerance);
      ReversedSource(c, d, a, b, tolerance);
    }
  }

  /** Segments with parallel directions overlap symmetrically, at every tolerance. */
  lemma ParallelOverlapSymmetric(a: Point, b: Point, c: Point, d: Point, tolerance: int)
    requires ParallelDirections(a, b, c, d)
    ensures Overlap(a, b, c, d, tolerance).Some? <==> Overlap(c, d, a, b, tolerance).Some?
  {
    SumOfProducts(Minus(b, a), Minus(d, c), Minus(d, c));
    assert ParallelDirections(c, d, a, b);
    if Overlap(a, b, c, d, tolerance).Some? { ParallelBack(a, b, c, d, tolerance); }
    if Overlap(c, d, a, b, tolerance).Some? { ParallelBack(c, d, a, b, tolerance); }
  }
}
