/** Watertight meshes of boxes and rectangular frames (tools/lightning_gate/record.py, `BOX_FACES`,
    `box_vertices`, `frame_vertices`, `frame_triangles`, `part_mesh`). Coordinates are `real`. */
module Mesh {

  datatype Vertex = Vertex(x: real, y: real, z: real)

  datatype Triangle = Triangle(a: nat, b: nat, c: nat)

  datatype Box = Box(x0: real, y0: real, z0: real, x1: real, y1: real, z1: real)

  datatype Frame = Frame(x0: real, y0: real, x1: real, y1: real,
                         ix0: real, iy0: real, ix1: real, iy1: real, z0: real, z1: real)

  datatype Mesh = Mesh(vertices: seq<Vertex>, triangles: seq<Triangle>)

  // ---- The primitives ----

  function BoxFaces(): seq<Triangle> {
    [Triangle(0, 2, 1), Triangle(0, 3, 2),
     Triangle(4, 5, 6), Triangle(4, 6, 7),
     Triangle(0, 1, 5), Triangle(0, 5, 4),
     Triangle(1, 2, 6), Triangle(1, 6, 5),
     Triangle(2, 3, 7), Triangle(2, 7, 6),
     Triangle(3, 0, 4), Triangle(3, 4, 7)]
  }

  function BoxVertices(b: Box): (r: seq<Vertex>)
    ensures |r| == 8
  {
    [Vertex(b.x0, b.y0, b.z0), Vertex(b.x1, b.y0, b.z0), Vertex(b.x1, b.y1, b.z0), Vertex(b.x0, b.y1, b.z0),
     Vertex(b.x0, b.y0, b.z1), Vertex(b.x1, b.y0, b.z1), Vertex(b.x1, b.y1, b.z1), Vertex(b.x0, b.y1, b.z1)]
  }

  function Loop(x0: real, y0: real, x1: real, y1: real, z: real): (r: seq<Vertex>)
    ensures |r| == 4
  {
    [Vertex(x0, y0, z), Vertex(x1, y0, z), Vertex(x1, y1, z), Vertex(x0, y1, z)]
  }

  /** Four rectangles of four corners each: the lower level first, and on each level the outside before the hole. */
  function FrameVertices(f: Frame): (r: seq<Vertex>)
    ensures |r| == 16
  {
    Loop(f.x0, f.y0, f.x1, f.y1, f.z0) + Loop(f.ix0, f.iy0, f.ix1, f.iy1, f.z0)
    + Loop(f.x0, f.y0, f.x1, f.y1, f.z1) + Loop(f.ix0, f.iy0, f.ix1, f.iy1, f.z1)
  }

  function Quad(a: nat, b: nat, c: nat, d: nat): seq<Triangle> {
    [Triangle(a, b, c), Triangle(a, c, d)]
  }

  /** The corner after `k`, around the ring. */
  function Next(k: nat): nat {
    if k == 3 then 0 else k + 1
  }

  /** The quads between two neighbouring corners: outer side, inner side (reversed), top, bottom. */
  function Between(o: nat, o1: nat): seq<Triangle> {
    Quad(o, o1, o1 + 8, o + 8)
    + Quad(o + 4, o + 12, o1 + 12, o1 + 4)
    + Quad(o + 8, o1 + 8, o1 + 12, o + 12)
    + Quad(o, o + 4, o1 + 4, o1)
  }

  function Corner(base: nat, k: nat): seq<Triangle> {
    Between(base + k, base + Next(k))
  }

  function FrameFaces(base: nat, corners: nat): seq<Triangle>
    requires corners <= 4
  {
    if corners == 0 then [] else FrameFaces(base, corners - 1) + Corner(base, corners - 1)
  }

  lemma NextIsModulo(k: nat)
    requires k < 4
    ensures (k + 1) % 4 == Next(k)
  {
  }

  method FrameTriangles(base: nat) returns (triangles: seq<Triangle>)
    ensures triangles == FrameFaces(base, 4)
  {
    triangles := [];
    for k := 0 to 4
      invariant triangles == FrameFaces(base, k)
    {
      var k1 := (k + 1) % 4;
      NextIsModulo(k);
      var outer := Quad(base + k, base + k1, base + 8 + k1, base + 8 + k);
      var inner := Quad(base + 4 + k, base + 12 + k, base + 12 + k1, base + 4 + k1);
      var top := Quad(base + 8 + k, base + 8 + k1, base + 12 + k1, base + 12 + k);
      var bottom := Quad(base + k, base + 4 + k, base + 4 + k1, base + k1);
      AppendFour(triangles, outer, inner, top, bottom);
      triangles := triangles + outer;
      triangles := triangles + inner;
      triangles := triangles + top;
      triangles := triangles + bottom;
    }
  }

  lemma AppendFour(s: seq<Triangle>, a: seq<Triangle>, b: seq<Triangle>, c: seq<Triangle>, d: seq<Triangle>)
    ensures s + a + b + c + d == s + (a + b + c + d)
  {
  }

  // ---- A part ----

  function Shifted(t: Triangle, base: nat): Triangle {
    Triangle(base + t.a, base + t.b, base + t.c)
  }

  function Shift(ts: seq<Triangle>, base: nat): (r: seq<Triangle>)
    ensures |r| == |ts|
    ensures forall i | 0 <= i < |ts| :: r[i] == Shifted(ts[i], base)
  {
    seq(|ts|, i requires 0 <= i < |ts| => Shifted(ts[i], base))
  }

  function Add(m: Mesh, vs: seq<Vertex>, ts: seq<Triangle>): Mesh {
    Mesh(m.vertices + vs, m.triangles + Shift(ts, |m.vertices|))
  }

  function BoxesMesh(boxes: seq<Box>): Mesh {
    if boxes == [] then Mesh([], [])
    else Add(BoxesMesh(boxes[..|boxes| - 1]), BoxVertices(boxes[|boxes| - 1]), BoxFaces())
  }

  function SolidMesh(boxes: seq<Box>, frames: seq<Frame>): Mesh {
    if frames == [] then BoxesMesh(boxes)
    else Add(SolidMesh(boxes, frames[..|frames| - 1]), FrameVertices(frames[|frames| - 1]), FrameFaces(0, 4))
  }

  lemma ShiftAppend(s: seq<Triangle>, t: seq<Triangle>, base: nat)
    ensures Shift(s + t, base) == Shift(s, base) + Shift(t, base)
  {
  }

  lemma ShiftQuad(a: nat, b: nat, c: nat, d: nat, base: nat)
    ensures Shift(Quad(a, b, c, d), base) == Quad(base + a, base + b, base + c, base + d)
  {
  }

  lemma ShiftBetween(o: nat, o1: nat, base: nat)
    ensures Shift(Between(o, o1), base) == Between(base + o, base + o1)
  {
    var outer, inner := Quad(o, o1, o1 + 8, o + 8), Quad(o + 4, o + 12, o1 + 12, o1 + 4);
    var top, bottom := Quad(o + 8, o1 + 8, o1 + 12, o + 12), Quad(o, o + 4, o1 + 4, o1);
    ShiftAppend(outer + inner + top, bottom, base);
    ShiftAppend(outer + inner, top, base);
    ShiftAppend(outer, inner, base);
    ShiftQuad(o, o1, o1 + 8, o + 8, base);
    ShiftQuad(o + 4, o + 12, o1 + 12, o1 + 4, base);
    ShiftQuad(o + 8, o1 + 8, o1 + 12, o + 12, base);
    ShiftQuad(o, o + 4, o1 + 4, o1, base);
  }

  lemma ShiftCorner(base: nat, k: nat)
    ensures Shift(Corner(0, k), base) == Corner(base, k)
  {
    ShiftBetween(k, Next(k), base);
  }

  lemma {:induction false} FrameFacesShift(base: nat, corners: nat)
    requires corners <= 4
    ensures FrameFaces(base, corners) == Shift(FrameFaces(0, corners), base)
  {
    if corners > 0 {
      FrameFacesShift(base, corners - 1);
      ShiftCorner(base, corners - 1);
      ShiftAppend(FrameFaces(0, corners - 1), Corner(0, corners - 1), base);
    }
  }

  lemma OneBoxMore(boxes: seq<Box>, i: nat)
    requires i < |boxes|
    ensures BoxesMesh(boxes[..i + 1]) == Add(BoxesMesh(boxes[..i]), BoxVertices(boxes[i]), BoxFaces())
  {
    assert boxes[..i + 1][..i] == boxes[..i];
  }

  lemma OneFrameMore(boxes: seq<Box>, frames: seq<Frame>, i: nat)
    requires i < |frames|
    ensures SolidMesh(boxes, frames[..i + 1])
         == Add(SolidMesh(boxes, frames[..i]), FrameVertices(frames[i]), FrameFaces(0, 4))
  {
    assert frames[..i + 1][..i] == frames[..i];
  }

  method PartMesh(boxes: seq<Box>, frames: seq<Frame>)
    returns (vertices: seq<Vertex>, triangles: seq<Triangle>)
    ensures Mesh(vertices, triangles) == SolidMesh(boxes, frames)
  {
    vertices, triangles := [], [];
    for i := 0 to |boxes|
      invariant Mesh(vertices, triangles) == BoxesMesh(boxes[..i])
    {
      OneBoxMore(boxes, i);
      var base := |vertices|;
      vertices := vertices + BoxVertices(boxes[i]);
      triangles := triangles + Shift(BoxFaces(), base);
    }
    assert boxes[..|boxes|] == boxes;
    triangles, vertices := AddFrames(boxes, frames, vertices, triangles);
  }

  method AddFrames(ghost boxes: seq<Box>, frames: seq<Frame>, vertices: seq<Vertex>, triangles: seq<Triangle>)
    returns (triangles': seq<Triangle>, vertices': seq<Vertex>)
    requires Mesh(vertices, triangles) == BoxesMesh(boxes)
    ensures Mesh(vertices', triangles') == SolidMesh(boxes, frames)
  {
    vertices', triangles' := vertices, triangles;
    for i := 0 to |frames|
      invariant Mesh(vertices', triangles') == SolidMesh(boxes, frames[..i])
    {
      OneFrameMore(boxes, frames, i);
      var base := |vertices'|;
      vertices' := vertices' + FrameVertices(frames[i]);
      var faces := FrameTriangles(base);
      FrameFacesShift(base, 4);
      triangles' := triangles' + faces;
    }
    assert frames[..|frames|] == frames;
  }

  // ---- Closed oriented manifolds ----

  function Hits(t: Triangle, p: nat, q: nat): nat {
    (if t.a == p && t.b == q then 1 else 0) + (if t.b == p && t.c == q then 1 else 0)
    + (if t.c == p && t.a == q then 1 else 0)
  }

  /** How often the directed edge from `p` to `q` occurs. */
  function EdgeCount(ts: seq<Triangle>, p: nat, q: nat): nat {
    if ts == [] then 0 else EdgeCount(ts[..|ts| - 1], p, q) + Hits(ts[|ts| - 1], p, q)
  }

  ghost predicate InRange(ts: seq<Triangle>, n: nat) {
    forall t | t in ts :: t.a < n && t.b < n && t.c < n
  }

  /** Indices in range, corners distinct, and each directed edge used at most once and matched by its reverse. */
  ghost predicate Closed(ts: seq<Triangle>, n: nat) {
    && InRange(ts, n)
    && (forall t | t in ts :: t.a != t.b && t.b != t.c && t.c != t.a)
    && (forall p: nat, q: nat :: EdgeCount(ts, p, q) <= 1 && EdgeCount(ts, p, q) == EdgeCount(ts, q, p))
  }

  lemma {:induction false} EdgeCountAppend(s: seq<Triangle>, t: seq<Triangle>, p: nat, q: nat)
    ensures EdgeCount(s + t, p, q) == EdgeCount(s, p, q) + EdgeCount(t, p, q)
  {
    if t == [] {
      assert s + t == s;
    } else {
      EdgeCountAppend(s, t[..|t| - 1], p, q);
      assert (s + t)[..|s + t| - 1] == s + t[..|t| - 1];
    }
  }

  lemma {:induction false} EdgeCountOutside(ts: seq<Triangle>, n: nat, p: nat, q: nat)
    requires InRange(ts, n) && (p >= n || q >= n)
    ensures EdgeCount(ts, p, q) == 0
  {
    if ts != [] {
      assert ts[|ts| - 1] in ts;
      EdgeCountOutside(ts[..|ts| - 1], n, p, q);
    }
  }

  lemma {:induction false} EdgeCountShift(ts: seq<Triangle>, base: nat, p: nat, q: nat)
    ensures EdgeCount(Shift(ts, base), p, q)
         == if p >= base && q >= base then EdgeCount(ts, p - base, q - base) else 0
  {
    if ts != [] {
      EdgeCountShift(ts[..|ts| - 1], base, p, q);
      assert Shift(ts, base)[..|ts| - 1] == Shift(ts[..|ts| - 1], base);
    }
  }

  /** Putting a closed primitive beside a closed mesh keeps it closed. */
  lemma AddClosed(m: Mesh, vs: seq<Vertex>, ts: seq<Triangle>)
    requires Closed(m.triangles, |m.vertices|) && Closed(ts, |vs|)
    ensures Closed(Add(m, vs, ts).triangles, |Add(m, vs, ts).vertices|)
  {
    var n := |m.vertices|;
    var r := m.triangles + Shift(ts, n);
    forall p: nat, q: nat ensures EdgeCount(r, p, q) <= 1 && EdgeCount(r, p, q) == EdgeCount(r, q, p) {
      EdgeCountAppend(m.triangles, Shift(ts, n), p, q);
      EdgeCountAppend(m.triangles, Shift(ts, n), q, p);
      EdgeCountShift(ts, n, p, q);
      EdgeCountShift(ts, n, q, p);
      if p >= n || q >= n {
        EdgeCountOutside(m.triangles, n, p, q);
        EdgeCountOutside(m.triangles, n, q, p);
      }
    }
    forall t | t in r ensures t.a < n + |vs| && t.b < n + |vs| && t.c < n + |vs|
                              && t.a != t.b && t.b != t.c && t.c != t.a
    {
      if t !in m.triangles {
        var i :| 0 <= i < |ts| && Shift(ts, n)[i] == t;
        assert ts[i] in ts;
      }
    }
  }

  lemma EdgeCountOne(ts: seq<Triangle>, t: Triangle, p: nat, q: nat)
    ensures EdgeCount(ts + [t], p, q) == EdgeCount(ts, p, q) + Hits(t, p, q)
  {
    assert (ts + [t])[..|ts|] == ts;
  }

  lemma QuadEdges(a: nat, b: nat, c: nat, d: nat, p: nat, q: nat)
    ensures EdgeCount(Quad(a, b, c, d), p, q) == Hits(Triangle(a, b, c), p, q) + Hits(Triangle(a, c, d), p, q)
  {
    EdgeCountOne([], Triangle(a, b, c), p, q);
    EdgeCountOne([Triangle(a, b, c)], Triangle(a, c, d), p, q);
    assert Quad(a, b, c, d) == ([] + [Triangle(a, b, c)]) + [Triangle(a, c, d)];
  }

  /** The occurrences of an edge between two corners. */
  function HitsBetween(o: nat, o1: nat, p: nat, q: nat): nat {
    Hits(Triangle(o, o1, o1 + 8), p, q) + Hits(Triangle(o, o1 + 8, o + 8), p, q)
    + Hits(Triangle(o + 4, o + 12, o1 + 12), p, q) + Hits(Triangle(o + 4, o1 + 12, o1 + 4), p, q)
    + Hits(Triangle(o + 8, o1 + 8, o1 + 12), p, q) + Hits(Triangle(o + 8, o1 + 12, o + 12), p, q)
    + Hits(Triangle(o, o + 4, o1 + 4), p, q) + Hits(Triangle(o, o1 + 4, o1), p, q)
  }

  function CornerHits(k: nat, p: nat, q: nat): nat {
    HitsBetween(k, Next(k), p, q)
  }

  lemma BetweenEdges(o: nat, o1: nat, p: nat, q: nat)
    ensures EdgeCount(Between(o, o1), p, q) == HitsBetween(o, o1, p, q)
  {
    var outer, inner := Quad(o, o1, o1 + 8, o + 8), Quad(o + 4, o + 12, o1 + 12, o1 + 4);
    var top, bottom := Quad(o + 8, o1 + 8, o1 + 12, o + 12), Quad(o, o + 4, o1 + 4, o1);
    EdgeCountAppend(outer + inner + top, bottom, p, q);
    EdgeCountAppend(outer + inner, top, p, q);
    EdgeCountAppend(outer, inner, p, q);
    QuadEdges(o, o1, o1 + 8, o + 8, p, q);
    QuadEdges(o + 4, o + 12, o1 + 12, o1 + 4, p, q);
    QuadEdges(o + 8, o1 + 8, o1 + 12, o + 12, p, q);
    QuadEdges(o, o + 4, o1 + 4, o1, p, q);
  }

  lemma CornerEdges(k: nat, p: nat, q: nat)
    ensures EdgeCount(Corner(0, k), p, q) == CornerHits(k, p, q)
  {
    BetweenEdges(k, Next(k), p, q);
  }

  function CornersHits(corners: nat, p: nat, q: nat): nat {
    if corners == 0 then 0 else CornersHits(corners - 1, p, q) + CornerHits(corners - 1, p, q)
  }

  /** `whole(k)` is what `part` gives for all numbers below `k`, one after the other. */
  ghost predicate Joins(whole: nat -> seq<Triangle>, part: nat -> seq<Triangle>, n: nat) {
    whole(0) == [] && forall k | 0 <= k < n :: whole(k + 1) == whole(k) + part(k)
  }

  ghost predicate AddsUp(total: nat -> nat, each: nat -> nat, n: nat) {
    total(0) == 0 && forall k | 0 <= k < n :: total(k + 1) == total(k) + each(k)
  }

  lemma {:induction false} EdgesAddUp(whole: nat -> seq<Triangle>, part: nat -> seq<Triangle>, total: nat -> nat,
                                      each: nat -> nat, n: nat, p: nat, q: nat)
    requires Joins(whole, part, n) && AddsUp(total, each, n)
    requires forall k: nat | k < n :: EdgeCount(part(k), p, q) == each(k)
    ensures EdgeCount(whole(n), p, q) == total(n)
  {
    if n > 0 {
      EdgesAddUp(whole, part, total, each, n - 1, p, q);
      assert whole(n - 1 + 1) == whole(n - 1) + part(n - 1) && total(n - 1 + 1) == total(n - 1) + each(n - 1);
      EdgeCountAppend(whole(n - 1), part(n - 1), p, q);
    }
  }

  /** The faces of a frame, as a function of the number of corners. */
  ghost function FacesTo(): nat -> seq<Triangle> { (n: nat) => if n <= 4 then FrameFaces(0, n) else [] }

  ghost function CornerAt(): nat -> seq<Triangle> { (k: nat) => Corner(0, k) }

  lemma FacesJoin(n: nat)
    requires n <= 4
    ensures Joins(FacesTo(), CornerAt(), n) && FacesTo()(n) == FrameFaces(0, n)
  {
  }

  lemma FrameEdges(corners: nat, p: nat, q: nat)
    requires corners <= 4
    ensures EdgeCount(FrameFaces(0, corners), p, q) == CornersHits(corners, p, q)
  {
    FacesJoin(corners);
    var total, each := (n: nat) => CornersHits(n, p, q), (k: nat) => CornerHits(k, p, q);
    forall k: nat | k < corners ensures EdgeCount(CornerAt()(k), p, q) == each(k) { CornerEdges(k, p, q); }
    EdgesAddUp(FacesTo(), CornerAt(), total, each, corners, p, q);
  }

  lemma CornersDisjoint(j: nat, k: nat, p: nat, q: nat)
    requires j < k < 4
    ensures CornerHits(j, p, q) + CornerHits(k, p, q) <= 1
  {
  }

  lemma CornerOnce(k: nat, p: nat, q: nat)
    requires k < 4
    ensures CornerHits(k, p, q) <= 1
  {
  }

  lemma {:induction false} FrameOnce(corners: nat, p: nat, q: nat)
    requires corners <= 4
    ensures CornersHits(corners, p, q) <= 1
    ensures CornersHits(corners, p, q) == 1 ==> exists k | 0 <= k < corners :: CornerHits(k, p, q) == 1
  {
    if corners > 0 {
      FrameOnce(corners - 1, p, q);
      CornerOnce(corners - 1, p, q);
      if CornersHits(corners - 1, p, q) == 1 {
        var k :| 0 <= k < corners - 1 && CornerHits(k, p, q) == 1;
        CornersDisjoint(k, corners - 1, p, q);
      }
    }
  }

  function Edge(a: nat, b: nat, p: nat, q: nat): int {
    if a == p && b == q then 1 else 0
  }

  /** The cross-section at corner `k`, as a directed loop, minus the same loop reversed. */
  function Section(k: nat, p: nat, q: nat): int {
    Edge(k, k + 8, p, q) + Edge(k + 8, k + 12, p, q) + Edge(k + 12, k + 4, p, q) + Edge(k + 4, k, p, q)
    - (Edge(k, k + 8, q, p) + Edge(k + 8, k + 12, q, p) + Edge(k + 12, k + 4, q, p) + Edge(k + 4, k, q, p))
  }

  /** Each corner is bounded by the cross-section it starts from and the one it leads to. */
  lemma CornerBoundary(k: nat, p: nat, q: nat)
    requires k < 4
    ensures CornerHits(k, p, q) - CornerHits(k, q, p) == Section(Next(k), p, q) - Section(k, p, q)
  {
  }

  lemma {:induction false} Telescope(difference: nat -> int, bound: nat -> int, n: nat)
    requires difference(0) == 0
    requires forall k | 0 <= k < n :: difference(k + 1) - difference(k) == bound(k + 1) - bound(k)
    ensures difference(n) == bound(n) - bound(0)
  {
    if n > 0 {
      Telescope(difference, bound, n - 1);
      assert difference(n - 1 + 1) - difference(n - 1) == bound(n - 1 + 1) - bound(n - 1);
    }
  }

  lemma OneCornerMore(k: nat, p: nat, q: nat)
    requires k < 3
    ensures (CornersHits(k + 1, p, q) - CornersHits(k + 1, q, p)) - (CornersHits(k, p, q) - CornersHits(k, q, p))
         == Section(k + 1, p, q) - Section(k, p, q)
  {
    CornerBoundary(k, p, q);
    HitsOneMore(k, p, q);
    HitsOneMore(k, q, p);
  }

  lemma HitsOneMore(k: nat, p: nat, q: nat)
    ensures CornersHits(k + 1, p, q) == CornersHits(k, p, q) + CornerHits(k, p, q)
  {
  }

  lemma CornersBoundary(corners: nat, p: nat, q: nat)
    requires corners < 4
    ensures CornersHits(corners, p, q) - CornersHits(corners, q, p) == Section(corners, p, q) - Section(0, p, q)
  {
    var difference, bound := (k: nat) => CornersHits(k, p, q) - CornersHits(k, q, p), (k: nat) => Section(k, p, q);
    forall k | 0 <= k < corners ensures difference(k + 1) - difference(k) == bound(k + 1) - bound(k) {
      OneCornerMore(k, p, q);
    }
    Telescope(difference, bound, corners);
  }

  lemma FrameManifold(p: nat, q: nat)
    ensures EdgeCount(FrameFaces(0, 4), p, q) <= 1
    ensures EdgeCount(FrameFaces(0, 4), p, q) == EdgeCount(FrameFaces(0, 4), q, p)
  {
    FrameEdges(4, p, q);
    FrameEdges(4, q, p);
    FrameOnce(4, p, q);
    CornersBoundary(3, p, q);
    CornerBoundary(3, p, q);
    assert CornersHits(4, p, q) == CornersHits(3, p, q) + CornerHits(3, p, q);
    assert CornersHits(4, q, p) == CornersHits(3, q, p) + CornerHits(3, q, p);
  }

  lemma BoxEdges(p: nat, q: nat)
    ensures EdgeCount(BoxFaces(), p, q)
         == Hits(Triangle(0, 2, 1), p, q) + Hits(Triangle(0, 3, 2), p, q)
          + Hits(Triangle(4, 5, 6), p, q) + Hits(Triangle(4, 6, 7), p, q)
          + Hits(Triangle(0, 1, 5), p, q) + Hits(Triangle(0, 5, 4), p, q)
          + Hits(Triangle(1, 2, 6), p, q) + Hits(Triangle(1, 6, 5), p, q)
          + Hits(Triangle(2, 3, 7), p, q) + Hits(Triangle(2, 7, 6), p, q)
          + Hits(Triangle(3, 0, 4), p, q) + Hits(Triangle(3, 4, 7), p, q)
  {
    var fs := BoxFaces();
    BoxPrefix(2, p, q);
    BoxPrefix(4, p, q);
    BoxPrefix(6, p, q);
    BoxPrefix(8, p, q);
    BoxPrefix(10, p, q);
    BoxPrefix(12, p, q);
    assert fs[..12] == fs && fs[..0] == [];
  }

  lemma BoxPrefix(i: nat, p: nat, q: nat)
    requires 2 <= i <= 12
    ensures EdgeCount(BoxFaces()[..i], p, q)
         == EdgeCount(BoxFaces()[..i - 2], p, q) + Hits(BoxFaces()[i - 2], p, q) + Hits(BoxFaces()[i - 1], p, q)
  {
    var fs := BoxFaces();
    assert fs[..i] == (fs[..i - 2] + [fs[i - 2]]) + [fs[i - 1]];
    EdgeCountOne(fs[..i - 2], fs[i - 2], p, q);
    EdgeCountOne(fs[..i - 2] + [fs[i - 2]], fs[i - 1], p, q);
  }

  lemma BoxManifold(p: nat, q: nat)
    ensures EdgeCount(BoxFaces(), p, q) <= 1
    ensures EdgeCount(BoxFaces(), p, q) == EdgeCount(BoxFaces(), q, p)
  {
    BoxEdges(p, q);
    BoxEdges(q, p);
  }

  ghost predicate Proper(ts: seq<Triangle>, n: nat) {
    && InRange(ts, n)
    && (forall t | t in ts :: t.a != t.b && t.b != t.c && t.c != t.a)
  }

  lemma BoxClosed()
    ensures Closed(BoxFaces(), 8)
  {
    forall p: nat, q: nat
      ensures EdgeCount(BoxFaces(), p, q) <= 1 && EdgeCount(BoxFaces(), p, q) == EdgeCount(BoxFaces(), q, p)
    {
      BoxManifold(p, q);
    }
  }

  lemma ProperAppend(s: seq<Triangle>, t: seq<Triangle>, n: nat)
    requires Proper(s, n) && Proper(t, n)
    ensures Proper(s + t, n)
  {
  }

  lemma ProperQuad(a: nat, b: nat, c: nat, d: nat, n: nat)
    requires a < n && b < n && c < n && d < n && a != b && b != c && c != a && c != d && d != a
    ensures Proper(Quad(a, b, c, d), n)
  {
  }

  lemma ProperFour(a: seq<Triangle>, b: seq<Triangle>, c: seq<Triangle>, d: seq<Triangle>, n: nat)
    requires Proper(a, n) && Proper(b, n) && Proper(c, n) && Proper(d, n)
    ensures Proper(a + b + c + d, n)
  {
    ProperAppend(a, b, n);
    ProperAppend(a + b, c, n);
    ProperAppend(a + b + c, d, n);
  }

  lemma ProperSides(o: nat, o1: nat)
    requires o < 4 && o1 < 4 && o != o1
    ensures Proper(Quad(o, o1, o1 + 8, o + 8), 16) && Proper(Quad(o + 4, o + 12, o1 + 12, o1 + 4), 16)
  {
    ProperQuad(o, o1, o1 + 8, o + 8, 16);
    ProperQuad(o + 4, o + 12, o1 + 12, o1 + 4, 16);
  }

  lemma ProperLevels(o: nat, o1: nat)
    requires o < 4 && o1 < 4 && o != o1
    ensures Proper(Quad(o + 8, o1 + 8, o1 + 12, o + 12), 16) && Proper(Quad(o, o + 4, o1 + 4, o1), 16)
  {
    ProperQuad(o + 8, o1 + 8, o1 + 12, o + 12, 16);
    ProperQuad(o, o + 4, o1 + 4, o1, 16);
  }

  lemma ProperCorner(k: nat)
    requires k < 4
    ensures Proper(Corner(0, k), 16)
  {
    var o, o1 := k, Next(k);
    ProperSides(o, o1);
    ProperLevels(o, o1);
    ProperFour(Quad(o, o1, o1 + 8, o + 8), Quad(o + 4, o + 12, o1 + 12, o1 + 4),
               Quad(o + 8, o1 + 8, o1 + 12, o + 12), Quad(o, o + 4, o1 + 4, o1), 16);
  }

  lemma {:induction false} FrameProper(corners: nat)
    requires corners <= 4
    ensures Proper(FrameFaces(0, corners), 16)
  {
    if corners > 0 {
      FrameProper(corners - 1);
      ProperCorner(corners - 1);
      ProperAppend(FrameFaces(0, corners - 1), Corner(0, corners - 1), 16);
    }
  }

  lemma FrameClosed()
    ensures Closed(FrameFaces(0, 4), 16)
  {
    FrameProper(4);
    forall p: nat, q: nat
      ensures EdgeCount(FrameFaces(0, 4), p, q) <= 1
      ensures EdgeCount(FrameFaces(0, 4), p, q) == EdgeCount(FrameFaces(0, 4), q, p)
    {
      FrameManifold(p, q);
    }
  }

  lemma {:induction false} BoxesClosed(boxes: seq<Box>)
    ensures Closed(BoxesMesh(boxes).triangles, |BoxesMesh(boxes).vertices|)
  {
    if boxes != [] {
      BoxesClosed(boxes[..|boxes| - 1]);
      BoxClosed();
      AddClosed(BoxesMesh(boxes[..|boxes| - 1]), BoxVertices(boxes[|boxes| - 1]), BoxFaces());
    }
  }

  /** Every part, whatever its boxes and frames, meshes to a closed oriented manifold. */
  lemma {:induction false} SolidClosed(boxes: seq<Box>, frames: seq<Frame>)
    ensures Closed(SolidMesh(boxes, frames).triangles, |SolidMesh(boxes, frames).vertices|)
  {
    if frames == [] {
      BoxesClosed(boxes);
    } else {
      SolidClosed(boxes, frames[..|frames| - 1]);
      FrameClosed();
      AddClosed(SolidMesh(boxes, frames[..|frames| - 1]), FrameVertices(frames[|frames| - 1]), FrameFaces(0, 4));
    }
  }

  // ---- Volume ----

  function Det(a: Vertex, b: Vertex, c: Vertex): real {
    a.x * (b.y * c.z - b.z * c.y) - a.y * (b.x * c.z - b.z * c.x) + a.z * (b.x * c.y - b.y * c.x)
  }

  function TriangleDet(vs: seq<Vertex>, t: Triangle): real
    requires t.a < |vs| && t.b < |vs| && t.c < |vs|
  {
    Det(vs[t.a], vs[t.b], vs[t.c])
  }

  /** Six times the signed volume. */
  function SixVolumes(vs: seq<Vertex>, ts: seq<Triangle>): real
    requires InRange(ts, |vs|)
  {
    if ts == [] then 0.0
    else
      var last := ts[|ts| - 1];
      assert last in ts;
      SixVolumes(vs, ts[..|ts| - 1]) + TriangleDet(vs, last)
  }

  lemma VolumeOne(vs: seq<Vertex>, t: Triangle)
    requires InRange([t], |vs|)
    ensures SixVolumes(vs, [t]) == TriangleDet(vs, t)
  {
    assert [t][..0] == [];
    assert SixVolumes(vs, [t][..0]) == 0.0;
  }

  lemma VolumePlusOne(vs: seq<Vertex>, ts: seq<Triangle>, t: Triangle)
    requires InRange(ts + [t], |vs|)
    ensures InRange(ts, |vs|)
    ensures SixVolumes(vs, ts + [t]) == SixVolumes(vs, ts) + TriangleDet(vs, t)
  {
    assert forall x | x in ts :: x in ts + [t];
    assert (ts + [t])[..|ts|] == ts;
  }

  lemma {:induction false} VolumeAppend(vs: seq<Vertex>, s: seq<Triangle>, t: seq<Triangle>)
    requires InRange(s, |vs|) && InRange(t, |vs|)
    ensures InRange(s + t, |vs|)
    ensures SixVolumes(vs, s + t) == SixVolumes(vs, s) + SixVolumes(vs, t)
  {
    if t == [] {
      assert s + t == s;
    } else {
      var front := t[..|t| - 1];
      VolumeAppend(vs, s, front);
      assert s + t == (s + front) + [t[|t| - 1]];
      assert (s + t)[..|s + t| - 1] == s + front;
    }
  }

  lemma {:induction false} VolumeKeptByMoreVertices(vs: seq<Vertex>, more: seq<Vertex>, ts: seq<Triangle>)
    requires InRange(ts, |vs|)
    ensures SixVolumes(vs + more, ts) == SixVolumes(vs, ts)
  {
    if ts != [] {
      assert ts[|ts| - 1] in ts;
      VolumeKeptByMoreVertices(vs, more, ts[..|ts| - 1]);
    }
  }

  lemma ShiftInRange(ts: seq<Triangle>, base: nat, n: nat)
    requires InRange(ts, n)
    ensures InRange(Shift(ts, base), base + n)
  {
    forall t | t in Shift(ts, base) ensures t.a < base + n && t.b < base + n && t.c < base + n {
      var i :| 0 <= i < |ts| && Shift(ts, base)[i] == t;
      assert ts[i] in ts;
    }
  }

  lemma {:induction false} VolumeShift(pre: seq<Vertex>, vs: seq<Vertex>, ts: seq<Triangle>)
    requires InRange(ts, |vs|)
    ensures InRange(Shift(ts, |pre|), |pre + vs|)
    ensures SixVolumes(pre + vs, Shift(ts, |pre|)) == SixVolumes(vs, ts)
  {
    ShiftInRange(ts, |pre|, |vs|);
    if ts != [] {
      var front, last := ts[..|ts| - 1], ts[|ts| - 1];
      assert last in ts;
      VolumeShift(pre, vs, front);
      var last' := Shifted(last, |pre|);
      assert Shift(ts, |pre|) == Shift(front, |pre|) + [last'];
      VolumePlusOne(pre + vs, Shift(front, |pre|), last');
      ShiftedDet(pre, vs, last);
    }
  }

  lemma ShiftedDet(pre: seq<Vertex>, vs: seq<Vertex>, t: Triangle)
    requires t.a < |vs| && t.b < |vs| && t.c < |vs|
    ensures TriangleDet(pre + vs, Shifted(t, |pre|)) == TriangleDet(vs, t)
  {
  }

  lemma AddVolume(m: Mesh, vs: seq<Vertex>, ts: seq<Triangle>)
    requires InRange(m.triangles, |m.vertices|) && InRange(ts, |vs|)
    ensures var r := Add(m, vs, ts);
      && InRange(r.triangles, |r.vertices|)
      && SixVolumes(r.vertices, r.triangles) == SixVolumes(m.vertices, m.triangles) + SixVolumes(vs, ts)
  {
    VolumeKeptByMoreVertices(m.vertices, vs, m.triangles);
    VolumeShift(m.vertices, vs, ts);
    VolumeAppend(m.vertices + vs, m.triangles, Shift(ts, |m.vertices|));
  }

  function QuadDet(a: Vertex, b: Vertex, c: Vertex, d: Vertex): real {
    Det(a, b, c) + Det(a, c, d)
  }

  lemma QuadVolume(vs: seq<Vertex>, a: nat, b: nat, c: nat, d: nat)
    requires a < |vs| && b < |vs| && c < |vs| && d < |vs|
    ensures InRange(Quad(a, b, c, d), |vs|)
    ensures SixVolumes(vs, Quad(a, b, c, d)) == QuadDet(vs[a], vs[b], vs[c], vs[d])
  {
    VolumeOne(vs, Triangle(a, b, c));
    VolumePlusOne(vs, [Triangle(a, b, c)], Triangle(a, c, d));
    assert Quad(a, b, c, d) == [Triangle(a, b, c)] + [Triangle(a, c, d)];
  }

  lemma LevelQuad(a: Vertex, b: Vertex, c: Vertex, d: Vertex, z: real)
    requires a.z == z && b.z == z && c.z == z && d.z == z
    ensures QuadDet(a, b, c, d) == z * ((a.x * b.y - b.x * a.y) + (b.x * c.y - c.x * b.y)
                                       + (c.x * d.y - d.x * c.y) + (d.x * a.y - a.x * d.y))
  {
  }

  lemma SideQuadX(x: real, y: real, y': real, z: real, z': real)
    ensures QuadDet(Vertex(x, y, z), Vertex(x, y', z), Vertex(x, y', z'), Vertex(x, y, z'))
         == 2.0 * x * ((y' - y) * (z' - z))
    ensures QuadDet(Vertex(x, y, z), Vertex(x, y, z'), Vertex(x, y', z'), Vertex(x, y', z))
         == -2.0 * x * ((y' - y) * (z' - z))
  {
  }

  lemma SideQuadY(x: real, x': real, y: real, z: real, z': real)
    ensures QuadDet(Vertex(x, y, z), Vertex(x', y, z), Vertex(x', y, z'), Vertex(x, y, z'))
         == -2.0 * y * ((x' - x) * (z' - z))
    ensures QuadDet(Vertex(x, y, z), Vertex(x, y, z'), Vertex(x', y, z'), Vertex(x', y, z))
         == 2.0 * y * ((x' - x) * (z' - z))
  {
  }

  function BoxVolume(b: Box): real { (b.x1 - b.x0) * (b.y1 - b.y0) * (b.z1 - b.z0) }

  function FrameVolume(f: Frame): real {
    ((f.x1 - f.x0) * (f.y1 - f.y0) - (f.ix1 - f.ix0) * (f.iy1 - f.iy0)) * (f.z1 - f.z0)
  }

  /** Four quads in a row. */
  lemma FourQuads(vs: seq<Vertex>, p: seq<Triangle>, q: seq<Triangle>, r: seq<Triangle>, s: seq<Triangle>)
    requires InRange(p, |vs|) && InRange(q, |vs|) && InRange(r, |vs|) && InRange(s, |vs|)
    ensures InRange(p + q + r + s, |vs|)
    ensures SixVolumes(vs, p + q + r + s)
         == SixVolumes(vs, p) + SixVolumes(vs, q) + SixVolumes(vs, r) + SixVolumes(vs, s)
  {
    VolumeAppend(vs, p, q);
    VolumeAppend(vs, p + q, r);
    VolumeAppend(vs, p + q + r, s);
  }

  lemma CornerVolume(vs: seq<Vertex>, k: nat)
    requires |vs| == 16 && k < 4
    ensures InRange(Corner(0, k), 16)
    ensures var k1 := Next(k);
      SixVolumes(vs, Corner(0, k))
      == QuadDet(vs[k], vs[k1], vs[k1 + 8], vs[k + 8]) + QuadDet(vs[k + 4], vs[k + 12], vs[k1 + 12], vs[k1 + 4])
       + QuadDet(vs[k + 8], vs[k1 + 8], vs[k1 + 12], vs[k + 12]) + QuadDet(vs[k], vs[k + 4], vs[k1 + 4], vs[k1])
  {
    var k1 := Next(k);
    QuadVolume(vs, k, k1, k1 + 8, k + 8);
    QuadVolume(vs, k + 4, k + 12, k1 + 12, k1 + 4);
    QuadVolume(vs, k + 8, k1 + 8, k1 + 12, k + 12);
    QuadVolume(vs, k, k + 4, k1 + 4, k1);
    FourQuads(vs, Quad(k, k1, k1 + 8, k + 8), Quad(k + 4, k + 12, k1 + 12, k1 + 4),
              Quad(k + 8, k1 + 8, k1 + 12, k + 12), Quad(k, k + 4, k1 + 4, k1));
  }

  // The frame's sixteen quads: sides by `SideQuadX` and `SideQuadY`, top and bottom by `LevelQuad`.

  function Shoelace(a: Vertex, b: Vertex, c: Vertex, d: Vertex): real {
    (a.x * b.y - b.x * a.y) + (b.x * c.y - c.x * b.y) + (c.x * d.y - d.x * c.y) + (d.x * a.y - a.x * d.y)
  }

  lemma LevelPair(a: Vertex, b: Vertex, c: Vertex, d: Vertex, a': Vertex, b': Vertex, c': Vertex, d': Vertex,
                  z: real, z': real)
    requires a.z == z && b.z == z && c.z == z && d.z == z && a'.z == z' && b'.z == z' && c'.z == z' && d'.z == z'
    requires a.x == a'.x && b.x == b'.x && c.x == c'.x && d.x == d'.x
    requires a.y == a'.y && b.y == b'.y && c.y == c'.y && d.y == d'.y
    ensures QuadDet(a', b', c', d') + QuadDet(a, d, c, b) == (z' - z) * Shoelace(a, b, c, d)
  {
    LevelQuad(a', b', c', d', z');
    LevelQuad(a, d, c, b, z);
    assert Shoelace(a, d, c, b) == -Shoelace(a, b, c, d);
  }

  lemma TrapezoidsTile(f: Frame, v: seq<Vertex>)
    requires v == FrameVertices(f)
    ensures Shoelace(v[0], v[1], v[5], v[4]) + Shoelace(v[1], v[2], v[6], v[5])
          + Shoelace(v[2], v[3], v[7], v[6]) + Shoelace(v[3], v[0], v[4], v[7])
         == 2.0 * ((f.x1 - f.x0) * (f.y1 - f.y0) - (f.ix1 - f.ix0) * (f.iy1 - f.iy0))
  {
  }

  function OuterSide(v: seq<Vertex>, k: nat): real
    requires |v| == 16 && k < 4
  {
    QuadDet(v[k], v[Next(k)], v[Next(k) + 8], v[k + 8])
  }

  function InnerSide(v: seq<Vertex>, k: nat): real
    requires |v| == 16 && k < 4
  {
    QuadDet(v[k + 4], v[k + 12], v[Next(k) + 12], v[Next(k) + 4])
  }

  function Levels(v: seq<Vertex>, k: nat): real
    requires |v| == 16 && k < 4
  {
    QuadDet(v[k + 8], v[Next(k) + 8], v[Next(k) + 12], v[k + 12]) + QuadDet(v[k], v[k + 4], v[Next(k) + 4], v[Next(k)])
  }

  lemma LevelCorner(f: Frame, v: seq<Vertex>, k: nat)
    requires v == FrameVertices(f) && k < 4
    ensures Levels(v, k) == (f.z1 - f.z0) * Shoelace(v[k], v[Next(k)], v[Next(k) + 4], v[k + 4])
  {
    LevelPair(v[k], v[Next(k)], v[Next(k) + 4], v[k + 4],
              v[k + 8], v[Next(k) + 8], v[Next(k) + 12], v[k + 12], f.z0, f.z1);
  }

  lemma LevelVolume(f: Frame, v: seq<Vertex>)
    requires v == FrameVertices(f)
    ensures Levels(v, 0) + Levels(v, 1) + Levels(v, 2) + Levels(v, 3) == 2.0 * FrameVolume(f)
  {
    LevelCorner(f, v, 0);
    LevelCorner(f, v, 1);
    LevelCorner(f, v, 2);
    LevelCorner(f, v, 3);
    TrapezoidsTile(f, v);
    Distribute(f.z1 - f.z0, Shoelace(v[0], v[1], v[5], v[4]), Shoelace(v[1], v[2], v[6], v[5]),
               Shoelace(v[2], v[3], v[7], v[6]), Shoelace(v[3], v[0], v[4], v[7]));
  }

  lemma Distribute(h: real, a: real, b: real, c: real, d: real)
    ensures h * a + h * b + h * c + h * d == (a + b + c + d) * h
  {
  }

  lemma OuterVolume(f: Frame, v: seq<Vertex>)
    requires v == FrameVertices(f)
    ensures OuterSide(v, 0) + OuterSide(v, 1) + OuterSide(v, 2) + OuterSide(v, 3)
         == 4.0 * ((f.x1 - f.x0) * (f.y1 - f.y0) * (f.z1 - f.z0))
  {
    SideQuadY(f.x0, f.x1, f.y0, f.z0, f.z1);
    SideQuadX(f.x1, f.y0, f.y1, f.z0, f.z1);
    SideQuadY(f.x1, f.x0, f.y1, f.z0, f.z1);
    SideQuadX(f.x0, f.y1, f.y0, f.z0, f.z1);
    FourSides(f.x0, f.x1, f.y0, f.y1, f.z1 - f.z0);
  }

  lemma InnerVolume(f: Frame, v: seq<Vertex>)
    requires v == FrameVertices(f)
    ensures InnerSide(v, 0) + InnerSide(v, 1) + InnerSide(v, 2) + InnerSide(v, 3)
         == -4.0 * ((f.ix1 - f.ix0) * (f.iy1 - f.iy0) * (f.z1 - f.z0))
  {
    SideQuadY(f.ix0, f.ix1, f.iy0, f.z0, f.z1);
    SideQuadX(f.ix1, f.iy0, f.iy1, f.z0, f.z1);
    SideQuadY(f.ix1, f.ix0, f.iy1, f.z0, f.z1);
    SideQuadX(f.ix0, f.iy1, f.iy0, f.z0, f.z1);
    FourSides(f.ix0, f.ix1, f.iy0, f.iy1, f.z1 - f.z0);
  }

  lemma FourSides(x: real, x': real, y: real, y': real, h: real)
    ensures -2.0 * y * ((x' - x) * h) + 2.0 * x' * ((y' - y) * h) - 2.0 * y' * ((x - x') * h) + 2.0 * x * ((y - y') * h)
         == 4.0 * ((x' - x) * (y' - y) * h)
  {
  }

  function CornersVolume(v: seq<Vertex>, corners: nat): real
    requires |v| == 16 && corners <= 4
  {
    if corners == 0 then 0.0
    else
      CornersVolume(v, corners - 1)
      + (OuterSide(v, corners - 1) + InnerSide(v, corners - 1) + Levels(v, corners - 1))
  }

  ghost predicate HasVolume(vs: seq<Vertex>, ts: seq<Triangle>, volume: real) {
    InRange(ts, |vs|) && SixVolumes(vs, ts) == volume
  }

  lemma {:induction false} VolumesAddUp(vs: seq<Vertex>, whole: nat -> seq<Triangle>, part: nat -> seq<Triangle>,
                                        total: nat -> real, each: nat -> real, n: nat)
    requires Joins(whole, part, n) && forall k | 0 <= k < n :: HasVolume(vs, part(k), each(k))
    requires total(0) == 0.0 && forall k | 0 <= k < n :: total(k + 1) == total(k) + each(k)
    ensures HasVolume(vs, whole(n), total(n))
  {
    if n > 0 {
      VolumesAddUp(vs, whole, part, total, each, n - 1);
      assert whole(n - 1 + 1) == whole(n - 1) + part(n - 1) && total(n - 1 + 1) == total(n - 1) + each(n - 1);
      assert HasVolume(vs, part(n - 1), each(n - 1));
      VolumeAppend(vs, whole(n - 1), part(n - 1));
    }
  }

  lemma CornerHasVolume(v: seq<Vertex>, k: nat)
    requires |v| == 16 && k < 4
    ensures HasVolume(v, Corner(0, k), OuterSide(v, k) + InnerSide(v, k) + Levels(v, k))
  {
    CornerVolume(v, k);
  }

  ghost function CornersVolumeTo(v: seq<Vertex>): nat -> real
    requires |v| == 16
  {
    (n: nat) => if n <= 4 then CornersVolume(v, n) else 0.0
  }

  ghost function CornerVolumeAt(v: seq<Vertex>): nat -> real
    requires |v| == 16
  {
    (k: nat) => if k < 4 then OuterSide(v, k) + InnerSide(v, k) + Levels(v, k) else 0.0
  }

  lemma CornersAddUp(v: seq<Vertex>, k: nat)
    requires |v| == 16 && k < 4
    ensures CornersVolumeTo(v)(k + 1) == CornersVolumeTo(v)(k) + CornerVolumeAt(v)(k)
    ensures HasVolume(v, CornerAt()(k), CornerVolumeAt(v)(k))
  {
    CornerHasVolume(v, k);
  }

  lemma FrameFacesVolume(v: seq<Vertex>)
    requires |v| == 16
    ensures HasVolume(v, FrameFaces(0, 4), CornersVolume(v, 4))
  {
    FacesJoin(4);
    forall k: nat | k < 4
      ensures CornersVolumeTo(v)(k + 1) == CornersVolumeTo(v)(k) + CornerVolumeAt(v)(k)
      ensures HasVolume(v, CornerAt()(k), CornerVolumeAt(v)(k))
    {
      CornersAddUp(v, k);
    }
    VolumesAddUp(v, FacesTo(), CornerAt(), CornersVolumeTo(v), CornerVolumeAt(v), 4);
  }

  lemma SumOfCorners(v: seq<Vertex>)
    requires |v| == 16
    ensures CornersVolume(v, 4)
         == (OuterSide(v, 0) + OuterSide(v, 1) + OuterSide(v, 2) + OuterSide(v, 3))
          + (InnerSide(v, 0) + InnerSide(v, 1) + InnerSide(v, 2) + InnerSide(v, 3))
          + (Levels(v, 0) + Levels(v, 1) + Levels(v, 2) + Levels(v, 3))
  {
    assert CornersVolume(v, 1) == OuterSide(v, 0) + InnerSide(v, 0) + Levels(v, 0);
    assert CornersVolume(v, 2) == CornersVolume(v, 1) + (OuterSide(v, 1) + InnerSide(v, 1) + Levels(v, 1));
    assert CornersVolume(v, 3) == CornersVolume(v, 2) + (OuterSide(v, 2) + InnerSide(v, 2) + Levels(v, 2));
  }

  lemma FrameHasItsVolume(f: Frame)
    ensures InRange(FrameFaces(0, 4), 16)
    ensures SixVolumes(FrameVertices(f), FrameFaces(0, 4)) == 6.0 * FrameVolume(f)
  {
    var v := FrameVertices(f);
    FrameFacesVolume(v);
    SumOfCorners(v);
    LevelVolume(f, v);
    OuterVolume(f, v);
    InnerVolume(f, v);
    DifferenceOfAreas(f);
  }

  lemma DifferenceOfAreas(f: Frame)
    ensures (f.x1 - f.x0) * (f.y1 - f.y0) * (f.z1 - f.z0) - (f.ix1 - f.ix0) * (f.iy1 - f.iy0) * (f.z1 - f.z0)
         == FrameVolume(f)
  {
  }

  lemma PairVolume(vs: seq<Vertex>, t: Triangle, u: Triangle)
    requires InRange([t, u], |vs|)
    ensures t.a < |vs| && t.b < |vs| && t.c < |vs| && u.a < |vs| && u.b < |vs| && u.c < |vs|
    ensures SixVolumes(vs, [t, u]) == TriangleDet(vs, t) + TriangleDet(vs, u)
  {
    assert t in [t, u] && u in [t, u];
    VolumeOne(vs, t);
    VolumePlusOne(vs, [t], u);
    assert [t, u] == [t] + [u];
  }

  lemma BoxFaceVolume(b: Box, i: nat)
    requires i < 6
    ensures InRange(BoxFaces()[2 * i..2 * i + 2], 8)
    ensures SixVolumes(BoxVertices(b), BoxFaces()[2 * i..2 * i + 2])
         == FaceVolume(b, i)
  {
    var t, u := BoxFaces()[2 * i], BoxFaces()[2 * i + 1];
    assert BoxFaces()[2 * i..2 * i + 2] == [t, u];
    PairVolume(BoxVertices(b), t, u);
  }

  lemma LastPair(vs: seq<Vertex>, ts: seq<Triangle>, n: nat)
    requires InRange(ts, |vs|) && n + 2 <= |ts|
    ensures InRange(ts[..n], |vs|) && InRange(ts[..n + 2], |vs|) && InRange(ts[n..n + 2], |vs|)
    ensures SixVolumes(vs, ts[..n + 2]) == SixVolumes(vs, ts[..n]) + SixVolumes(vs, ts[n..n + 2])
  {
    VolumeAppend(vs, ts[..n], ts[n..n + 2]);
    assert ts[..n + 2] == ts[..n] + ts[n..n + 2];
  }

  function FaceVolume(b: Box, i: nat): real {
    match i
    case 0 => -2.0 * b.z0 * ((b.x1 - b.x0) * (b.y1 - b.y0))
    case 1 => 2.0 * b.z1 * ((b.x1 - b.x0) * (b.y1 - b.y0))
    case 2 => -2.0 * b.y0 * ((b.x1 - b.x0) * (b.z1 - b.z0))
    case 3 => 2.0 * b.x1 * ((b.y1 - b.y0) * (b.z1 - b.z0))
    case 4 => 2.0 * b.y1 * ((b.x1 - b.x0) * (b.z1 - b.z0))
    case _ => -2.0 * b.x0 * ((b.y1 - b.y0) * (b.z1 - b.z0))
  }

  function FaceTotal(b: Box, faces: nat): real {
    if faces == 0 then 0.0 else FaceTotal(b, faces - 1) + FaceVolume(b, faces - 1)
  }

  function PairsTotal(vs: seq<Vertex>, ts: seq<Triangle>, pairs: nat): real
    requires InRange(ts, |vs|) && 2 * pairs <= |ts|
  {
    if pairs == 0 then 0.0
    else
      assert InRange(ts[2 * pairs - 2..2 * pairs], |vs|);
      PairsTotal(vs, ts, pairs - 1) + SixVolumes(vs, ts[2 * pairs - 2..2 * pairs])
  }

  lemma {:induction false} PairByPair(vs: seq<Vertex>, ts: seq<Triangle>, pairs: nat)
    requires InRange(ts, |vs|) && 2 * pairs <= |ts|
    ensures InRange(ts[..2 * pairs], |vs|)
    ensures SixVolumes(vs, ts[..2 * pairs]) == PairsTotal(vs, ts, pairs)
  {
    if pairs > 0 {
      PairByPair(vs, ts, pairs - 1);
      LastPair(vs, ts, 2 * pairs - 2);
    }
  }

  ghost predicate PairHasVolume(vs: seq<Vertex>, ts: seq<Triangle>, k: nat, volume: real) {
    2 * k + 2 <= |ts| && HasVolume(vs, ts[2 * k..2 * k + 2], volume)
  }

  lemma {:induction false} PairsAddUp(vs: seq<Vertex>, ts: seq<Triangle>, pairs: nat, total: nat -> real,
                                      each: nat -> real)
    requires InRange(ts, |vs|) && 2 * pairs <= |ts|
    requires forall k | 0 <= k < pairs :: PairHasVolume(vs, ts, k, each(k))
    requires total(0) == 0.0 && forall k | 0 <= k < pairs :: total(k + 1) == total(k) + each(k)
    ensures PairsTotal(vs, ts, pairs) == total(pairs)
  {
    if pairs > 0 {
      PairsAddUp(vs, ts, pairs - 1, total, each);
      assert total(pairs - 1 + 1) == total(pairs - 1) + each(pairs - 1);
      assert PairHasVolume(vs, ts, pairs - 1, each(pairs - 1));
    }
  }

  lemma BoxFacesInRange(ts: seq<Triangle>)
    requires ts == BoxFaces()
    ensures InRange(ts, 8)
  {
  }

  lemma BoxPairs(b: Box)
    ensures InRange(BoxFaces(), 8)
    ensures PairsTotal(BoxVertices(b), BoxFaces(), 6) == FaceTotal(b, 6)
  {
    BoxFacesInRange(BoxFaces());
    var total, each := (n: nat) => FaceTotal(b, n), (k: nat) => FaceVolume(b, k);
    forall k | 0 <= k < 6 ensures PairHasVolume(BoxVertices(b), BoxFaces(), k, each(k)) { BoxFaceVolume(b, k); }
    PairsAddUp(BoxVertices(b), BoxFaces(), 6, total, each);
  }

  lemma BoxHasItsVolume(b: Box)
    ensures InRange(BoxFaces(), 8)
    ensures SixVolumes(BoxVertices(b), BoxFaces()) == 6.0 * BoxVolume(b)
  {
    BoxPairs(b);
    PairByPair(BoxVertices(b), BoxFaces(), 6);
    assert BoxFaces()[..12] == BoxFaces();
    SumOfFaces(b);
  }

  lemma SumOfFaces(b: Box)
    ensures FaceTotal(b, 6) == 6.0 * BoxVolume(b)
  {
    assert FaceTotal(b, 1) == FaceVolume(b, 0);
    assert FaceTotal(b, 3) == FaceTotal(b, 1) + FaceVolume(b, 1) + FaceVolume(b, 2);
    assert FaceTotal(b, 5) == FaceTotal(b, 3) + FaceVolume(b, 3) + FaceVolume(b, 4);
    SixFaces(b.x0, b.x1, b.y0, b.y1, b.z0, b.z1);
  }

  lemma SixFaces(x: real, x': real, y: real, y': real, z: real, z': real)
    ensures -2.0 * z * ((x' - x) * (y' - y)) + 2.0 * z' * ((x' - x) * (y' - y))
          - 2.0 * y * ((x' - x) * (z' - z)) + 2.0 * x' * ((y' - y) * (z' - z))
          + 2.0 * y' * ((x' - x) * (z' - z)) - 2.0 * x * ((y' - y) * (z' - z))
         == 6.0 * ((x' - x) * (y' - y) * (z' - z))
  {
  }

  function BoxesVolume(boxes: seq<Box>): real {
    if boxes == [] then 0.0 else BoxesVolume(boxes[..|boxes| - 1]) + BoxVolume(boxes[|boxes| - 1])
  }

  function FramesVolume(frames: seq<Frame>): real {
    if frames == [] then 0.0 else FramesVolume(frames[..|frames| - 1]) + FrameVolume(frames[|frames| - 1])
  }

  lemma {:induction false} BoxesHaveTheirVolume(boxes: seq<Box>)
    ensures var m := BoxesMesh(boxes);
      && InRange(m.triangles, |m.vertices|)
      && SixVolumes(m.vertices, m.triangles) == 6.0 * BoxesVolume(boxes)
  {
    if boxes != [] {
      var front, last := boxes[..|boxes| - 1], boxes[|boxes| - 1];
      BoxesHaveTheirVolume(front);
      BoxHasItsVolume(last);
      AddVolume(BoxesMesh(front), BoxVertices(last), BoxFaces());
    }
  }

  /** The signed volume of every part is the sum over its boxes and frames. */
  lemma {:induction false} SolidHasItsVolume(boxes: seq<Box>, frames: seq<Frame>)
    ensures var m := SolidMesh(boxes, frames);
      && InRange(m.triangles, |m.vertices|)
      && SixVolumes(m.vertices, m.triangles) == 6.0 * (BoxesVolume(boxes) + FramesVolume(frames))
  {
    if frames == [] {
      BoxesHaveTheirVolume(boxes);
    } else {
      var front, last := frames[..|frames| - 1], frames[|frames| - 1];
      SolidHasItsVolume(boxes, front);
      FrameHasItsVolume(last);
      AddVolume(SolidMesh(boxes, front), FrameVertices(last), FrameFaces(0, 4));
    }
  }
}
