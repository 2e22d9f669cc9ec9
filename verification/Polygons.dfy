/** One polygon with holes in the shared representation (tools/lightning_gate/record.py,
    `_normalize_polygon`): normalized rings, and their segments numbered ring by ring. */
module Polygons {
  import opened SegmentOverlap
  import opened Rings

  datatype Polygon = Polygon(contour: Ring, holes: seq<Ring>)

  datatype Segment = Segment(ring: nat, id: nat, start: Point, end: Point)

  datatype Model = Model(geometry: Polygon, segments: seq<Segment>)

  /** The normalized holes; degenerate ones disappear. */
  function NormalHoles(holes: seq<Ring>): seq<Ring> {
    if holes == [] then []
    else
      var front := NormalHoles(holes[..|holes| - 1]);
      var last := Normalize(holes[|holes| - 1], false);
      if last == [] then front else front + [last]
  }

  function OrientedRings(geometry: Polygon): seq<Ring> {
    (if geometry.contour == [] then [] else [geometry.contour]) + geometry.holes
  }

  /** The next point around the ring. */
  function Following(points: Ring, i: nat): Point
    requires i < |points|
  {
    points[(i + 1) % |points|]
  }

  function RingSegments(ring: nat, points: Ring, count: nat): (r: seq<Segment>)
    requires count <= |points|
    ensures |r| == count
    ensures forall i | 0 <= i < count :: r[i].ring == ring && r[i].id == i
  {
    if count == 0 then []
    else RingSegments(ring, points, count - 1)
         + [Segment(ring, count - 1, points[count - 1], Following(points, count - 1))]
  }

  function NumberedSegments(rings: seq<Ring>): seq<Segment> {
    if rings == [] then []
    else
      var last := |rings| - 1;
      NumberedSegments(rings[..last]) + RingSegments(last, rings[last], |rings[last]|)
  }

  function NormalizedPolygon(raw: Polygon): Model {
    var geometry := Polygon(Normalize(raw.contour, true), NormalHoles(raw.holes));
    Model(geometry, NumberedSegments(OrientedRings(geometry)))
  }

  lemma OneHoleMore(holes: seq<Ring>, i: nat)
    requires i < |holes|
    ensures var hole := Normalize(holes[i], false);
      NormalHoles(holes[..i + 1]) == if hole == [] then NormalHoles(holes[..i]) else NormalHoles(holes[..i]) + [hole]
  {
    assert holes[..i + 1][..i] == holes[..i];
  }

  method NormalizeHoles(raw: seq<Ring>) returns (holes: seq<Ring>)
    ensures holes == NormalHoles(raw)
  {
    holes := [];
    for index := 0 to |raw|
      invariant holes == NormalHoles(raw[..index])
    {
      OneHoleMore(raw, index);
      var normalized := NormalizeRing(raw[index], false);
      if normalized != [] { holes := holes + [normalized]; }
    }
    assert raw[..|raw|] == raw;
  }

  method NormalizePolygon(raw: Polygon) returns (model: Model)
    ensures model == NormalizedPolygon(raw)
  {
    var contour := NormalizeRing(raw.contour, true);
    var holes := NormalizeHoles(raw.holes);
    var geometry := Polygon(contour, holes);
    var segments := NumberSegments(OrientedRings(geometry));
    model := Model(geometry, segments);
  }

  method NumberSegments(oriented: seq<Ring>) returns (segments: seq<Segment>)
    ensures segments == NumberedSegments(oriented)
  {
    segments := [];
    for ringId := 0 to |oriented|
      invariant segments == NumberedSegments(oriented[..ringId])
    {
      assert oriented[..ringId + 1][..ringId] == oriented[..ringId];
      var points := oriented[ringId];
      ghost var before := segments;
      for segmentId := 0 to |points|
        invariant segments == before + RingSegments(ringId, points, segmentId)
      {
        segments := segments + [Segment(ringId, segmentId, points[segmentId], Following(points, segmentId))];
      }
    }
    assert oriented[..|oriented|] == oriented;
  }

  predicate AddressLess(a: Segment, b: Segment) {
    a.ring < b.ring || (a.ring == b.ring && a.id < b.id)
  }

  ghost predicate Ordered(s: seq<Segment>) {
    forall i, j | 0 <= i < j < |s| :: AddressLess(s[i], s[j])
  }

  ghost predicate RingsBelow(s: seq<Segment>, n: nat) {
    forall i | 0 <= i < |s| :: s[i].ring < n
  }

  lemma AppendRing(f: seq<Segment>, l: seq<Segment>, n: nat)
    requires Ordered(f) && RingsBelow(f, n)
    requires forall i | 0 <= i < |l| :: l[i].ring == n && l[i].id == i
    ensures Ordered(f + l) && RingsBelow(f + l, n + 1)
  {
  }

  /** Segments come out in strictly increasing (ring, segment) order, so an address names one segment. */
  lemma {:induction false} SegmentsOrdered(rings: seq<Ring>)
    ensures Ordered(NumberedSegments(rings)) && RingsBelow(NumberedSegments(rings), |rings|)
  {
    if rings != [] {
      var last := |rings| - 1;
      SegmentsOrdered(rings[..last]);
      AppendRing(NumberedSegments(rings[..last]), RingSegments(last, rings[last], |rings[last]|), last);
    }
  }

  lemma {:induction false} NormalHolesStable(holes: seq<Ring>)
    ensures NormalHoles(NormalHoles(holes)) == NormalHoles(holes)
  {
    if holes != [] {
      var front, last := holes[..|holes| - 1], holes[|holes| - 1];
      NormalHolesStable(front);
      NormalizeIdempotent(last, false);
      var h := NormalHoles(holes);
      if Normalize(last, false) != [] {
        assert h[..|h| - 1] == NormalHoles(front);
      }
    }
  }

  /** Feeding a normalized polygon back reproduces its geometry and every segment address. */
  lemma PolygonIdempotent(raw: Polygon)
    ensures NormalizedPolygon(NormalizedPolygon(raw).geometry) == NormalizedPolygon(raw)
  {
    NormalizeIdempotent(raw.contour, true);
    NormalHolesStable(raw.holes);
  }
}
