/** Ring normalization (tools/lightning_gate/record.py, `_ring_points`, `_normalize_ring`): repeated neighbours
    dropped, orientation fixed by the sign of the shoelace area, and the lexicographically smallest point first. */
module Rings {
  import opened SegmentOverlap

  type Ring = seq<Point>

  // ---- Dropping repeated neighbours ----

  function DropRepeats(raw: Ring): (r: Ring)
    ensures raw != [] ==> r != [] && r[0] == raw[0] && r[|r| - 1] == raw[|raw| - 1]
    ensures raw == [] ==> r == []
  {
    if raw == [] then []
    else
      var r := DropRepeats(raw[..|raw| - 1]);
      if r == [] || r[|r| - 1] != raw[|raw| - 1] then r + [raw[|raw| - 1]] else r
  }

  function Clean(raw: Ring): Ring {
    var r := DropRepeats(raw);
    if |r| > 1 && r[0] == r[|r| - 1] then r[..|r| - 1] else r
  }

  ghost predicate NoRepeatedNeighbours(ps: Ring) {
    && (forall i | 0 <= i < |ps| - 1 :: ps[i] != ps[i + 1])
    && (|ps| > 1 ==> ps[0] != ps[|ps| - 1])
  }

  method RingPoints(raw: Ring) returns (points: Ring)
    ensures points == Clean(raw)
  {
    points := [];
    for index := 0 to |raw|
      invariant points == DropRepeats(raw[..index])
    {
      assert raw[..index + 1][..index] == raw[..index];
      if points == [] || points[|points| - 1] != raw[index] {
        points := points + [raw[index]];
      }
    }
    assert raw[..|raw|] == raw;
    if |points| > 1 && points[0] == points[|points| - 1] {
      points := points[..|points| - 1];
    }
  }

  lemma {:induction false} DropRepeatsSeparates(raw: Ring)
    ensures forall i | 0 <= i < |DropRepeats(raw)| - 1 :: DropRepeats(raw)[i] != DropRepeats(raw)[i + 1]
  {
    if raw != [] { DropRepeatsSeparates(raw[..|raw| - 1]); }
  }

  lemma CleanSeparates(raw: Ring)
    ensures NoRepeatedNeighbours(Clean(raw))
  {
    DropRepeatsSeparates(raw);
  }

  lemma {:induction false} DropRepeatsIdentity(ps: Ring)
    requires forall i | 0 <= i < |ps| - 1 :: ps[i] != ps[i + 1]
    ensures DropRepeats(ps) == ps
  {
    if ps != [] {
      DropRepeatsIdentity(ps[..|ps| - 1]);
      assert ps == ps[..|ps| - 1] + [ps[|ps| - 1]];
      if |ps| > 1 { assert ps[|ps| - 2] != ps[|ps| - 2 + 1]; }
    }
  }

  // ---- Twice the signed area ----

  function Det(p: Point, q: Point): int {
    p.x * q.y - q.x * p.y
  }

  /** The shoelace sum along an open chain. */
  function Chain(ps: Ring): int {
    if |ps| < 2 then 0 else Chain(ps[..|ps| - 1]) + Det(ps[|ps| - 2], ps[|ps| - 1])
  }

  function TwiceArea(ps: Ring): int {
    if ps == [] then 0 else Chain(ps + [ps[0]])
  }

  lemma ChainAppend(ps: Ring, x: Point)
    requires ps != []
    ensures Chain(ps + [x]) == Chain(ps) + Det(ps[|ps| - 1], x)
  {
    assert (ps + [x])[..|ps|] == ps;
  }

  lemma {:induction false} ChainConcat(a: Ring, b: Ring)
    requires a != [] && b != []
    ensures Chain(a + b) == Chain(a) + Det(a[|a| - 1], b[0]) + Chain(b)
  {
    if |b| == 1 {
      assert a + b == a + [b[0]];
      ChainAppend(a, b[0]);
    } else {
      var front, last := b[..|b| - 1], b[|b| - 1];
      ChainConcat(a, front);
      assert b == front + [last] && a + b == (a + front) + [last];
      ChainAppend(front, last);
      ChainAppend(a + front, last);
    }
  }

  lemma AreaIsChainPlusClosing(ps: Ring)
    requires ps != []
    ensures TwiceArea(ps) == Chain(ps) + Det(ps[|ps| - 1], ps[0])
  {
    ChainAppend(ps, ps[0]);
  }

  function Rotate(ps: Ring, k: nat): Ring
    requires k <= |ps|
  {
    ps[k..] + ps[..k]
  }

  function Reverse(ps: Ring): (r: Ring)
    ensures |r| == |ps|
    ensures forall i | 0 <= i < |ps| :: r[i] == ps[|ps| - 1 - i]
  {
    seq(|ps|, i requires 0 <= i < |ps| => ps[|ps| - 1 - i])
  }

  lemma AreaRotate(ps: Ring, k: nat)
    requires k <= |ps|
    ensures TwiceArea(Rotate(ps, k)) == TwiceArea(ps)
  {
    var a, b := ps[..k], ps[k..];
    assert ps == a + b;
    if a == [] || b == [] {
      assert b + a == ps;
    } else {
      ChainConcat(a, b);
      ChainConcat(b, a);
      AreaIsChainPlusClosing(a + b);
      AreaIsChainPlusClosing(b + a);
    }
  }

  lemma {:induction false} ChainReverse(ps: Ring)
    ensures Chain(Reverse(ps)) == -Chain(ps)
  {
    if |ps| >= 2 {
      var front, last := ps[..|ps| - 1], ps[|ps| - 1];
      ChainReverse(front);
      var r := Reverse(front);
      assert Reverse(ps) == [last] + r;
      ChainConcat([last], r);
    }
  }

  lemma AreaReverse(ps: Ring)
    ensures TwiceArea(Reverse(ps)) == -TwiceArea(ps)
  {
    if ps != [] {
      var last := ps[|ps| - 1];
      assert Reverse(ps) + [last] == Reverse([last] + ps);
      ChainReverse([last] + ps);
      ChainConcat([last], ps);
      AreaIsChainPlusClosing(ps);
    }
  }

  lemma {:induction false} DropRepeatsKeepsChain(raw: Ring)
    ensures Chain(DropRepeats(raw)) == Chain(raw)
  {
    if raw != [] {
      var front, last := raw[..|raw| - 1], raw[|raw| - 1];
      DropRepeatsKeepsChain(front);
      assert raw == front + [last];
      if front != [] { OnePointMore(front, last); }
    }
  }

  lemma DetOfItself(p: Point)
    ensures Det(p, p) == 0
  {
  }

  lemma OnePointMore(front: Ring, last: Point)
    requires front != [] && Chain(DropRepeats(front)) == Chain(front)
    ensures Chain(DropRepeats(front + [last])) == Chain(front + [last])
  {
    var r := DropRepeats(front);
    assert (front + [last])[..|front + [last]| - 1] == front;
    DetOfItself(last);
    ChainAppend(r, last);
    ChainAppend(front, last);
  }

  lemma CleanKeepsArea(raw: Ring)
    ensures TwiceArea(Clean(raw)) == TwiceArea(raw)
  {
    if raw != [] {
      var r := DropRepeats(raw);
      DropRepeatsKeepsChain(raw);
      AreaIsChainPlusClosing(raw);
      AreaIsChainPlusClosing(r);
      if |r| > 1 && r[0] == r[|r| - 1] {
        var e := r[..|r| - 1];
        assert r == e + [e[0]];
      }
    }
  }

  // ---- The smallest point ----

  predicate PointLeq(p: Point, q: Point) {
    p.x < q.x || (p.x == q.x && p.y <= q.y)
  }

  /** The first index of the lexicographically smallest point. */
  function FirstMin(ps: Ring): (k: nat)
    requires ps != []
    ensures k < |ps|
    ensures forall j | 0 <= j < |ps| :: PointLeq(ps[k], ps[j])
    ensures forall j | 0 <= j < k :: ps[j] != ps[k]
  {
    if |ps| == 1 then 0
    else
      var k := FirstMin(ps[..|ps| - 1]);
      if PointLeq(ps[k], ps[|ps| - 1]) then k else |ps| - 1
  }

  // ---- Normalization ----

  predicate WronglyOriented(ps: Ring, counterClockwise: bool) {
    (counterClockwise && TwiceArea(ps) < 0) || (!counterClockwise && TwiceArea(ps) > 0)
  }

  function Oriented(ps: Ring, counterClockwise: bool): (r: Ring)
    ensures |r| == |ps|
  {
    if WronglyOriented(ps, counterClockwise) then Reverse(ps) else ps
  }

  function MinimumFirst(ps: Ring): Ring
    requires ps != []
  {
    Rotate(ps, FirstMin(ps))
  }

  function Normalize(raw: Ring, counterClockwise: bool): Ring {
    var ps := Clean(raw);
    if |ps| < 3 then [] else MinimumFirst(Oriented(ps, counterClockwise))
  }

  lemma ChainStep(ps: Ring, i: nat)
    requires i < |ps|
    ensures var closed := ps + [ps[0]];
      Chain(closed[..i + 2]) == Chain(closed[..i + 1]) + Det(ps[i], ps[(i + 1) % |ps|])
  {
    var closed := ps + [ps[0]];
    assert closed[i + 1] == ps[(i + 1) % |ps|] by {
      if i + 1 < |ps| { NoWrap(i + 1, |ps|); }
    }
    assert closed[..i + 2] == closed[..i + 1] + [closed[i + 1]];
    ChainAppend(closed[..i + 1], closed[i + 1]);
  }

  lemma NoWrap(i: nat, n: nat)
    requires i < n
    ensures i % n == i
  {
  }

  method NormalizeRing(raw: Ring, counterClockwise: bool) returns (ring: Ring)
    ensures ring == Normalize(raw, counterClockwise)
  {
    var points := RingPoints(raw);
    if |points| < 3 { return []; }
    var area := 0;
    ghost var closed := points + [points[0]];
    for index := 0 to |points|
      invariant area == Chain(closed[..index + 1])
    {
      var next := points[(index + 1) % |points|];
      ChainStep(points, index);
      area := area + (points[index].x * next.y - next.x * points[index].y);
    }
    assert closed[..|points| + 1] == closed;
    if (counterClockwise && area < 0) || (!counterClockwise && area > 0) {
      points := Reverse(points);
    }
    var first := FirstMin(points);
    ring := points[first..] + points[..first];
  }

  lemma RotateKeepsNeighbours(ps: Ring, k: nat)
    requires k <= |ps| && NoRepeatedNeighbours(ps)
    ensures NoRepeatedNeighbours(Rotate(ps, k))
  {
  }

  lemma ReverseKeepsNeighbours(ps: Ring)
    requires NoRepeatedNeighbours(ps)
    ensures NoRepeatedNeighbours(Reverse(ps))
  {
    var r := Reverse(ps);
    forall i | 0 <= i < |r| - 1 ensures r[i] != r[i + 1] {
      var j := |ps| - 2 - i;
      assert ps[j] != ps[j + 1];
    }
  }

  lemma CleanIdentity(ps: Ring)
    requires NoRepeatedNeighbours(ps)
    ensures Clean(ps) == ps
  {
    DropRepeatsIdentity(ps);
  }

  lemma OrientedShape(ps: Ring, counterClockwise: bool)
    requires NoRepeatedNeighbours(ps)
    ensures var o := Oriented(ps, counterClockwise);
      NoRepeatedNeighbours(o) && !WronglyOriented(o, counterClockwise)
  {
    ReverseKeepsNeighbours(ps);
    AreaReverse(ps);
  }

  ghost predicate MinAt(ps: Ring, m: nat) {
    m < |ps| && forall j | 0 <= j < |ps| :: PointLeq(ps[m], ps[j])
  }

  lemma MinimumFirstShape(o: Ring)
    requires o != [] && NoRepeatedNeighbours(o)
    ensures |MinimumFirst(o)| == |o|
    ensures NoRepeatedNeighbours(MinimumFirst(o))
    ensures TwiceArea(MinimumFirst(o)) == TwiceArea(o)
    ensures MinAt(MinimumFirst(o), 0)
  {
    RotateKeepsNeighbours(o, FirstMin(o));
    AreaRotate(o, FirstMin(o));
  }

  /** What a nonempty result looks like: clean, oriented, smallest point first. */
  lemma NormalizedShape(raw: Ring, counterClockwise: bool)
    ensures var r := Normalize(raw, counterClockwise); r != [] ==>
      && |r| >= 3 && NoRepeatedNeighbours(r) && !WronglyOriented(r, counterClockwise) && MinAt(r, 0)
  {
    if Normalize(raw, counterClockwise) != [] {
      CleanSeparates(raw);
      OrientedShape(Clean(raw), counterClockwise);
      MinimumFirstShape(Oriented(Clean(raw), counterClockwise));
    }
  }

  lemma NormalizeClean(ps: Ring, counterClockwise: bool)
    requires NoRepeatedNeighbours(ps) && |ps| >= 3
    ensures Normalize(ps, counterClockwise) == MinimumFirst(Oriented(ps, counterClockwise))
  {
    CleanIdentity(ps);
  }

  /** Normalizing a clean, properly oriented ring whose first point is smallest changes nothing. */
  lemma AlreadyNormal(ps: Ring, counterClockwise: bool)
    requires |ps| >= 3 && NoRepeatedNeighbours(ps) && !WronglyOriented(ps, counterClockwise) && MinAt(ps, 0)
    ensures Normalize(ps, counterClockwise) == ps
  {
    NormalizeClean(ps, counterClockwise);
    assert FirstMin(ps) == 0 by {
      assert PointLeq(ps[FirstMin(ps)], ps[0]) && PointLeq(ps[0], ps[FirstMin(ps)]);
    }
  }

  /** Normalizing twice is normalizing once, whatever the input. */
  lemma NormalizeIdempotent(raw: Ring, counterClockwise: bool)
    ensures Normalize(Normalize(raw, counterClockwise), counterClockwise) == Normalize(raw, counterClockwise)
  {
    var r := Normalize(raw, counterClockwise);
    if r != [] {
      NormalizedShape(raw, counterClockwise);
      AlreadyNormal(r, counterClockwise);
    }
  }

  function Abs(n: int): nat { if n < 0 then -n else n }

  /** The absolute area survives; contours end up with area >= 0, holes with area <= 0. */
  lemma NormalizeKeepsArea(raw: Ring, counterClockwise: bool)
    ensures Abs(TwiceArea(Normalize(raw, counterClockwise))) == Abs(TwiceArea(raw))
    ensures counterClockwise ==> TwiceArea(Normalize(raw, counterClockwise)) >= 0
    ensures !counterClockwise ==> TwiceArea(Normalize(raw, counterClockwise)) <= 0
  {
    var ps := Clean(raw);
    CleanKeepsArea(raw);
    if |ps| < 3 {
      DegenerateArea(ps);
    } else {
      var o := Oriented(ps, counterClockwise);
      CleanSeparates(raw);
      AreaReverse(ps);
      OrientedShape(ps, counterClockwise);
      MinimumFirstShape(o);
    }
  }

  lemma DegenerateArea(ps: Ring)
    requires |ps| < 3
    ensures TwiceArea(ps) == 0
  {
    if |ps| > 0 {
      AreaIsChainPlusClosing(ps);
      if |ps| == 2 { assert Chain(ps[..1]) == 0; }
    }
  }

  // ---- Canonicity ----

  ghost predicate OnlyMinAt(ps: Ring, m: nat) {
    && m < |ps|
    && (forall j | 0 <= j < |ps| && j != m :: PointLeq(ps[m], ps[j]) && ps[m] != ps[j])
  }

  ghost predicate UniqueMin(ps: Ring) {
    exists m :: OnlyMinAt(ps, m)
  }

  ghost predicate IsRotation(a: Ring, b: Ring) {
    exists k | 0 <= k <= |a| :: b == Rotate(a, k)
  }

  lemma RotateAt(ps: Ring, k: nat, x: nat)
    requires k <= |ps| && x < |ps|
    ensures |Rotate(ps, k)| == |ps|
    ensures Rotate(ps, k)[x] == if x < |ps| - k then ps[k + x] else ps[x - (|ps| - k)]
  {
  }

  lemma RotateTwice(ps: Ring, i: nat, j: nat)
    requires i <= |ps| && j <= |ps|
    ensures IsRotation(ps, Rotate(Rotate(ps, i), j))
  {
    var k := if i + j <= |ps| then i + j else i + j - |ps|;
    var once := Rotate(ps, i);
    var twice, turned := Rotate(once, j), Rotate(ps, k);
    assert |twice| == |turned| == |ps|;
    forall x | 0 <= x < |ps| ensures twice[x] == turned[x] {
      RotateAt(once, j, x);
      RotateAt(ps, i, if x < |ps| - j then j + x else x - (|ps| - j));
      RotateAt(ps, k, x);
    }
    assert twice == turned;
  }

  lemma ReverseOfRotation(ps: Ring, k: nat)
    requires k <= |ps|
    ensures IsRotation(Reverse(ps), Reverse(Rotate(ps, k)))
  {
    assert Reverse(Rotate(ps, k)) == Rotate(Reverse(ps), |ps| - k);
  }

  /** All rotations of a ring with one smallest point agree once that point is moved to the front. */
  lemma RotationsAgree(a: Ring, b: Ring)
    requires a != [] && UniqueMin(a) && IsRotation(a, b)
    ensures b != [] && MinimumFirst(b) == MinimumFirst(a)
  {
    var k :| 0 <= k <= |a| && b == Rotate(a, k);
    assert |b| == |a|;
    RotateTwice(a, k, FirstMin(b));
    var r := Rotate(b, FirstMin(b));
    var j :| 0 <= j <= |a| && r == Rotate(a, j);
    var m := FirstMin(a);
    RotationKeepsPoints(a, k, m);
    assert PointLeq(r[0], a[m]);
    StartsAtMin(a, j);
  }

  lemma RotationKeepsPoints(a: Ring, k: nat, m: nat)
    requires k <= |a| && m < |a|
    ensures a[m] in Rotate(a, k)
  {
    assert Rotate(a, k)[if m >= k then m - k else m + |a| - k] == a[m];
  }

  lemma StartsAtMin(a: Ring, j: nat)
    requires a != [] && UniqueMin(a) && j <= |a| && PointLeq(Rotate(a, j)[0], a[FirstMin(a)])
    ensures Rotate(a, j) == MinimumFirst(a)
  {
    var m :| OnlyMinAt(a, m);
    var j' := if j == |a| then 0 else j;
    assert Rotate(a, j) == Rotate(a, j');
    assert FirstMin(a) == m;
    assert j' == m;
  }

  lemma ReverseKeepsUniqueMin(ps: Ring)
    requires UniqueMin(ps)
    ensures UniqueMin(Reverse(ps))
  {
    var m :| OnlyMinAt(ps, m);
    assert OnlyMinAt(Reverse(ps), |ps| - 1 - m);
  }

  lemma OrientRotation(base: Ring, k: nat, counterClockwise: bool)
    requires k <= |base| && TwiceArea(base) != 0
    ensures var variant := Oriented(Rotate(base, k), counterClockwise);
      && IsRotation(Oriented(base, counterClockwise), variant)
      && IsRotation(Oriented(Reverse(base), counterClockwise), variant)
  {
    AreaRotate(base, k);
    AreaReverse(base);
    ReverseOfRotation(base, k);
    assert Reverse(Reverse(base)) == base;
  }

  /** Every rotation of a ring, or of its reversal, has the normal form of the ring. */
  lemma NormalizeVariant(ps: Ring, base: Ring, k: nat, counterClockwise: bool)
    requires |ps| >= 3 && NoRepeatedNeighbours(ps) && TwiceArea(ps) != 0 && UniqueMin(ps)
    requires (base == ps || base == Reverse(ps)) && k <= |base|
    ensures Normalize(Rotate(base, k), counterClockwise) == Normalize(ps, counterClockwise)
  {
    BaseShape(ps);
    RotateKeepsNeighbours(base, k);
    NormalizeClean(ps, counterClockwise);
    NormalizeClean(Rotate(base, k), counterClockwise);
    OrientRotation(base, k, counterClockwise);
    RotationsAgree(Oriented(ps, counterClockwise), Oriented(Rotate(base, k), counterClockwise));
  }

  lemma BaseShape(ps: Ring)
    requires NoRepeatedNeighbours(ps) && UniqueMin(ps)
    ensures NoRepeatedNeighbours(Reverse(ps)) && UniqueMin(Reverse(ps))
    ensures TwiceArea(Reverse(ps)) == -TwiceArea(ps)
    ensures Reverse(Reverse(ps)) == ps
  {
    ReverseKeepsUniqueMin(ps);
    ReverseKeepsNeighbours(ps);
    AreaReverse(ps);
  }

  /** A clean ring with area and a single smallest point has one normal form: where the ring starts and
      which way it runs make no difference. */
  lemma NormalizeCanonical(ps: Ring, k: nat, counterClockwise: bool)
    requires |ps| >= 3 && NoRepeatedNeighbours(ps) && TwiceArea(ps) != 0 && UniqueMin(ps) && k <= |ps|
    ensures Normalize(Rotate(ps, k), counterClockwise) == Normalize(ps, counterClockwise)
    ensures Normalize(Reverse(Rotate(ps, k)), counterClockwise) == Normalize(ps, counterClockwise)
  {
    NormalizeVariant(ps, ps, k, counterClockwise);
    ReverseOfRotation(ps, k);
    var j :| 0 <= j <= |ps| && Reverse(Rotate(ps, k)) == Rotate(Reverse(ps), j);
    NormalizeVariant(ps, Reverse(ps), j, counterClockwise);
  }

  // ---- When all variants of a ring share one form ----

  ghost predicate VariantsAgreeAt(ps: Ring, k: nat, counterClockwise: bool)
    requires k <= |ps|
  {
    && Normalize(Rotate(ps, k), counterClockwise) == Normalize(ps, counterClockwise)
    && Normalize(Reverse(Rotate(ps, k)), counterClockwise) == Normalize(ps, counterClockwise)
  }

  /** Every rotation of the ring and every reversal of one has the ring's normal form. */
  ghost predicate AllVariantsAgree(ps: Ring, counterClockwise: bool) {
    forall k | 0 <= k <= |ps| :: VariantsAgreeAt(ps, k, counterClockwise)
  }

  /** All smallest points, moved to the front, give the same ring. */
  ghost predicate AllMinimaAgree(ps: Ring) {
    forall i, j | MinAt(ps, i) && MinAt(ps, j) :: Rotate(ps, i) == Rotate(ps, j)
  }

  ghost predicate RotationsShareMinimum(ps: Ring) {
    forall r | r != [] && IsRotation(ps, r) :: MinimumFirst(r) == MinimumFirst(ps)
  }

  lemma RotatedMinimum(ps: Ring, i: nat)
    requires i <= |ps| && ps != [] && MinAt(Rotate(ps, i), 0)
    ensures MinAt(ps, if i == |ps| then 0 else i)
  {
    var v := Rotate(ps, i);
    forall x | 0 <= x < |ps| ensures PointLeq(v[0], ps[x]) {
      assert ps[x] == v[if x >= i then x - i else x + |ps| - i];
    }
  }

  lemma MinimumComesFirst(r: Ring)
    requires r != []
    ensures |MinimumFirst(r)| == |r| && MinAt(MinimumFirst(r), 0)
  {
    var f, m := FirstMin(r), MinimumFirst(r);
    assert forall x | 0 <= x < |m| :: m[x] == r[if x < |r| - f then f + x else x - (|r| - f)];
  }

  lemma MinimumFirstIsARotation(ps: Ring, r: Ring) returns (j: nat)
    requires ps != [] && r != [] && IsRotation(ps, r)
    ensures MinAt(ps, j) && MinimumFirst(r) == Rotate(ps, j)
  {
    var k :| 0 <= k <= |ps| && r == Rotate(ps, k);
    RotateTwice(ps, k, FirstMin(r));
    var i :| 0 <= i <= |ps| && MinimumFirst(r) == Rotate(ps, i);
    MinimumComesFirst(r);
    RotatedMinimum(ps, i);
    j := if i == |ps| then 0 else i;
    FullTurn(ps);
  }

  lemma FullTurn(ps: Ring)
    ensures Rotate(ps, |ps|) == ps && Rotate(ps, 0) == ps
  {
  }

  lemma RotationToMinIsFirst(ps: Ring, i: nat)
    requires ps != [] && MinAt(ps, i)
    ensures IsRotation(ps, Rotate(ps, i)) && Rotate(ps, i) != [] && MinimumFirst(Rotate(ps, i)) == Rotate(ps, i)
  {
    var r := Rotate(ps, i);
    assert r[0] == ps[i];
    assert forall x | 0 <= x < |r| :: r[x] in ps;
    assert FirstMin(r) == 0 by {
      assert PointLeq(r[FirstMin(r)], r[0]) && PointLeq(r[0], r[FirstMin(r)]);
    }
    assert Rotate(r, 0) == r;
  }

  lemma SharedMinimumIff(ps: Ring)
    requires ps != []
    ensures RotationsShareMinimum(ps) <==> AllMinimaAgree(ps)
  {
    if RotationsShareMinimum(ps) {
      forall i, j | MinAt(ps, i) && MinAt(ps, j) ensures Rotate(ps, i) == Rotate(ps, j) {
        RotationToMinIsFirst(ps, i);
        RotationToMinIsFirst(ps, j);
      }
    }
    if AllMinimaAgree(ps) {
      assert Rotate(ps, 0) == ps;
      var m := MinimumFirstIsARotation(ps, ps);
      forall r | r != [] && IsRotation(ps, r) ensures MinimumFirst(r) == MinimumFirst(ps) {
        var j := MinimumFirstIsARotation(ps, r);
      }
    }
  }

  lemma ReverseOfMinimum(ps: Ring, i: nat)
    requires MinAt(ps, i)
    ensures MinAt(Reverse(ps), |ps| - 1 - i)
    ensures Rotate(Reverse(ps), |ps| - 1 - i) == Reverse(Rotate(Rotate(ps, i), 1))
  {
    var r := Reverse(ps);
    assert forall x | 0 <= x < |ps| :: r[x] == ps[|ps| - 1 - x];
    assert Rotate(Rotate(ps, i), 1) == Rotate(ps, i + 1);
    assert Rotate(r, |ps| - 1 - i) == Reverse(Rotate(ps, i + 1));
  }

  lemma ReversedMinimaAgree(ps: Ring)
    requires AllMinimaAgree(ps)
    ensures AllMinimaAgree(Reverse(ps))
  {
    var r := Reverse(ps);
    assert Reverse(r) == ps;
    forall i, j | MinAt(r, i) && MinAt(r, j) ensures Rotate(r, i) == Rotate(r, j) {
      ReverseOfMinimum(r, i);
      ReverseOfMinimum(r, j);
      ReverseOfMinimum(ps, |ps| - 1 - i);
      ReverseOfMinimum(ps, |ps| - 1 - j);
    }
  }

  lemma ReversedRotation(ps: Ring, k: nat)
    requires k <= |ps|
    ensures Reverse(Rotate(ps, k)) == Rotate(Reverse(ps), |ps| - k)
    ensures Reverse(Rotate(ps, |ps| - k)) == Rotate(Reverse(ps), k)
  {
  }

  /** The forms of the variants: what the oriented variant gives with its smallest point first. */
  lemma VariantForms(ps: Ring, k: nat, counterClockwise: bool)
    requires |ps| >= 3 && NoRepeatedNeighbours(ps) && k <= |ps|
    ensures Normalize(Rotate(ps, k), counterClockwise) == MinimumFirst(Oriented(Rotate(ps, k), counterClockwise))
    ensures Normalize(Reverse(Rotate(ps, k)), counterClockwise)
         == MinimumFirst(Oriented(Reverse(Rotate(ps, k)), counterClockwise))
    ensures TwiceArea(Rotate(ps, k)) == TwiceArea(ps) && TwiceArea(Reverse(Rotate(ps, k))) == -TwiceArea(ps)
    ensures |Rotate(ps, k)| == |Reverse(Rotate(ps, k))| == |ps|
  {
    RotateKeepsNeighbours(ps, k);
    ReverseKeepsNeighbours(Rotate(ps, k));
    NormalizeClean(Rotate(ps, k), counterClockwise);
    NormalizeClean(Reverse(Rotate(ps, k)), counterClockwise);
    AreaRotate(ps, k);
    AreaReverse(Rotate(ps, k));
  }

  lemma OrientedVariants(ps: Ring, k: nat, counterClockwise: bool)
    requires TwiceArea(ps) != 0 && k <= |ps|
    ensures IsRotation(Oriented(ps, counterClockwise), Oriented(Rotate(ps, k), counterClockwise))
    ensures IsRotation(Oriented(ps, counterClockwise), Oriented(Reverse(Rotate(ps, k)), counterClockwise))
  {
    OrientRotation(ps, k, counterClockwise);
    OrientedReversal(ps, k, counterClockwise);
  }

  lemma OppositeOrientation(x: Ring, y: Ring, counterClockwise: bool)
    requires TwiceArea(x) == -TwiceArea(y) && TwiceArea(y) != 0
    ensures WronglyOriented(x, counterClockwise) <==> !WronglyOriented(y, counterClockwise)
  {
  }

  lemma OrientedReversal(ps: Ring, k: nat, counterClockwise: bool)
    requires TwiceArea(ps) != 0 && k <= |ps|
    ensures IsRotation(Oriented(ps, counterClockwise), Oriented(Reverse(Rotate(ps, k)), counterClockwise))
  {
    var turned := Rotate(ps, k);
    AreaRotate(ps, k);
    AreaReverse(turned);
    OppositeOrientation(Reverse(turned), ps, counterClockwise);
    ReverseTwice(turned);
    ReversedRotation(ps, k);
    if WronglyOriented(ps, counterClockwise) {
      RotatedIsRotation(Reverse(ps), |ps| - k);
    } else {
      RotatedIsRotation(ps, k);
    }
  }

  lemma RotatedIsRotation(ps: Ring, k: nat)
    requires k <= |ps|
    ensures IsRotation(ps, Rotate(ps, k))
  {
  }

  lemma ReverseTwice(ps: Ring)
    ensures Reverse(Reverse(ps)) == ps
  {
  }

  /** The variant that is not wrongly oriented is its own oriented form. */
  lemma VariantForm(ps: Ring, k: nat, counterClockwise: bool)
    requires |ps| >= 3 && NoRepeatedNeighbours(ps) && TwiceArea(ps) != 0 && k <= |ps|
    requires VariantsAgreeAt(ps, k, counterClockwise)
    ensures !WronglyOriented(ps, counterClockwise) ==> MinimumFirst(Rotate(ps, k)) == Normalize(ps, counterClockwise)
    ensures WronglyOriented(ps, counterClockwise) ==>
      MinimumFirst(Reverse(Rotate(ps, k))) == Normalize(ps, counterClockwise)
  {
    VariantForms(ps, k, counterClockwise);
    OppositeOrientation(Reverse(Rotate(ps, k)), ps, counterClockwise);
    OwnForm(Rotate(ps, k), counterClockwise);
    OwnForm(Reverse(Rotate(ps, k)), counterClockwise);
  }

  lemma OwnForm(v: Ring, counterClockwise: bool)
    ensures !WronglyOriented(v, counterClockwise) ==> Oriented(v, counterClockwise) == v
  {
  }

  lemma FormOfRotation(ps: Ring, k: nat, counterClockwise: bool)
    requires |ps| >= 3 && NoRepeatedNeighbours(ps) && TwiceArea(ps) != 0 && k <= |ps|
    requires VariantsAgreeAt(ps, k, counterClockwise) && VariantsAgreeAt(ps, |ps| - k, counterClockwise)
    ensures MinimumFirst(Rotate(Oriented(ps, counterClockwise), k)) == Normalize(ps, counterClockwise)
  {
    if WronglyOriented(ps, counterClockwise) {
      VariantForm(ps, |ps| - k, counterClockwise);
      ReversedRotation(ps, k);
    } else {
      VariantForm(ps, k, counterClockwise);
    }
  }

  /** Every rotation of the oriented ring is the oriented form of a variant. */
  lemma RotationFromVariant(ps: Ring, o: Ring, r: Ring, counterClockwise: bool)
    requires |ps| >= 3 && NoRepeatedNeighbours(ps) && TwiceArea(ps) != 0
    requires AllVariantsAgree(ps, counterClockwise) && r != []
    requires o == Oriented(ps, counterClockwise) && IsRotation(o, r)
    ensures MinimumFirst(r) == Normalize(ps, counterClockwise)
  {
    var k :| 0 <= k <= |o| && r == Rotate(o, k);
    assert VariantsAgreeAt(ps, k, counterClockwise) && VariantsAgreeAt(ps, |ps| - k, counterClockwise);
    FormOfRotation(ps, k, counterClockwise);
  }

  lemma AreaVariantsNeedMinima(ps: Ring, counterClockwise: bool)
    requires |ps| >= 3 && NoRepeatedNeighbours(ps) && TwiceArea(ps) != 0 && AllVariantsAgree(ps, counterClockwise)
    ensures AllMinimaAgree(ps)
  {
    var o := Oriented(ps, counterClockwise);
    SharedMinimumIff(o);
    NormalizeClean(ps, counterClockwise);
    forall r | r != [] && IsRotation(o, r) ensures MinimumFirst(r) == MinimumFirst(o) {
      RotationFromVariant(ps, o, r, counterClockwise);
    }
    ReversedMinimaAgree(o);
    ReverseTwice(ps);
  }

  lemma AreaVariantAgrees(ps: Ring, k: nat, counterClockwise: bool)
    requires |ps| >= 3 && NoRepeatedNeighbours(ps) && TwiceArea(ps) != 0 && AllMinimaAgree(ps) && k <= |ps|
    ensures VariantsAgreeAt(ps, k, counterClockwise)
  {
    ReversedMinimaAgree(ps);
    SharedMinimumIff(Oriented(ps, counterClockwise));
    NormalizeClean(ps, counterClockwise);
    VariantForms(ps, k, counterClockwise);
    OrientedVariants(ps, k, counterClockwise);
  }

  lemma AreaVariantsAgreeIff(ps: Ring, counterClockwise: bool)
    requires |ps| >= 3 && NoRepeatedNeighbours(ps) && TwiceArea(ps) != 0
    ensures AllVariantsAgree(ps, counterClockwise) <==> AllMinimaAgree(ps)
  {
    if AllVariantsAgree(ps, counterClockwise) { AreaVariantsNeedMinima(ps, counterClockwise); }
    if AllMinimaAgree(ps) {
      forall k | 0 <= k <= |ps|
        ensures VariantsAgreeAt(ps, k, counterClockwise)
      {
        AreaVariantAgrees(ps, k, counterClockwise);
      }
    }
  }

  lemma BackToTheRing(ps: Ring, other: Ring, i: nat, j: nat)
    requires |other| == |ps| && i <= |ps| && j <= |ps| && Rotate(other, i) == Rotate(ps, j)
    ensures IsRotation(ps, other)
  {
    assert Rotate(Rotate(other, i), |ps| - i) == other;
    RotateTwice(ps, j, |ps| - i);
  }

  lemma FlatVariantsNeedMinima(ps: Ring, counterClockwise: bool)
    requires |ps| >= 3 && NoRepeatedNeighbours(ps) && TwiceArea(ps) == 0 && AllVariantsAgree(ps, counterClockwise)
    ensures AllMinimaAgree(ps)
  {
    SharedMinimumIff(ps);
    forall r | r != [] && IsRotation(ps, r) ensures MinimumFirst(r) == MinimumFirst(ps) {
      var k :| 0 <= k <= |ps| && r == Rotate(ps, k);
      assert VariantsAgreeAt(ps, k, counterClockwise);
      FlatRotationForm(ps, k, counterClockwise);
    }
  }

  lemma FlatRotationForm(ps: Ring, k: nat, counterClockwise: bool)
    requires |ps| >= 3 && NoRepeatedNeighbours(ps) && TwiceArea(ps) == 0 && k <= |ps|
    requires VariantsAgreeAt(ps, k, counterClockwise)
    ensures MinimumFirst(Rotate(ps, k)) == MinimumFirst(ps)
  {
    FlatForms(ps, counterClockwise);
    VariantForms(ps, k, counterClockwise);
  }

  lemma FlatForms(ps: Ring, counterClockwise: bool)
    requires |ps| >= 3 && NoRepeatedNeighbours(ps) && TwiceArea(ps) == 0
    ensures Normalize(ps, counterClockwise) == MinimumFirst(ps)
    ensures Normalize(Reverse(ps), counterClockwise) == MinimumFirst(Reverse(ps))
  {
    ReverseKeepsNeighbours(ps);
    AreaReverse(ps);
    NormalizeClean(ps, counterClockwise);
    NormalizeClean(Reverse(ps), counterClockwise);
  }

  lemma SameMinimumFirst(ps: Ring, other: Ring)
    requires ps != [] && |other| == |ps| && MinimumFirst(other) == MinimumFirst(ps)
    ensures IsRotation(ps, other)
  {
    BackToTheRing(ps, other, FirstMin(other), FirstMin(ps));
  }

  lemma FlatVariantsNeedBoth(ps: Ring, counterClockwise: bool)
    requires |ps| >= 3 && NoRepeatedNeighbours(ps) && TwiceArea(ps) == 0 && AllVariantsAgree(ps, counterClockwise)
    ensures AllMinimaAgree(ps) && IsRotation(ps, Reverse(ps))
  {
    FlatVariantsNeedMinima(ps, counterClockwise);
    FullTurn(ps);
    assert VariantsAgreeAt(ps, 0, counterClockwise);
    FlatForms(ps, counterClockwise);
    SameMinimumFirst(ps, Reverse(ps));
  }

  lemma FlatVariantAgrees(ps: Ring, k: nat, counterClockwise: bool)
    requires |ps| >= 3 && NoRepeatedNeighbours(ps) && TwiceArea(ps) == 0 && k <= |ps|
    requires AllMinimaAgree(ps) && IsRotation(ps, Reverse(ps))
    ensures VariantsAgreeAt(ps, k, counterClockwise)
  {
    SharedMinimumIff(ps);
    NormalizeClean(ps, counterClockwise);
    VariantForms(ps, k, counterClockwise);
    assert IsRotation(ps, Rotate(ps, k));
    ReversedIsRotation(ps, k);
  }

  lemma ReversedIsRotation(ps: Ring, k: nat)
    requires k <= |ps| && IsRotation(ps, Reverse(ps))
    ensures IsRotation(ps, Reverse(Rotate(ps, k)))
  {
    var m :| 0 <= m <= |ps| && Reverse(ps) == Rotate(ps, m);
    ReversedRotation(ps, k);
    RotateTwice(ps, m, |ps| - k);
  }

  lemma FlatVariantsAgreeIff(ps: Ring, counterClockwise: bool)
    requires |ps| >= 3 && NoRepeatedNeighbours(ps) && TwiceArea(ps) == 0
    ensures AllVariantsAgree(ps, counterClockwise) <==> AllMinimaAgree(ps) && IsRotation(ps, Reverse(ps))
  {
    if AllVariantsAgree(ps, counterClockwise) { FlatVariantsNeedBoth(ps, counterClockwise); }
    if AllMinimaAgree(ps) && IsRotation(ps, Reverse(ps)) {
      forall k | 0 <= k <= |ps|
        ensures VariantsAgreeAt(ps, k, counterClockwise)
      {
        FlatVariantAgrees(ps, k, counterClockwise);
      }
    }
  }

  /** Exactly when every rotation and reversal of a clean ring has one form: its smallest points, moved to the front,
      give the same ring, and without area the ring also runs alike in both directions. */
  lemma VariantsAgreeIff(ps: Ring, counterClockwise: bool)
    requires |ps| >= 3 && NoRepeatedNeighbours(ps)
    ensures AllVariantsAgree(ps, counterClockwise)
       <==> AllMinimaAgree(ps) && (TwiceArea(ps) != 0 || IsRotation(ps, Reverse(ps)))
  {
    if TwiceArea(ps) == 0 {
      FlatVariantsAgreeIff(ps, counterClockwise);
    } else {
      AreaVariantsAgreeIff(ps, counterClockwise);
    }
  }

  /** Without area orientation cannot choose a direction: a flat ring and its mirror image both stay as they
      are, so they share a form only when they are the same ring. */
  lemma FlatRingKeepsItsDirection(ps: Ring, counterClockwise: bool)
    requires |ps| >= 3 && NoRepeatedNeighbours(ps) && TwiceArea(ps) == 0 && MinAt(ps, 0)
    ensures var mirrored := Rotate(Reverse(ps), |ps| - 1);
      Normalize(ps, counterClockwise) == Normalize(mirrored, counterClockwise) <==> ps == mirrored
  {
    var back := Reverse(ps);
    var mirrored := Rotate(back, |ps| - 1);
    ReverseKeepsNeighbours(ps);
    AreaReverse(ps);
    RotateKeepsNeighbours(back, |ps| - 1);
    AreaRotate(back, |ps| - 1);
    AlreadyNormal(ps, counterClockwise);
    assert MinAt(mirrored, 0);
    AlreadyNormal(mirrored, counterClockwise);
  }

  // ---- Rings with more than one form ----

  lemma ThreePointsTurnOneWay(ps: Ring, a: Point, b: Point, c: Point)
    requires ps == [a, b, c] && a != b && b != c && c != a
    ensures !IsRotation(ps, Reverse(ps))
  {
    var back := Reverse(ps);
    forall k | 0 <= k <= |ps| ensures back != Rotate(ps, k) {
      assert back[0] == c && back[1] == b;
      assert Rotate(ps, k)[0] == ps[if k == 3 then 0 else k];
      assert k == 2 ==> Rotate(ps, k)[1] == a;
    }
  }

  lemma AreaOfThree(a: Point, b: Point, c: Point)
    ensures TwiceArea([a, b, c]) == Det(a, b) + Det(b, c) + Det(c, a)
  {
    AreaIsChainPlusClosing([a, b, c]);
    ChainAppend([a], b);
    ChainAppend([a, b], c);
    assert [a] + [b] == [a, b] && [a, b] + [c] == [a, b, c];
  }

  /** Three different points on a line: the ring's reversal has another form. */
  lemma FlatTriangleHasTwoForms(ps: Ring, a: Point, b: Point, c: Point, counterClockwise: bool)
    requires ps == [a, b, c] && a != b && b != c && c != a && Det(a, b) + Det(b, c) + Det(c, a) == 0
    ensures NoRepeatedNeighbours(ps) && TwiceArea(ps) == 0 && !AllVariantsAgree(ps, counterClockwise)
  {
    AreaOfThree(a, b, c);
    ThreePointsTurnOneWay(ps, a, b, c);
    FlatVariantsAgreeIff(ps, counterClockwise);
  }

  lemma DetOnTheAxis(p: Point, q: Point)
    requires p.y == 0 && q.y == 0
    ensures Det(p, q) == 0
  {
  }

  ghost predicate FlatWithTwoForms(ps: Ring, counterClockwise: bool) {
    |ps| >= 3 && NoRepeatedNeighbours(ps) && TwiceArea(ps) == 0 && !AllVariantsAgree(ps, counterClockwise)
  }

  lemma AxisRingHasTwoForms(a: Point, b: Point, c: Point, counterClockwise: bool)
    requires a.y == 0 && b.y == 0 && c.y == 0 && a != b && b != c && c != a
    ensures FlatWithTwoForms([a, b, c], counterClockwise)
  {
    DetOnTheAxis(a, b);
    DetOnTheAxis(b, c);
    DetOnTheAxis(c, a);
    FlatTriangleHasTwoForms([a, b, c], a, b, c, counterClockwise);
  }

  /** A flat ring with more than one form. */
  lemma FlatRingWithTwoForms(counterClockwise: bool)
    ensures FlatWithTwoForms([Point(0, 0), Point(1, 0), Point(2, 0)], counterClockwise)
  {
    AxisRingHasTwoForms(Point(0, 0), Point(1, 0), Point(2, 0), counterClockwise);
  }

  lemma AreaOfSix(a: Point, b: Point, c: Point, d: Point, e: Point, f: Point)
    ensures TwiceArea([a, b, c, d, e, f]) == Det(a, b) + Det(b, c) + Det(c, d) + Det(d, e) + Det(e, f) + Det(f, a)
  {
    var ps := [a, b, c, d, e, f];
    AreaIsChainPlusClosing(ps);
    ChainAppend([a], b);
    ChainAppend([a, b], c);
    ChainAppend([a, b, c], d);
    ChainAppend([a, b, c, d], e);
    ChainAppend([a, b, c, d, e], f);
    assert [a] + [b] == [a, b] && [a, b] + [c] == [a, b, c] && [a, b, c] + [d] == [a, b, c, d];
    assert [a, b, c, d] + [e] == [a, b, c, d, e] && [a, b, c, d, e] + [f] == ps;
  }

  lemma PinchedMinima(ps: Ring, a: Point)
    requires |ps| == 6 && ps[0] == ps[3] == a && ps[1] != ps[4] && forall j | 0 <= j < 6 :: PointLeq(a, ps[j])
    ensures !AllMinimaAgree(ps)
  {
    assert MinAt(ps, 0) && MinAt(ps, 3);
    assert Rotate(ps, 0)[1] == ps[1] && Rotate(ps, 3)[1] == ps[4];
  }

  /** Two loops from one smallest point that leave it differently: one form for each passage. */
  lemma PinchedRingHasTwoForms(ps: Ring, a: Point, b: Point, c: Point, e: Point, f: Point, counterClockwise: bool)
    requires ps == [a, b, c, a, e, f] && a != b && b != c && c != a && a != e && e != f && f != a && b != e
    requires PointLeq(a, b) && PointLeq(a, c) && PointLeq(a, e) && PointLeq(a, f)
    requires Det(a, b) + Det(b, c) + Det(c, a) + Det(a, e) + Det(e, f) + Det(f, a) != 0
    ensures NoRepeatedNeighbours(ps) && TwiceArea(ps) != 0 && !AllVariantsAgree(ps, counterClockwise)
  {
    AreaOfSix(a, b, c, a, e, f);
    PinchedMinima(ps, a);
    AreaVariantsAgreeIff(ps, counterClockwise);
  }

  /** A ring with area and more than one form. */
  lemma PinchedRingWithTwoForms(ps: Ring, a: Point, b: Point, c: Point, e: Point, f: Point, counterClockwise: bool)
    requires ps == [a, b, c, a, e, f] && a == Point(0, 0) && b == Point(2, 0) && c == Point(2, 1)
    requires e == Point(1, 2) && f == Point(0, 3)
    ensures NoRepeatedNeighbours(ps) && TwiceArea(ps) != 0 && !AllVariantsAgree(ps, counterClockwise)
  {
    PinchedRingHasTwoForms(ps, a, b, c, e, f, counterClockwise);
  }
}
