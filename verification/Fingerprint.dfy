/** The content fingerprint of a guest's inputs (xtask/src/build_guests.rs, `fingerprint_entries` and
    `hash_update`): a framed, order-independent byte stream under two 64-bit FNV-1a lanes. */
module Fingerprint {
  import opened Orders

  type Byte = n: nat | n < 256

  datatype Entry = Entry(path: seq<Byte>, bytes: seq<Byte>)

  const TWO_TO_THE_64 := 0x1_0000_0000_0000_0000
  const FNV_PRIME := 1_099_511_628_211
  const FIRST_OFFSET := 0xcbf29ce484222325
  const SECOND_OFFSET := 0x84222325cbf29ce4

  // ---- The framed stream ----

  /** `to_le_bytes` with `k` bytes. */
  function LittleEndian(n: nat, k: nat): (r: seq<Byte>)
    ensures |r| == k
  {
    if k == 0 then [] else [n % 256] + LittleEndian(n / 256, k - 1)
  }

  /** `n` needs at most `k` bytes. */
  ghost predicate Fits(n: nat, k: nat) {
    if k == 0 then n == 0 else Fits(n / 256, k - 1)
  }

  lemma FitsInEight(n: nat)
    requires n < TWO_TO_THE_64
    ensures Fits(n, 8)
  {
    var a := n / 256;
    var b := a / 256;
    var c := b / 256;
    var d := c / 256;
    var e := d / 256;
    var f := e / 256;
    var g := f / 256;
    assert g / 256 == 0;
    assert Fits(g, 1);
    assert Fits(f, 2);
    assert Fits(e, 3);
    assert Fits(d, 4);
    assert Fits(c, 5);
    assert Fits(b, 6);
    assert Fits(a, 7);
  }

  lemma {:induction false} LittleEndianInjective(m: nat, n: nat, k: nat)
    requires Fits(m, k) && Fits(n, k) && LittleEndian(m, k) == LittleEndian(n, k)
    ensures m == n
  {
    if k > 0 {
      var a, b := LittleEndian(m, k), LittleEndian(n, k);
      assert a[0] == b[0] && a[1..] == b[1..];
      LittleEndianInjective(m / 256, n / 256, k - 1);
      assert m == 256 * (m / 256) + m % 256 && n == 256 * (n / 256) + n % 256;
    }
  }

  /** Lengths are machine words in the source. */
  ghost predicate Encodable(e: Entry) {
    |e.path| < TWO_TO_THE_64 && |e.bytes| < TWO_TO_THE_64
  }

  ghost predicate AllEncodable(entries: seq<Entry>) {
    forall e | e in entries :: Encodable(e)
  }

  function Header(e: Entry): seq<Byte> {
    LittleEndian(|e.path|, 8) + e.path + [0] + LittleEndian(|e.bytes|, 8)
  }

  function Frame(e: Entry): seq<Byte> {
    Header(e) + e.bytes
  }

  function Stream(entries: seq<Entry>): seq<Byte> {
    if entries == [] then [] else Stream(entries[..|entries| - 1]) + Frame(entries[|entries| - 1])
  }

  function ByteCode(b: Byte): int { b }

  predicate BytesLeq(a: seq<Byte>, b: seq<Byte>) {
    LexLeq(ByteCode, a, b)
  }

  predicate EntryLeq(a: Entry, b: Entry) {
    if a.path == b.path then BytesLeq(a.bytes, b.bytes) else BytesLeq(a.path, b.path)
  }

  lemma BytesOrder()
    ensures TotalOrder(BytesLeq)
  {
    forall a, b: seq<Byte> ensures BytesLeq(a, b) || BytesLeq(b, a) {
      LexTotal(ByteCode, a, b);
    }
    forall a, b, c: seq<Byte> | BytesLeq(a, b) && BytesLeq(b, c) ensures BytesLeq(a, c) {
      LexTransitive(ByteCode, a, b, c);
    }
    forall a, b: seq<Byte> | BytesLeq(a, b) && BytesLeq(b, a) ensures a == b {
      LexAntisymmetric(ByteCode, a, b);
    }
  }

  lemma EntryOrder()
    ensures TotalOrder(EntryLeq)
  {
    BytesOrder();
  }

  /** The bytes that get hashed. */
  function SortedStream(entries: seq<Entry>): seq<Byte> {
    Stream(Sort(EntryLeq, entries))
  }

  lemma {:induction false} StreamAppend(a: seq<Entry>, b: seq<Entry>)
    ensures Stream(a + b) == Stream(a) + Stream(b)
  {
    if b == [] {
      assert a + b == a;
    } else {
      var front, last := b[..|b| - 1], b[|b| - 1];
      StreamAppend(a, front);
      StreamOneMore(a + front, last);
      SplitLast(a, b);
      AppendAssociative(Stream(a), Stream(front), Frame(last));
    }
  }

  lemma SplitLast(a: seq<Entry>, b: seq<Entry>)
    requires b != []
    ensures b == b[..|b| - 1] + [b[|b| - 1]]
    ensures a + b == (a + b[..|b| - 1]) + [b[|b| - 1]]
  {
  }

  lemma StreamOneMore(entries: seq<Entry>, e: Entry)
    ensures Stream(entries + [e]) == Stream(entries) + Frame(e)
  {
    assert (entries + [e])[..|entries|] == entries;
  }

  lemma StreamHead(e: Entry, rest: seq<Entry>)
    ensures Stream([e] + rest) == Frame(e) + Stream(rest)
  {
    StreamAppend([e], rest);
    assert [e][..0] == [];
    assert Stream([e]) == Frame(e);
  }

  /** A prefix of known length can be cut off an equation. */
  lemma CutPrefix(a: seq<Byte>, x: seq<Byte>, b: seq<Byte>, y: seq<Byte>)
    requires |a| == |b| && a + x == b + y
    ensures a == b && x == y
  {
    assert a == (a + x)[..|a|] && b == (b + y)[..|b|];
    assert x == (a + x)[|a|..] && y == (b + y)[|b|..];
  }

  /** The length framing makes one entry, and what follows it, readable in only one way. */
  lemma FrameInjective(a: Entry, x: seq<Byte>, b: Entry, y: seq<Byte>)
    requires Encodable(a) && Encodable(b) && Frame(a) + x == Frame(b) + y
    ensures a == b && x == y
  {
    var tailA := LittleEndian(|a.bytes|, 8) + (a.bytes + x);
    var tailB := LittleEndian(|b.bytes|, 8) + (b.bytes + y);
    FrameShape(a, x);
    FrameShape(b, y);
    CutPrefix(LittleEndian(|a.path|, 8), a.path + ([0] + tailA), LittleEndian(|b.path|, 8), b.path + ([0] + tailB));
    SameLength(|a.path|, |b.path|);
    CutPrefix(a.path, [0] + tailA, b.path, [0] + tailB);
    CutPrefix([0], tailA, [0], tailB);
    CutPrefix(LittleEndian(|a.bytes|, 8), a.bytes + x, LittleEndian(|b.bytes|, 8), b.bytes + y);
    SameLength(|a.bytes|, |b.bytes|);
    CutPrefix(a.bytes, x, b.bytes, y);
  }

  lemma FrameShape(e: Entry, x: seq<Byte>)
    ensures Frame(e) + x
         == LittleEndian(|e.path|, 8) + (e.path + ([0] + (LittleEndian(|e.bytes|, 8) + (e.bytes + x))))
  {
  }

  lemma SameLength(m: nat, n: nat)
    requires m < TWO_TO_THE_64 && n < TWO_TO_THE_64 && LittleEndian(m, 8) == LittleEndian(n, 8)
    ensures m == n
  {
    FitsInEight(m);
    FitsInEight(n);
    LittleEndianInjective(m, n, 8);
  }

  lemma {:induction false} StreamInjective(a: seq<Entry>, b: seq<Entry>)
    requires AllEncodable(a) && AllEncodable(b) && Stream(a) == Stream(b)
    ensures a == b
  {
    if a == [] || b == [] {
      StreamEmpty(a);
      StreamEmpty(b);
    } else {
      assert a == [a[0]] + a[1..] && b == [b[0]] + b[1..];
      StreamHead(a[0], a[1..]);
      StreamHead(b[0], b[1..]);
      assert Encodable(a[0]) && Encodable(b[0]);
      FrameInjective(a[0], Stream(a[1..]), b[0], Stream(b[1..]));
      StreamInjective(a[1..], b[1..]);
    }
  }

  lemma StreamEmpty(a: seq<Entry>)
    ensures a == [] <==> Stream(a) == []
  {
    if a != [] {
      assert |Frame(a[|a| - 1])| >= 17;
    }
  }

  /** Two lists of entries are hashed as the same stream if and only if they hold the same entries. */
  lemma SortedStreamIffPermutation(a: seq<Entry>, b: seq<Entry>)
    requires AllEncodable(a) && AllEncodable(b)
    ensures SortedStream(a) == SortedStream(b) <==> multiset(a) == multiset(b)
  {
    EntryOrder();
    SortOfPermutation(EntryLeq, a, b);
    if SortedStream(a) == SortedStream(b) {
      SortMembers(EntryLeq, a);
      SortMembers(EntryLeq, b);
      StreamInjective(Sort(EntryLeq, a), Sort(EntryLeq, b));
    }
  }

  // ---- The hash lanes ----

  function Xor(a: nat, b: nat): nat {
    if a == 0 && b == 0 then 0
    else 2 * Xor(a / 2, b / 2) + (if a % 2 == b % 2 then 0 else 1)
  }

  /** One byte: xor, then a multiplication that wraps at 64 bits. */
  function Step(lane: nat, b: Byte): (r: nat)
    ensures r < TWO_TO_THE_64
  {
    Xor(lane, b) * FNV_PRIME % TWO_TO_THE_64
  }

  function Lane(lane: nat, bytes: seq<Byte>): nat {
    if bytes == [] then lane else Step(Lane(lane, bytes[..|bytes| - 1]), bytes[|bytes| - 1])
  }

  function Complement(bytes: seq<Byte>): (r: seq<Byte>)
    ensures |r| == |bytes|
    ensures forall i | 0 <= i < |r| :: r[i] == 255 - bytes[i]
  {
    seq(|bytes|, i requires 0 <= i < |bytes| => 255 - bytes[i])
  }

  method HashUpdate(hash: array<nat>, bytes: seq<Byte>)
    requires hash.Length == 2
    modifies hash
    ensures hash[0] == Lane(old(hash[0]), bytes)
    ensures hash[1] == Lane(old(hash[1]), Complement(bytes))
  {
    for i := 0 to |bytes|
      invariant hash[0] == Lane(old(hash[0]), bytes[..i])
      invariant hash[1] == Lane(old(hash[1]), Complement(bytes[..i]))
    {
      TakeOneMore(bytes, i);
      assert Complement(bytes[..i + 1]) == Complement(bytes[..i]) + [255 - bytes[i]];
      LaneOneMore(old(hash[0]), bytes[..i], bytes[i]);
      LaneOneMore(old(hash[1]), Complement(bytes[..i]), 255 - bytes[i]);
      hash[0] := Xor(hash[0], bytes[i]);
      hash[0] := hash[0] * FNV_PRIME % TWO_TO_THE_64;
      hash[1] := Xor(hash[1], 255 - bytes[i]);
      hash[1] := hash[1] * FNV_PRIME % TWO_TO_THE_64;
    }
    TakeAll(bytes);
  }

  lemma LaneOneMore(lane: nat, bytes: seq<Byte>, b: Byte)
    ensures Lane(lane, bytes + [b]) == Step(Lane(lane, bytes), b)
  {
    assert (bytes + [b])[..|bytes|] == bytes;
  }

  lemma {:induction false} LaneAppend(lane: nat, a: seq<Byte>, b: seq<Byte>)
    ensures Lane(lane, a + b) == Lane(Lane(lane, a), b)
  {
    if b == [] {
      assert a + b == a;
    } else {
      LaneAppend(lane, a, b[..|b| - 1]);
      assert (a + b)[..|a + b| - 1] == a + b[..|b| - 1];
    }
  }

  lemma ComplementAppend(a: seq<Byte>, b: seq<Byte>)
    ensures Complement(a + b) == Complement(a) + Complement(b)
  {
  }

  lemma {:induction false} XorBound(a: nat, b: nat, bound: nat)
    requires a < bound && b < bound && PowerOfTwo(bound)
    ensures Xor(a, b) < bound
  {
    if a != 0 || b != 0 {
      assert bound > 1;
      XorBound(a / 2, b / 2, bound / 2);
    }
  }

  ghost predicate PowerOfTwo(n: nat) {
    n == 1 || (n > 1 && n % 2 == 0 && PowerOfTwo(n / 2))
  }

  lemma {:induction false} XorSelfInverse(a: nat, b: nat)
    ensures Xor(Xor(a, b), b) == a
  {
    if a != 0 || b != 0 {
      XorSelfInverse(a / 2, b / 2);
      var x := Xor(a, b);
      assert x / 2 == Xor(a / 2, b / 2);
    }
  }

  lemma {:induction false} XorCommutes(a: nat, b: nat)
    ensures Xor(a, b) == Xor(b, a)
  {
    if a != 0 || b != 0 { XorCommutes(a / 2, b / 2); }
  }

  /** The inverse of the FNV prime modulo 2^64, and the quotient that witnesses it. */
  const FNV_INVERSE := 14_886_173_955_864_302_971
  const FNV_QUOTIENT := 887_285_111_055

  lemma Remainder(n: int, q: int, r: int)
    requires n == TWO_TO_THE_64 * q + r && 0 <= r < TWO_TO_THE_64
    ensures n % TWO_TO_THE_64 == r
  {
  }

  /** Multiplying by the odd prime loses nothing. */
  lemma MultiplicationRecovers(x: nat)
    requires x < TWO_TO_THE_64
    ensures (x * FNV_PRIME % TWO_TO_THE_64) * FNV_INVERSE % TWO_TO_THE_64 == x
  {
    var q, r := x * FNV_PRIME / TWO_TO_THE_64, x * FNV_PRIME % TWO_TO_THE_64;
    assert FNV_PRIME * FNV_INVERSE == TWO_TO_THE_64 * FNV_QUOTIENT + 1;
    assert r == x * FNV_PRIME - TWO_TO_THE_64 * q;
    Remainder(r * FNV_INVERSE, x * FNV_QUOTIENT - q * FNV_INVERSE, x);
  }

  lemma LaneBound(lane: nat, bytes: seq<Byte>)
    requires lane < TWO_TO_THE_64
    ensures Lane(lane, bytes) < TWO_TO_THE_64
  {
  }

  lemma Doubled(n: nat, m: nat)
    requires PowerOfTwo(n) && m == 2 * n
    ensures PowerOfTwo(m)
  {
    assert m / 2 == n;
  }

  lemma TimesSixteen(n: nat)
    requires PowerOfTwo(n)
    ensures PowerOfTwo(16 * n)
  {
    Doubled(n, 2 * n);
    Doubled(2 * n, 4 * n);
    Doubled(4 * n, 8 * n);
    Doubled(8 * n, 16 * n);
  }

  lemma SixtyFourBits()
    ensures PowerOfTwo(TWO_TO_THE_64)
  {
    TimesSixteen(0x1);
    TimesSixteen(0x10);
    TimesSixteen(0x100);
    TimesSixteen(0x1000);
    TimesSixteen(0x10000);
    TimesSixteen(0x100000);
    TimesSixteen(0x1000000);
    TimesSixteen(0x10000000);
    TimesSixteen(0x100000000);
    TimesSixteen(0x1000000000);
    TimesSixteen(0x10000000000);
    TimesSixteen(0x100000000000);
    TimesSixteen(0x1000000000000);
    TimesSixteen(0x10000000000000);
    TimesSixteen(0x100000000000000);
    TimesSixteen(0x1000000000000000);
  }

  /** A step is a bijection of the lane for a fixed byte, and separates the bytes for a fixed lane. */
  lemma StepSeparates(g: nat, x: Byte, h: nat, y: Byte)
    requires g < TWO_TO_THE_64 && h < TWO_TO_THE_64
    requires Step(g, x) == Step(h, y) && (x == y || g == h)
    ensures g == h && x == y
  {
    SixtyFourBits();
    XorBound(g, x, TWO_TO_THE_64);
    XorBound(h, y, TWO_TO_THE_64);
    MultiplicationRecovers(Xor(g, x));
    MultiplicationRecovers(Xor(h, y));
    if x == y {
      XorSelfInverse(g, x);
      XorSelfInverse(h, x);
    } else {
      XorCommutes(g, x);
      XorCommutes(g, y);
      XorSelfInverse(x, g);
      XorSelfInverse(y, g);
    }
  }

  lemma {:induction false} LaneInjective(g: nat, h: nat, bytes: seq<Byte>)
    requires g < TWO_TO_THE_64 && h < TWO_TO_THE_64 && Lane(g, bytes) == Lane(h, bytes)
    ensures g == h
  {
    if bytes != [] {
      var front, last := bytes[..|bytes| - 1], bytes[|bytes| - 1];
      LaneBound(g, front);
      LaneBound(h, front);
      StepSeparates(Lane(g, front), last, Lane(h, front), last);
      LaneInjective(g, h, front);
    }
  }

  ghost predicate DifferOnlyAt(s: seq<Byte>, t: seq<Byte>, i: nat) {
    && i < |s| == |t|
    && s[i] != t[i]
    && forall j | 0 <= j < |s| && j != i :: s[j] == t[j]
  }

  /** Streams of one length that differ in exactly one byte. */
  ghost predicate OneByteApart(s: seq<Byte>, t: seq<Byte>) {
    exists i: nat :: DifferOnlyAt(s, t, i)
  }

  lemma LaneDetects(lane: nat, p: seq<Byte>, x: Byte, y: Byte, q: seq<Byte>)
    requires lane < TWO_TO_THE_64 && x != y
    ensures Lane(lane, p + [x] + q) != Lane(lane, p + [y] + q)
  {
    LaneAppend(lane, p + [x], q);
    LaneAppend(lane, p + [y], q);
    LaneOneMore(lane, p, x);
    LaneOneMore(lane, p, y);
    LaneBound(lane, p);
    if Lane(lane, p + [x] + q) == Lane(lane, p + [y] + q) {
      LaneInjective(Lane(lane, p + [x]), Lane(lane, p + [y]), q);
      StepSeparates(Lane(lane, p), x, Lane(lane, p), y);
    }
  }

  lemma EditDetected(lane: nat, s: seq<Byte>, t: seq<Byte>)
    requires lane < TWO_TO_THE_64 && OneByteApart(s, t)
    ensures Lane(lane, s) != Lane(lane, t)
  {
    var i: nat :| DifferOnlyAt(s, t, i);
    var p, q := s[..i], s[i + 1..];
    SplitAround(s, i);
    SplitAround(t, i);
    assert t[..i] == p && t[i + 1..] == q;
    LaneDetects(lane, p, s[i], t[i], q);
  }

  lemma ComplementsApart(s: seq<Byte>, t: seq<Byte>)
    requires OneByteApart(s, t)
    ensures OneByteApart(Complement(s), Complement(t))
  {
    var i: nat :| DifferOnlyAt(s, t, i);
    assert DifferOnlyAt(Complement(s), Complement(t), i);
  }

  /** Both lanes detect every one-byte edit. */
  lemma OneByteEditDetected(lane: nat, s: seq<Byte>, t: seq<Byte>)
    requires lane < TWO_TO_THE_64 && OneByteApart(s, t)
    ensures Lane(lane, s) != Lane(lane, t)
    ensures Lane(lane, Complement(s)) != Lane(lane, Complement(t))
  {
    EditDetected(lane, s, t);
    ComplementsApart(s, t);
    EditDetected(lane, Complement(s), Complement(t));
  }

  // ---- The rendered fingerprint ----

  function HexDigit(n: nat): char
    requires n < 16
  {
    "0123456789abcdef"[n]
  }

  /** `{:016x}` for `k == 16`. */
  function Hex(n: nat, k: nat): (r: string)
    ensures |r| == k
  {
    if k == 0 then "" else Hex(n / 16, k - 1) + [HexDigit(n % 16)]
  }

  ghost predicate HexFits(n: nat, k: nat) {
    if k == 0 then n == 0 else HexFits(n / 16, k - 1)
  }

  lemma {:induction false} HexFitsBound(n: nat, k: nat, bound: nat)
    requires n < bound && BoundFor(bound, k)
    ensures HexFits(n, k)
  {
    if k > 0 { HexFitsBound(n / 16, k - 1, bound / 16); }
  }

  /** `bound` is 16 to the power of `k`. */
  ghost predicate BoundFor(bound: nat, k: nat) {
    if k == 0 then bound == 1 else bound % 16 == 0 && BoundFor(bound / 16, k - 1)
  }

  lemma {:induction false} HexInjective(m: nat, n: nat, k: nat)
    requires HexFits(m, k) && HexFits(n, k) && Hex(m, k) == Hex(n, k)
    ensures m == n
  {
    if k > 0 {
      var a, b := Hex(m, k), Hex(n, k);
      assert a[..k - 1] == b[..k - 1] && a[k - 1] == b[k - 1];
      HexInjective(m / 16, n / 16, k - 1);
      HexDigitInjective(m % 16, n % 16);
      assert m == 16 * (m / 16) + m % 16 && n == 16 * (n / 16) + n % 16;
    }
  }

  lemma HexDigitInjective(m: nat, n: nat)
    requires m < 16 && n < 16 && HexDigit(m) == HexDigit(n)
    ensures m == n
  {
  }

  function FingerprintOf(entries: seq<Entry>): string {
    var stream := SortedStream(entries);
    "v2-" + Hex(Lane(FIRST_OFFSET, stream), 16) + Hex(Lane(SECOND_OFFSET, Complement(stream)), 16)
  }

  method FingerprintEntries(entries: seq<Entry>) returns (r: string)
    ensures r == FingerprintOf(entries)
  {
    var ordered := Sort(EntryLeq, entries);
    var hash := new nat[2];
    hash[0], hash[1] := FIRST_OFFSET, SECOND_OFFSET;
    for i := 0 to |ordered|
      invariant hash[0] == Lane(FIRST_OFFSET, Stream(ordered[..i]))
      invariant hash[1] == Lane(SECOND_OFFSET, Complement(Stream(ordered[..i])))
    {
      TakeOneMore(ordered, i);
      HashEntry(hash, ordered[i], Stream(ordered[..i]));
    }
    TakeAll(ordered);
    r := "v2-" + Hex(hash[0], 16) + Hex(hash[1], 16);
  }

  method HashEntry(hash: array<nat>, e: Entry, ghost before: seq<Byte>)
    requires hash.Length == 2
    requires hash[0] == Lane(FIRST_OFFSET, before) && hash[1] == Lane(SECOND_OFFSET, Complement(before))
    modifies hash
    ensures hash[0] == Lane(FIRST_OFFSET, before + Frame(e))
    ensures hash[1] == Lane(SECOND_OFFSET, Complement(before + Frame(e)))
  {
    HashUpdate(hash, LittleEndian(|e.path|, 8));
    HashUpdate(hash, e.path);
    HashUpdate(hash, [0]);
    HashUpdate(hash, LittleEndian(|e.bytes|, 8));
    HashUpdate(hash, e.bytes);
    FivePieces(FIRST_OFFSET, before, LittleEndian(|e.path|, 8), e.path, [0], LittleEndian(|e.bytes|, 8), e.bytes);
    ComplementPieces(before, LittleEndian(|e.path|, 8), e.path, [0], LittleEndian(|e.bytes|, 8), e.bytes);
    FivePieces(SECOND_OFFSET, Complement(before), Complement(LittleEndian(|e.path|, 8)), Complement(e.path),
               Complement([0]), Complement(LittleEndian(|e.bytes|, 8)), Complement(e.bytes));
  }

  lemma FivePieces(lane: nat, s: seq<Byte>, a: seq<Byte>, b: seq<Byte>, c: seq<Byte>, d: seq<Byte>, e: seq<Byte>)
    ensures Lane(Lane(Lane(Lane(Lane(Lane(lane, s), a), b), c), d), e) == Lane(lane, s + (a + b + c + d + e))
  {
    LaneAppend(lane, s, a + b + c + d + e);
    LaneAppend(Lane(lane, s), a, b);
    LaneAppend(Lane(lane, s), a + b, c);
    LaneAppend(Lane(lane, s), a + b + c, d);
    LaneAppend(Lane(lane, s), a + b + c + d, e);
  }

  lemma ComplementPieces(s: seq<Byte>, a: seq<Byte>, b: seq<Byte>, c: seq<Byte>, d: seq<Byte>, e: seq<Byte>)
    ensures Complement(s + (a + b + c + d + e))
         == Complement(s) + (Complement(a) + Complement(b) + Complement(c) + Complement(d) + Complement(e))
  {
    ComplementAppend(s, a + b + c + d + e);
    ComplementAppend(a, b);
    ComplementAppend(a + b, c);
    ComplementAppend(a + b + c, d);
    ComplementAppend(a + b + c + d, e);
  }

  /** The fingerprint does not depend on the order in which the inputs were collected. */
  lemma FingerprintIgnoresOrder(a: seq<Entry>, b: seq<Entry>)
    requires multiset(a) == multiset(b)
    ensures FingerprintOf(a) == FingerprintOf(b)
  {
    EntryOrder();
    SortOfPermutation(EntryLeq, a, b);
  }

  lemma SixteenDigits(n: nat)
    requires n < TWO_TO_THE_64
    ensures HexFits(n, 16)
  {
    assert BoundFor(0x1_0000, 4);
    assert BoundFor(0x1_0000_0000, 8);
    assert BoundFor(0x1_0000_0000_0000, 12);
    HexFitsBound(n, 16, TWO_TO_THE_64);
  }

  /** Two inputs share a fingerprint if and only if both lanes collide on their streams. */
  lemma FingerprintsAgreeIff(a: seq<Entry>, b: seq<Entry>)
    ensures FingerprintOf(a) == FingerprintOf(b) <==> LanesAgree(SortedStream(a), SortedStream(b))
  {
    var s, t := SortedStream(a), SortedStream(b);
    var s', t' := Complement(s), Complement(t);
    if FingerprintOf(a) == FingerprintOf(b) {
      assert FingerprintOf(a)[3..19] == Hex(Lane(FIRST_OFFSET, s), 16);
      assert FingerprintOf(b)[3..19] == Hex(Lane(FIRST_OFFSET, t), 16);
      assert FingerprintOf(a)[19..] == Hex(Lane(SECOND_OFFSET, s'), 16);
      assert FingerprintOf(b)[19..] == Hex(Lane(SECOND_OFFSET, t'), 16);
      RenderedLanes(FIRST_OFFSET, s, t);
      RenderedLanes(SECOND_OFFSET, s', t');
    }
  }

  ghost predicate LanesAgree(s: seq<Byte>, t: seq<Byte>) {
    && Lane(FIRST_OFFSET, s) == Lane(FIRST_OFFSET, t)
    && Lane(SECOND_OFFSET, Complement(s)) == Lane(SECOND_OFFSET, Complement(t))
  }

  lemma RenderedLanes(lane: nat, s: seq<Byte>, t: seq<Byte>)
    requires lane < TWO_TO_THE_64 && Hex(Lane(lane, s), 16) == Hex(Lane(lane, t), 16)
    ensures Lane(lane, s) == Lane(lane, t)
  {
    LaneBound(lane, s);
    LaneBound(lane, t);
    SixteenDigits(Lane(lane, s));
    SixteenDigits(Lane(lane, t));
    HexInjective(Lane(lane, s), Lane(lane, t), 16);
  }

  /** Streams one byte apart are rendered differently. */
  lemma StreamsApartRenderedApart(a: seq<Entry>, b: seq<Entry>)
    requires OneByteApart(SortedStream(a), SortedStream(b))
    ensures FingerprintOf(a) != FingerprintOf(b)
  {
    OneByteEditDetected(FIRST_OFFSET, SortedStream(a), SortedStream(b));
    FingerprintsAgreeIff(a, b);
  }

  // ---- Editing one byte of one input file ----

  function Edit(e: Entry, j: nat, b: Byte): Entry
    requires j < |e.bytes|
  {
    e.(bytes := e.bytes[j := b])
  }

  /** No other entry has the path of entry `i`. */
  ghost predicate OnlyPath(entries: seq<Entry>, i: nat)
    requires i < |entries|
  {
    forall k | 0 <= k < |entries| && k != i :: entries[k].path != entries[i].path
  }

  lemma StreamAround(entries: seq<Entry>, k: nat)
    requires k < |entries|
    ensures Stream(entries) == Stream(entries[..k]) + Frame(entries[k]) + Stream(entries[k + 1..])
  {
    var before, e, after := entries[..k], entries[k], entries[k + 1..];
    SplitAround(entries, k);
    StreamAppend(before + [e], after);
    StreamOneMore(before, e);
  }

  lemma FramesApart(e: Entry, j: nat, b: Byte, p: seq<Byte>, q: seq<Byte>)
    requires j < |e.bytes| && e.bytes[j] != b
    ensures OneByteApart(p + Frame(e) + q, p + Frame(Edit(e, j, b)) + q)
  {
    var s, t := p + Frame(e) + q, p + Frame(Edit(e, j, b)) + q;
    var n := |p| + |Header(e)|;
    assert Header(Edit(e, j, b)) == Header(e);
    ApartAt(p + Header(e), e.bytes, j, b, q);
    assert s == (p + Header(e)) + e.bytes + q;
    assert t == (p + Header(e)) + e.bytes[j := b] + q;
  }

  lemma ApartAt(p: seq<Byte>, m: seq<Byte>, j: nat, b: Byte, q: seq<Byte>)
    requires j < |m| && m[j] != b
    ensures OneByteApart(p + m + q, p + m[j := b] + q)
  {
    var s, t := p + m + q, p + m[j := b] + q;
    assert DifferOnlyAt(s, t, |p| + j);
  }

  /** Sorting keeps the edited entry in its place when its path is its own. */
  lemma EditKeepsOrder(entries: seq<Entry>, i: nat, j: nat, b: Byte) returns (k: nat)
    requires i < |entries| && j < |entries[i].bytes| && OnlyPath(entries, i)
    ensures k < |entries| && Sort(EntryLeq, entries)[k] == entries[i]
    ensures Sort(EntryLeq, entries[i := Edit(entries[i], j, b)])
         == Sort(EntryLeq, entries)[k := Edit(entries[i], j, b)]
  {
    var s, e, e' := Sort(EntryLeq, entries), entries[i], Edit(entries[i], j, b);
    EntryOrder();
    SortSorts(EntryLeq, entries);
    SortMembers(EntryLeq, entries);
    assert e in s;
    k :| 0 <= k < |s| && s[k] == e;
    OthersHaveOtherPaths(entries, i, k);
    var s' := s[k := e'];
    assert Sorted(EntryLeq, s');
    SwapInMultiset(s, k, e');
    SwapInMultiset(entries, i, e');
    SortSorts(EntryLeq, entries[i := e']);
    SortedUnique(EntryLeq, Sort(EntryLeq, entries[i := e']), s');
  }

  lemma SwapInMultiset(s: seq<Entry>, k: nat, e: Entry)
    requires k < |s|
    ensures multiset(s[k := e]) == multiset(s) - multiset{s[k]} + multiset{e}
  {
    assert s == s[..k] + [s[k]] + s[k + 1..];
    assert s[k := e] == s[..k] + [e] + s[k + 1..];
  }

  lemma OthersHaveOtherPaths(entries: seq<Entry>, i: nat, k: nat)
    requires i < |entries| && OnlyPath(entries, i)
    requires k < |entries| && Sort(EntryLeq, entries)[k] == entries[i]
    ensures forall m | 0 <= m < |entries| && m != k :: Sort(EntryLeq, entries)[m].path != entries[i].path
  {
    var s, e := Sort(EntryLeq, entries), entries[i];
    OccursOnce(entries, i);
    SortMembers(EntryLeq, entries);
    forall m | 0 <= m < |s| && m != k ensures s[m].path != e.path {
      if s[m] == e { TwoOccurrences(s, m, k); }
      assert s[m] in s;
      assert s[m] in entries;
    }
  }

  lemma OccursOnce(entries: seq<Entry>, i: nat)
    requires i < |entries| && OnlyPath(entries, i)
    ensures multiset(entries)[entries[i]] == 1
  {
    var e, before, after := entries[i], entries[..i], entries[i + 1..];
    assert entries == before + [e] + after;
    assert e !in before && e !in after;
  }

  lemma TwoOccurrences(s: seq<Entry>, m: nat, k: nat)
    requires m < |s| && k < |s| && m != k && s[m] == s[k]
    ensures multiset(s)[s[k]] >= 2
  {
    var lo, hi := if m < k then m else k, if m < k then k else m;
    assert s == s[..hi] + [s[hi]] + s[hi + 1..];
    assert s[lo] in s[..hi];
  }

  /** Changing one byte of one input changes the fingerprint, when the input is listed under its path once. */
  lemma ByteEditChangesFingerprint(entries: seq<Entry>, i: nat, j: nat, b: Byte)
    requires i < |entries| && j < |entries[i].bytes| && entries[i].bytes[j] != b && OnlyPath(entries, i)
    ensures FingerprintOf(entries[i := Edit(entries[i], j, b)]) != FingerprintOf(entries)
  {
    var k := EditKeepsOrder(entries, i, j, b);
    var s, e' := Sort(EntryLeq, entries), Edit(entries[i], j, b);
    var s' := s[k := e'];
    StreamAround(s, k);
    StreamAround(s', k);
    assert s'[..k] == s[..k] && s'[k + 1..] == s[k + 1..];
    FramesApart(entries[i], j, b, Stream(s[..k]), Stream(s[k + 1..]));
    StreamsApartRenderedApart(entries, entries[i := e']);
  }
}
