/** What an edit of an input does to a fresh guest (xtask/src/build_guests.rs, `compute_guest_freshness`,
    `stale_reason_with_mode` and `fingerprint_entries`). */
module Edits {
  import opened Orders
  import opened Options
  import opened Freshness
  import W = WitVerify
  import F = Fingerprint
  import C = Closure

  // ---- An edit under fixed listings ----

  /** The paths whose readable contents go into the fingerprint. */
  ghost predicate Listed(spec: GuestSpec, inputs: Inputs, closure: seq<C.Path>, p: C.Path) {
    p in inputs.own(spec.guestDir) || p in closure || p == inputs.root + MANIFEST || p == spec.guestDir + LOCKFILE
  }

  /** The contribution of `p` differs, whether the file was edited, created or deleted. */
  ghost predicate Changed(a: Inputs, b: Inputs, p: C.Path) {
    && (p in a.contents || p in b.contents)
    && EntryAt(a, p, UNREADABLE) != EntryAt(b, p, UNREADABLE)
    && EntryAt(a, p, NO_LOCKFILE) != EntryAt(b, p, NO_LOCKFILE)
  }

  ghost predicate SameAt(a: Inputs, b: Inputs, q: C.Path) {
    if q in a.contents then q in b.contents && a.contents[q] == b.contents[q] else q !in b.contents
  }

  /** Other files may change as well, unless they go by the relative name of `p`. */
  ghost predicate NamesakesUnchanged(a: Inputs, b: Inputs, p: C.Path) {
    forall q :: q != p && a.relative(q) == a.relative(p) ==> SameAt(a, b, q)
  }

  /** Only file contents change, that of the listed path `p` among them. */
  ghost predicate ListedEdit(spec: GuestSpec, a: Inputs, b: Inputs, closure: seq<C.Path>, p: C.Path) {
    && b == a.(contents := b.contents)
    && Listed(spec, a, closure, p) && Changed(a, b, p) && NamesakesUnchanged(a, b, p)
  }

  function Count(entries: seq<F.Entry>, e: F.Entry): nat { multiset(entries)[e] }

  /** An entry of another path contributes to the count of `e` on both sides alike. */
  lemma OneEntry(a: Inputs, b: Inputs, p: C.Path, q: C.Path, missing: string, e: F.Entry)
    requires b == a.(contents := b.contents) && p in b.contents && Changed(a, b, p) && NamesakesUnchanged(a, b, p)
    requires missing == UNREADABLE || missing == NO_LOCKFILE
    requires e == EntryAt(b, p, missing)
    ensures EntryAt(a, q, missing) == e ==> q != p && EntryAt(b, q, missing) == e
    ensures q == p ==> EntryAt(b, q, missing) == e
  {
    if q != p && a.relative(q) == a.relative(p) { assert SameAt(a, b, q); }
  }

  function Once(x: F.Entry, e: F.Entry): nat { if x == e then 1 else 0 }

  lemma SnapshotSplits(inputs: Inputs, paths: seq<C.Path>, e: F.Entry)
    requires paths != []
    ensures Count(Snapshot(inputs, paths), e) == Count(Snapshot(inputs, paths[..|paths| - 1]), e)
                                               + Once(EntryAt(inputs, paths[|paths| - 1], UNREADABLE), e)
  {
  }

  lemma {:induction false} SnapshotGains(a: Inputs, b: Inputs, p: C.Path, paths: seq<C.Path>, e: F.Entry)
    requires b == a.(contents := b.contents) && p in b.contents && Changed(a, b, p) && NamesakesUnchanged(a, b, p)
    requires e == EntryAt(b, p, UNREADABLE)
    ensures Count(Snapshot(a, paths), e) <= Count(Snapshot(b, paths), e)
    ensures p in paths ==> Count(Snapshot(a, paths), e) < Count(Snapshot(b, paths), e)
  {
    if paths != [] {
      SnapshotGains(a, b, p, paths[..|paths| - 1], e);
      SnapshotSplits(a, paths, e);
      SnapshotSplits(b, paths, e);
      EntryGains(a, b, p, paths[|paths| - 1], UNREADABLE, e);
      InFrontOrLast(paths, p);
    }
  }

  lemma InFrontOrLast(paths: seq<C.Path>, p: C.Path)
    requires paths != []
    ensures p in paths ==> p in paths[..|paths| - 1] || p == paths[|paths| - 1]
  {
  }

  lemma EntryGains(a: Inputs, b: Inputs, p: C.Path, q: C.Path, missing: string, e: F.Entry)
    requires b == a.(contents := b.contents) && p in b.contents && Changed(a, b, p) && NamesakesUnchanged(a, b, p)
    requires missing == UNREADABLE || missing == NO_LOCKFILE
    requires e == EntryAt(b, p, missing)
    ensures Once(EntryAt(a, q, missing), e) <= Once(EntryAt(b, q, missing), e)
    ensures q == p ==> Once(EntryAt(a, q, missing), e) < Once(EntryAt(b, q, missing), e)
  {
    OneEntry(a, b, p, q, missing, e);
  }

  /** The two synthetic entries depend on no file. */
  lemma ExtrasSplit(spec: GuestSpec, inputs: Inputs, e: F.Entry)
    ensures Count(ExtraEntries(spec, inputs), e)
         == Once(EntryAt(inputs, inputs.root + MANIFEST, UNREADABLE), e)
          + Once(EntryAt(inputs, spec.guestDir + LOCKFILE, NO_LOCKFILE), e) + Synthetic(inputs, e)
  {
    var x := ExtraEntries(spec, inputs);
    CountOfFour(x[0], x[1], x[2], x[3], e);
  }

  function Synthetic(inputs: Inputs, e: F.Entry): nat {
    Once(F.Entry(inputs.encode(RUSTC_ENTRY), inputs.encode(RustcText(inputs.probes))), e)
    + Once(F.Entry(inputs.encode(WASM_TOOLS_ENTRY), inputs.encode(WasmToolsText(inputs.probes))), e)
  }

  lemma CountOfFour(x: F.Entry, y: F.Entry, z: F.Entry, w: F.Entry, e: F.Entry)
    ensures Count([x, y, z, w], e) == Once(x, e) + Once(y, e) + Once(z, e) + Once(w, e)
  {
  }

  lemma ExtrasGain(spec: GuestSpec, a: Inputs, b: Inputs, p: C.Path, e: F.Entry)
    requires b == a.(contents := b.contents) && p in b.contents && Changed(a, b, p) && NamesakesUnchanged(a, b, p)
    requires e == EntryAt(b, p, UNREADABLE)
    ensures Count(ExtraEntries(spec, a), e) <= Count(ExtraEntries(spec, b), e)
    ensures p == a.root + MANIFEST || p == spec.guestDir + LOCKFILE ==>
      Count(ExtraEntries(spec, a), e) < Count(ExtraEntries(spec, b), e)
  {
    EntryGains(a, b, p, a.root + MANIFEST, UNREADABLE, e);
    EntryGains(a, b, p, spec.guestDir + LOCKFILE, NO_LOCKFILE, e);
    ExtrasSplit(spec, a, e);
    ExtrasSplit(spec, b, e);
  }

  lemma CountOfThree(x: seq<F.Entry>, y: seq<F.Entry>, z: seq<F.Entry>, e: F.Entry)
    ensures Count(x + y + z, e) == Count(x, e) + Count(y, e) + Count(z, e)
  {
  }

  lemma EntriesGain(spec: GuestSpec, a: Inputs, b: Inputs, closure: seq<C.Path>, p: C.Path)
    requires ListedEdit(spec, a, b, closure, p) && p in b.contents
    ensures multiset(EntriesOf(spec, a, closure)) != multiset(EntriesOf(spec, b, closure))
  {
    var e, own := EntryAt(b, p, UNREADABLE), a.own(spec.guestDir);
    SnapshotGains(a, b, p, own, e);
    SnapshotGains(a, b, p, closure, e);
    ExtrasGain(spec, a, b, p, e);
    CountOfThree(Snapshot(a, own), Snapshot(a, closure), ExtraEntries(spec, a), e);
    CountOfThree(Snapshot(b, own), Snapshot(b, closure), ExtraEntries(spec, b), e);
    assert Count(EntriesOf(spec, a, closure), e) < Count(EntriesOf(spec, b, closure), e);
  }

  /** Whatever changes in a listed file, listed once or twice, the bytes that get hashed change. */
  lemma EditChangesStream(spec: GuestSpec, a: Inputs, b: Inputs, closure: seq<C.Path>, p: C.Path)
    requires ListedEdit(spec, a, b, closure, p)
    requires F.AllEncodable(EntriesOf(spec, a, closure)) && F.AllEncodable(EntriesOf(spec, b, closure))
    ensures F.SortedStream(EntriesOf(spec, a, closure)) != F.SortedStream(EntriesOf(spec, b, closure))
  {
    if p in b.contents {
      EntriesGain(spec, a, b, closure, p);
    } else {
      EntriesGain(spec, b, a, closure, p);
    }
    F.SortedStreamIffPermutation(EntriesOf(spec, a, closure), EntriesOf(spec, b, closure));
  }

  // ---- Files that join or leave the lists ----

  /** Only files, directory listings and manifests change. */
  ghost predicate SameSurroundings(a: Inputs, b: Inputs) {
    && a.relative == b.relative && a.encode == b.encode && a.root == b.root
    && a.probes == b.probes && a.policy == b.policy && a.schema == b.schema
  }

  /** No other listed path goes by the relative name of `p`, and no synthetic entry does. */
  ghost predicate OwnName(spec: GuestSpec, inputs: Inputs, closure: seq<C.Path>, p: C.Path) {
    && (forall q | Listed(spec, inputs, closure, q) && q != p :: inputs.relative(q) != inputs.relative(p))
    && inputs.relative(p) != inputs.encode(RUSTC_ENTRY) && inputs.relative(p) != inputs.encode(WASM_TOOLS_ENTRY)
  }

  /** A readable file of `b` contributes what no file contributes to `a`: it was not listed, or it differs. */
  ghost predicate Contributes(spec: GuestSpec, a: Inputs, b: Inputs, closureA: seq<C.Path>, closureB: seq<C.Path>,
                              p: C.Path)
  {
    && p in b.contents && Listed(spec, b, closureB, p) && OwnName(spec, a, closureA, p)
    && (Listed(spec, a, closureA, p) ==> Changed(a, b, p))
  }

  lemma {:induction false} InSnapshot(inputs: Inputs, paths: seq<C.Path>, q: C.Path)
    requires q in paths
    ensures EntryAt(inputs, q, UNREADABLE) in Snapshot(inputs, paths)
  {
    InFrontOrLast(paths, q);
    if q in paths[..|paths| - 1] { InSnapshot(inputs, paths[..|paths| - 1], q); }
  }

  lemma {:induction false} SnapshotSource(inputs: Inputs, paths: seq<C.Path>, e: F.Entry) returns (q: C.Path)
    requires e in Snapshot(inputs, paths)
    ensures q in paths && e == EntryAt(inputs, q, UNREADABLE)
  {
    var front, last := paths[..|paths| - 1], paths[|paths| - 1];
    if e in Snapshot(inputs, front) {
      q := SnapshotSource(inputs, front, e);
      assert q in paths;
    } else {
      q := last;
    }
  }

  lemma ExtraSource(spec: GuestSpec, inputs: Inputs, e: F.Entry) returns (q: C.Path, missing: string)
    requires e in ExtraEntries(spec, inputs)
    requires e.path != inputs.encode(RUSTC_ENTRY) && e.path != inputs.encode(WASM_TOOLS_ENTRY)
    ensures q == inputs.root + MANIFEST || q == spec.guestDir + LOCKFILE
    ensures (missing == UNREADABLE || missing == NO_LOCKFILE) && e == EntryAt(inputs, q, missing)
  {
    var x := ExtraEntries(spec, inputs);
    OneOfFour(x[0], x[1], x[2], x[3], e);
    if e == x[0] {
      q, missing := inputs.root + MANIFEST, UNREADABLE;
    } else {
      q, missing := spec.guestDir + LOCKFILE, NO_LOCKFILE;
    }
  }

  lemma OneOfFour(x: F.Entry, y: F.Entry, z: F.Entry, w: F.Entry, e: F.Entry)
    ensures e in [x, y, z, w] <==> e == x || e == y || e == z || e == w
  {
  }

  /** Every entry under a file's name comes from a listed path. */
  lemma EntrySource(spec: GuestSpec, inputs: Inputs, closure: seq<C.Path>, e: F.Entry)
    returns (q: C.Path, missing: string)
    requires e in EntriesOf(spec, inputs, closure)
    requires e.path != inputs.encode(RUSTC_ENTRY) && e.path != inputs.encode(WASM_TOOLS_ENTRY)
    ensures Listed(spec, inputs, closure, q) && e == EntryAt(inputs, q, missing)
    ensures missing == UNREADABLE || missing == NO_LOCKFILE
  {
    missing := UNREADABLE;
    if e in Snapshot(inputs, inputs.own(spec.guestDir)) {
      q := SnapshotSource(inputs, inputs.own(spec.guestDir), e);
    } else if e in Snapshot(inputs, closure) {
      q := SnapshotSource(inputs, closure, e);
    } else {
      q, missing := ExtraSource(spec, inputs, e);
    }
  }

  lemma ListedContributes(spec: GuestSpec, inputs: Inputs, closure: seq<C.Path>, p: C.Path)
    requires p in inputs.contents && Listed(spec, inputs, closure, p)
    ensures EntryAt(inputs, p, UNREADABLE) in EntriesOf(spec, inputs, closure)
  {
    if p in inputs.own(spec.guestDir) {
      InSnapshot(inputs, inputs.own(spec.guestDir), p);
    } else if p in closure {
      InSnapshot(inputs, closure, p);
    } else {
      var x := ExtraEntries(spec, inputs);
      OneOfFour(x[0], x[1], x[2], x[3], EntryAt(inputs, p, UNREADABLE));
    }
  }

  lemma NotContributedBefore(spec: GuestSpec, a: Inputs, b: Inputs, closureA: seq<C.Path>, closureB: seq<C.Path>,
                             p: C.Path)
    requires SameSurroundings(a, b) && Contributes(spec, a, b, closureA, closureB, p)
    ensures EntryAt(b, p, UNREADABLE) !in EntriesOf(spec, a, closureA)
  {
    var e := EntryAt(b, p, UNREADABLE);
    if e in EntriesOf(spec, a, closureA) {
      var q, missing := EntrySource(spec, a, closureA, e);
    }
  }

  lemma NewElement(x: seq<F.Entry>, y: seq<F.Entry>, e: F.Entry)
    requires e in y && e !in x
    ensures multiset(x) != multiset(y)
  {
    assert e in multiset(y) && e !in multiset(x);
  }

  lemma ContributionChangesStream(spec: GuestSpec, a: Inputs, b: Inputs, closureA: seq<C.Path>,
                                  closureB: seq<C.Path>, p: C.Path)
    requires SameSurroundings(a, b) && Contributes(spec, a, b, closureA, closureB, p)
    requires F.AllEncodable(EntriesOf(spec, a, closureA)) && F.AllEncodable(EntriesOf(spec, b, closureB))
    ensures F.SortedStream(EntriesOf(spec, a, closureA)) != F.SortedStream(EntriesOf(spec, b, closureB))
  {
    var e := EntryAt(b, p, UNREADABLE);
    NotContributedBefore(spec, a, b, closureA, closureB, p);
    ListedContributes(spec, b, closureB, p);
    NewElement(EntriesOf(spec, a, closureA), EntriesOf(spec, b, closureB), e);
    F.SortedStreamIffPermutation(EntriesOf(spec, a, closureA), EntriesOf(spec, b, closureB));
  }

  /** A listed file is created, edited, deleted, renamed, or joins or leaves the lists because a manifest changed. */
  ghost predicate FilesMoved(spec: GuestSpec, a: Inputs, b: Inputs, closureA: seq<C.Path>, closureB: seq<C.Path>,
                             p: C.Path)
  {
    || (ListedEdit(spec, a, b, closureA, p) && closureB == closureA)
    || Contributes(spec, a, b, closureA, closureB, p)
    || Contributes(spec, b, a, closureB, closureA, p)
  }

  /** Whatever happens to a listed file, the bytes that get hashed change. */
  lemma MovedFilesChangeStream(spec: GuestSpec, a: Inputs, b: Inputs, closureA: seq<C.Path>, closureB: seq<C.Path>,
                               p: C.Path)
    requires SameSurroundings(a, b) && FilesMoved(spec, a, b, closureA, closureB, p)
    requires F.AllEncodable(EntriesOf(spec, a, closureA)) && F.AllEncodable(EntriesOf(spec, b, closureB))
    ensures F.SortedStream(EntriesOf(spec, a, closureA)) != F.SortedStream(EntriesOf(spec, b, closureB))
  {
    if Contributes(spec, a, b, closureA, closureB, p) {
      ContributionChangesStream(spec, a, b, closureA, closureB, p);
    } else if Contributes(spec, b, a, closureB, closureA, p) {
      ContributionChangesStream(spec, b, a, closureB, closureA, p);
    } else {
      EditChangesStream(spec, a, b, closureA, p);
    }
  }

  // ---- What goes unnoticed ----

  /** A fresh guest passes for fresh after a change of its files, listings and manifests if and only if all reachable
      manifests can still be read and both lanes collide on the streams. */
  lemma ChangeHiddenIffLanesCollide(spec: GuestSpec, disk: Disk, a: Inputs, b: Inputs, canonical: W.WorldModel,
                                    mode: Mode, closureA: seq<C.Path>)
    requires SameSurroundings(a, b) && Fresh(spec, disk, a, canonical, mode)
    requires ClosurePaths(a.closureFiles, spec.manifestPath) == Some(closureA)
    ensures Fresh(spec, disk, b, canonical, mode) <==>
      match ClosurePaths(b.closureFiles, spec.manifestPath)
      case None => false
      case Some(closureB) =>
        F.LanesAgree(F.SortedStream(EntriesOf(spec, a, closureA)), F.SortedStream(EntriesOf(spec, b, closureB)))
  {
    FreshIff(spec, disk, a, canonical, mode);
    FreshIff(spec, disk, b, canonical, mode);
    match ClosurePaths(b.closureFiles, spec.manifestPath)
    case None =>
    case Some(closureB) => F.FingerprintsAgreeIff(EntriesOf(spec, a, closureA), EntriesOf(spec, b, closureB));
  }

  /** A changed input can go unnoticed only by a collision of both lanes on two different streams. */
  lemma UnnoticedChangeIsADoubleCollision(spec: GuestSpec, disk: Disk, a: Inputs, b: Inputs, canonical: W.WorldModel,
                                          mode: Mode, closureA: seq<C.Path>, closureB: seq<C.Path>, p: C.Path)
    requires ClosurePaths(a.closureFiles, spec.manifestPath) == Some(closureA)
    requires ClosurePaths(b.closureFiles, spec.manifestPath) == Some(closureB)
    requires SameSurroundings(a, b) && FilesMoved(spec, a, b, closureA, closureB, p)
    requires F.AllEncodable(EntriesOf(spec, a, closureA)) && F.AllEncodable(EntriesOf(spec, b, closureB))
    requires Fresh(spec, disk, a, canonical, mode) && Fresh(spec, disk, b, canonical, mode)
    ensures DoubleCollision(F.SortedStream(EntriesOf(spec, a, closureA)), F.SortedStream(EntriesOf(spec, b, closureB)))
  {
    ChangeHiddenIffLanesCollide(spec, disk, a, b, canonical, mode, closureA);
    MovedFilesChangeStream(spec, a, b, closureA, closureB, p);
  }

  ghost predicate DoubleCollision(s: seq<F.Byte>, t: seq<F.Byte>) { s != t && F.LanesAgree(s, t) }

  // ---- One byte of a file that is listed once ----

  /** `inputs'` differs from `inputs` in byte `j` of one file, which the guest's inputs list as entry `i` alone. */
  ghost predicate OneByteEdited(spec: GuestSpec, inputs: Inputs, inputs': Inputs, i: nat, j: nat, b: F.Byte) {
    && inputs'.closureFiles == inputs.closureFiles
    && ClosurePaths(inputs.closureFiles, spec.manifestPath).Some?
    && var closure := ClosurePaths(inputs.closureFiles, spec.manifestPath).value;
       var entries := EntriesOf(spec, inputs, closure);
       && i < |entries| && j < |entries[i].bytes| && entries[i].bytes[j] != b && F.OnlyPath(entries, i)
       && EntriesOf(spec, inputs', closure) == entries[i := F.Edit(entries[i], j, b)]
  }

  /** Editing one byte of an input makes a fresh guest stale. */
  lemma EditedInputIsStale(spec: GuestSpec, disk: Disk, inputs: Inputs, inputs': Inputs, canonical: W.WorldModel,
                           canonical': W.WorldModel, mode: Mode, i: nat, j: nat, b: F.Byte)
    ensures Fresh(spec, disk, inputs, canonical, mode) && OneByteEdited(spec, inputs, inputs', i, j, b) ==>
      !Fresh(spec, disk, inputs', canonical', mode)
  {
    if OneByteEdited(spec, inputs, inputs', i, j, b) {
      FreshIff(spec, disk, inputs, canonical, mode);
      FreshIff(spec, disk, inputs', canonical', mode);
      FingerprintMoves(spec, inputs, inputs', i, j, b);
    }
  }

  lemma FingerprintMoves(spec: GuestSpec, inputs: Inputs, inputs': Inputs, i: nat, j: nat, b: F.Byte)
    requires OneByteEdited(spec, inputs, inputs', i, j, b)
    ensures Expected(spec, inputs).Some? && Expected(spec, inputs').Some?
    ensures Expected(spec, inputs).value != Expected(spec, inputs').value
  {
    var closure := ClosurePaths(inputs.closureFiles, spec.manifestPath).value;
    F.ByteEditChangesFingerprint(EntriesOf(spec, inputs, closure), i, j, b);
  }
}
