/** Building one guest (xtask/src/build_guests.rs, `build_one_effective`, `build_one_inner_for_mode` and
    `write_freshness_metadata`). The compiler and the component tools are arbitrary: a build may leave any artifact
    and may fail. A compiler shim may raise the rejection latch during the inner build, the verification and the
    writes of the sidecars. */
module GuestBuild {
  import opened Orders
  import opened Options
  import opened Text
  import opened Freshness
  import W = WitVerify
  import F = Fingerprint
  import C = Closure

  const EXIT_FRESH := 0
  const EXIT_STALE := 1
  const EXIT_INFRA_ERROR := 3

  datatype BuildError = CargoFailed | AcceleratedPolicyRejected | EmbeddedWorldUndecodable
                      | StaleEmbeddedWorld(mismatches: set<W.Drift>) | FingerprintMetadataFailed

  datatype Attempt = Refused(error: BuildError) | Verified | Drifted(drifts: set<W.Drift>)

  // ---- What a build touches ----

  function SidecarAt(disk: Disk, s: Sidecar): Option<string> {
    if s in disk.sidecars then Some(disk.sidecars[s]) else None
  }

  function ArtifactAt(disk: Disk, p: RelPath): Option<Option<W.WorldModel>> {
    if p in disk.artifacts then Some(disk.artifacts[p]) else None
  }

  predicate OwnSidecar(s: Sidecar, crate: string, mode: Mode) {
    s == FingerprintFile(mode, crate) || (mode == Accelerated && s == IdentityFile(crate))
  }

  /** The files of this guest in this mode are the same on both disks. */
  predicate SameFiles(spec: GuestSpec, mode: Mode, a: Disk, b: Disk) {
    && ArtifactAt(a, spec.artifactPath) == ArtifactAt(b, spec.artifactPath)
    && SidecarAt(a, FingerprintFile(mode, spec.crateName)) == SidecarAt(b, FingerprintFile(mode, spec.crateName))
    && (mode == Accelerated ==>
          SidecarAt(a, IdentityFile(spec.crateName)) == SidecarAt(b, IdentityFile(spec.crateName)))
  }

  /** Every file but those of this guest in this mode is the same on both disks. */
  ghost predicate OthersKept(a: Disk, b: Disk, spec: GuestSpec, mode: Mode) {
    && (forall p | p != spec.artifactPath :: ArtifactAt(a, p) == ArtifactAt(b, p))
    && (forall s | !OwnSidecar(s, spec.crateName, mode) :: SidecarAt(a, s) == SidecarAt(b, s))
  }

  /** The sidecars are not those the inputs call for. */
  ghost predicate Unmatched(spec: GuestSpec, disk: Disk, inputs: Inputs, mode: Mode) {
    Expected(spec, inputs).Some? ==> !SidecarsMatch(spec, disk, inputs, mode, Expected(spec, inputs).value)
  }

  lemma UnmatchedIsStale(spec: GuestSpec, disk: Disk, inputs: Inputs, canonical: W.WorldModel, mode: Mode)
    requires Unmatched(spec, disk, inputs, mode)
    ensures !Fresh(spec, disk, inputs, canonical, mode)
  {
    FreshIff(spec, disk, inputs, canonical, mode);
  }

  lemma SameSidecars(spec: GuestSpec, mode: Mode, a: Disk, b: Disk, inputs: Inputs, fingerprint: string)
    requires SameFiles(spec, mode, a, b)
    ensures SidecarsMatch(spec, a, inputs, mode, fingerprint) <==> SidecarsMatch(spec, b, inputs, mode, fingerprint)
  {
  }

  lemma SameFilesAsCalledFor(spec: GuestSpec, mode: Mode, a: Disk, b: Disk, inputs: Inputs, canonical: W.WorldModel)
    requires SameFiles(spec, mode, a, b)
    ensures AsCalledFor(spec, a, inputs, canonical, mode) <==> AsCalledFor(spec, b, inputs, canonical, mode)
  {
    assert Decode(a, spec.artifactPath) == Decode(b, spec.artifactPath);
    match Expected(spec, inputs)
    case None =>
    case Some(fingerprint) => SameSidecars(spec, mode, a, b, inputs, fingerprint);
  }

  lemma SameFilesSameVerdict(spec: GuestSpec, mode: Mode, a: Disk, b: Disk, inputs: Inputs, canonical: W.WorldModel)
    requires SameFiles(spec, mode, a, b)
    ensures Fresh(spec, a, inputs, canonical, mode) <==> Fresh(spec, b, inputs, canonical, mode)
  {
    FreshIff(spec, a, inputs, canonical, mode);
    FreshIff(spec, b, inputs, canonical, mode);
    SameFilesAsCalledFor(spec, mode, a, b, inputs, canonical);
  }

  // ---- The states a run passes through ----

  /** `after` continues `before`, and every added state is as `ok` says. */
  ghost predicate Grew(before: seq<Disk>, after: seq<Disk>, ok: Disk -> bool) {
    before <= after && forall i | |before| <= i < |after| :: ok(after[i])
  }

  lemma GrewTwice(a: seq<Disk>, b: seq<Disk>, c: seq<Disk>, ok: Disk -> bool)
    requires Grew(a, b, ok) && Grew(b, c, ok)
    ensures Grew(a, c, ok)
  {
  }

  lemma GrewWeaker(a: seq<Disk>, b: seq<Disk>, ok: Disk -> bool, ok': Disk -> bool)
    requires Grew(a, b, ok) && forall d | ok(d) :: ok'(d)
    ensures Grew(a, b, ok')
  {
  }

  lemma GrewOne(a: seq<Disk>, d: Disk, ok: Disk -> bool)
    requires ok(d)
    ensures Grew(a, a + [d], ok)
  {
  }

  lemma GrewNone(a: seq<Disk>, ok: Disk -> bool)
    ensures Grew(a, a, ok)
  {
  }

  /** The states of an unfinished build: nothing else is touched, and the guest is stale. */
  ghost function Unfinished(start: Disk, spec: GuestSpec, mode: Mode, inputs: Inputs): Disk -> bool {
    d => OthersKept(start, d, spec, mode) && Unmatched(spec, d, inputs, mode)
  }

  /** A sidecar of the guest is not there. */
  predicate Bare(spec: GuestSpec, mode: Mode, disk: Disk) {
    || FingerprintFile(mode, spec.crateName) !in disk.sidecars
    || (mode == Accelerated && IdentityFile(spec.crateName) !in disk.sidecars)
  }

  ghost predicate IncludesBare(unfinished: Disk -> bool, start: Disk, spec: GuestSpec, mode: Mode) {
    forall d | OthersKept(start, d, spec, mode) && Bare(spec, mode, d) :: unfinished(d)
  }

  lemma BareIsUnfinished(start: Disk, spec: GuestSpec, mode: Mode, inputs: Inputs)
    ensures IncludesBare(Unfinished(start, spec, mode, inputs), start, spec, mode)
  {
  }

  function WithFile(disk: Disk, s: Sidecar, text: string): Disk { disk.(sidecars := disk.sidecars[s := text]) }

  predicate ProperPrefix(torn: string, text: string) { torn <= text && torn != text }

  /** An unfinished state, or the state in which the operation succeeded. */
  ghost function OrFinal(unfinished: Disk -> bool, ok: bool, final: Disk): Disk -> bool {
    d => unfinished(d) || (ok && d == final)
  }

  lemma GrewThenFinished(a: seq<Disk>, b: seq<Disk>, c: seq<Disk>, unfinished: Disk -> bool, ok: bool, final: Disk)
    requires Grew(a, b, unfinished) && Grew(b, c, OrFinal(unfinished, ok, final))
    ensures Grew(a, c, OrFinal(unfinished, ok, final))
  {
  }

  /** A half written fingerprint matches no more than a missing one. */
  lemma TornFingerprint(spec: GuestSpec, mode: Mode, inputs: Inputs, disk: Disk, torn: string)
    requires Expected(spec, inputs).Some? && ProperPrefix(torn, Expected(spec, inputs).value)
    ensures Unmatched(spec, WithFile(disk, FingerprintFile(mode, spec.crateName), torn), inputs, mode)
  {
    TornNeverMatches(torn, Expected(spec, inputs).value);
  }

  lemma TornIdentity(spec: GuestSpec, inputs: Inputs, disk: Disk, torn: string)
    requires ProperPrefix(torn, IdentityText(inputs))
    ensures Unmatched(spec, WithFile(disk, IdentityFile(spec.crateName), torn), inputs, Accelerated)
  {
    TornNeverMatches(torn, IdentityText(inputs));
  }

  lemma WithoutSidecar(start: Disk, disk: Disk, spec: GuestSpec, mode: Mode, s: Sidecar)
    requires OthersKept(start, disk, spec, mode) && OwnSidecar(s, spec.crateName, mode)
    ensures OthersKept(start, disk.(sidecars := disk.sidecars - {s}), spec, mode)
  {
    var disk' := disk.(sidecars := disk.sidecars - {s});
    assert forall p :: ArtifactAt(disk', p) == ArtifactAt(disk, p);
    assert forall t | t != s :: SidecarAt(disk', t) == SidecarAt(disk, t);
  }

  lemma WithSidecar(start: Disk, disk: Disk, spec: GuestSpec, mode: Mode, s: Sidecar, text: string)
    requires OthersKept(start, disk, spec, mode) && OwnSidecar(s, spec.crateName, mode)
    ensures OthersKept(start, disk.(sidecars := disk.sidecars[s := text]), spec, mode)
  {
    var disk' := disk.(sidecars := disk.sidecars[s := text]);
    assert forall p :: ArtifactAt(disk', p) == ArtifactAt(disk, p);
    assert forall t | t != s :: SidecarAt(disk', t) == SidecarAt(disk, t);
  }

  /** Half written sidecars, and the fingerprint without the identity, leave the guest unfinished. */
  ghost predicate TearsAreUnfinished(unfinished: Disk -> bool, start: Disk, spec: GuestSpec, mode: Mode,
                                     fingerprint: string, identity: string)
  {
    && IncludesBare(unfinished, start, spec, mode)
    && (forall d, torn | OthersKept(start, d, spec, mode) && ProperPrefix(torn, fingerprint) ::
          unfinished(WithFile(d, FingerprintFile(mode, spec.crateName), torn)))
    && (mode == Accelerated ==>
          forall d, torn | OthersKept(start, d, spec, mode) && ProperPrefix(torn, identity) ::
            unfinished(WithFile(d, IdentityFile(spec.crateName), torn)))
  }

  lemma TornSidecars(start: Disk, spec: GuestSpec, mode: Mode, inputs: Inputs, fingerprint: string, identity: string)
    requires Expected(spec, inputs) == Some(fingerprint) && identity == IdentityText(inputs)
    ensures TearsAreUnfinished(Unfinished(start, spec, mode, inputs), start, spec, mode, fingerprint, identity)
  {
    var unfinished := Unfinished(start, spec, mode, inputs);
    BareIsUnfinished(start, spec, mode, inputs);
    forall d, torn | OthersKept(start, d, spec, mode) && ProperPrefix(torn, fingerprint)
      ensures unfinished(WithFile(d, FingerprintFile(mode, spec.crateName), torn))
    {
      WithSidecar(start, d, spec, mode, FingerprintFile(mode, spec.crateName), torn);
      TornFingerprint(spec, mode, inputs, d, torn);
    }
    if mode == Accelerated {
      forall d, torn | OthersKept(start, d, spec, mode) && ProperPrefix(torn, identity)
        ensures unfinished(WithFile(d, IdentityFile(spec.crateName), torn))
      {
        WithSidecar(start, d, spec, mode, IdentityFile(spec.crateName), torn);
        TornIdentity(spec, inputs, d, torn);
      }
    }
  }

  /** Both sidecars of the mode, written in full. */
  function Recorded(disk: Disk, spec: GuestSpec, mode: Mode, fingerprint: string, identity: string): Disk {
    var first := WithFile(disk, FingerprintFile(mode, spec.crateName), fingerprint);
    if mode == Accelerated then WithFile(first, IdentityFile(spec.crateName), identity) else first
  }

  lemma RecordedAsCalledFor(disk: Disk, spec: GuestSpec, mode: Mode, inputs: Inputs, fingerprint: string,
                            identity: string, accepted: W.WorldModel -> bool)
    requires Expected(spec, inputs) == Some(fingerprint) && identity == IdentityText(inputs)
    requires HasAccepted(spec, disk, accepted)
    ensures MeetsCall(spec, Recorded(disk, spec, mode, fingerprint, identity), inputs, mode, accepted)
  {
    Written(spec, mode, inputs, fingerprint);
    RecordedTexts(disk, spec, mode, fingerprint, identity);
  }

  lemma RecordedTexts(disk: Disk, spec: GuestSpec, mode: Mode, fingerprint: string, identity: string)
    requires Trim(fingerprint) == fingerprint && Trim(identity) == identity
    ensures var recorded := Recorded(disk, spec, mode, fingerprint, identity);
      && recorded.artifacts == disk.artifacts
      && MetadataMatches(recorded, FingerprintFile(mode, spec.crateName), fingerprint)
      && (mode == Accelerated ==> MetadataMatches(recorded, IdentityFile(spec.crateName), identity))
  {
  }

  /** The texts that are written are not empty and survive being trimmed. */
  lemma Written(spec: GuestSpec, mode: Mode, inputs: Inputs, fingerprint: string)
    requires Expected(spec, inputs) == Some(fingerprint)
    ensures fingerprint != "" && Trim(fingerprint) == fingerprint
    ensures IdentityText(inputs) != "" && Trim(IdentityText(inputs)) == IdentityText(inputs)
  {
    var closure := ClosurePaths(inputs.closureFiles, spec.manifestPath).value;
    FingerprintHasNoSpaceAround(EntriesOf(spec, inputs, closure));
    IdentityHasNoSpaceAround(inputs);
  }

  lemma WithArtifacts(start: Disk, disk: Disk, spec: GuestSpec, mode: Mode,
                      artifacts: map<RelPath, Option<W.WorldModel>>)
    requires OthersKept(start, disk, spec, mode)
    requires forall p | p != spec.artifactPath :: ArtifactAt(Disk(artifacts, map[]), p) == ArtifactAt(disk, p)
    ensures OthersKept(start, disk.(artifacts := artifacts), spec, mode)
  {
    var disk' := disk.(artifacts := artifacts);
    assert forall p :: ArtifactAt(disk', p) == ArtifactAt(Disk(artifacts, map[]), p);
    assert forall t :: SidecarAt(disk', t) == SidecarAt(disk, t);
  }

  /** How many compiler invocations were rejected since the latch was last cleared, and how often it was cleared. */
  datatype LatchLog = LatchLog(rejections: nat, clears: nat)

  /** Nothing clears the latch, and every rejection raises it. */
  ghost predicate LatchKept(was: bool, before: LatchLog, now: bool, after: LatchLog) {
    && (was ==> now) && before.clears == after.clears
    && before.rejections <= after.rejections && (before.rejections < after.rejections ==> now)
  }

  class Workspace {
    var disk: Disk
    var latched: bool
    /** Every state the disk has been in, with an arbitrary torn state for every write under way. */
    ghost var trace: seq<Disk>
    ghost var log: LatchLog
    /** How many inner builds have run, and whether the latch was up when the last one finished. */
    ghost var builds: nat
    ghost var latchedWhenBuilt: bool

    constructor (disk: Disk)
      ensures this.disk == disk && !latched && trace == [disk] && Logged()
      ensures log == LatchLog(0, 0) && builds == 0
    {
      this.disk, latched, trace := disk, false, [disk];
      log, builds, latchedWhenBuilt := LatchLog(0, 0), 0, false;
    }

    /** Compiler shims at work beside the session. */
    method ShimsMayReject()
      modifies this`latched, this`log
      ensures LatchKept(old(latched), old(log), latched, log)
    {
      var rejected: bool := *;
      if rejected { latched, log := true, log.(rejections := log.rejections + 1); }
    }

    method ClearLatch()
      modifies this`latched, this`log
      ensures !latched && log == LatchLog(0, old(log).clears + 1)
    {
      latched, log := false, LatchLog(0, log.clears + 1);
    }

    /** The trace ends with the present state. */
    ghost predicate Logged()
      reads this`disk, this`trace
    {
      trace != [] && trace[|trace| - 1] == disk
    }

    method RemoveFile(s: Sidecar, spec: GuestSpec, mode: Mode, ghost start: Disk)
      requires OwnSidecar(s, spec.crateName, mode) && OthersKept(start, disk, spec, mode)
      requires Logged()
      modifies this`disk, this`trace
      ensures Logged()
      ensures disk == old(disk).(sidecars := old(disk).sidecars - {s}) && trace == old(trace) + [disk]
      ensures OthersKept(start, disk, spec, mode)
    {
      WithoutSidecar(start, disk, spec, mode, s);
      disk := disk.(sidecars := disk.sidecars - {s});
      trace := trace + [disk];
    }

    method RemoveMetadata(spec: GuestSpec, mode: Mode, ghost start: Disk, ghost unfinished: Disk -> bool)
      requires OthersKept(start, disk, spec, mode) && IncludesBare(unfinished, start, spec, mode)
      requires Logged()
      modifies this`disk, this`trace
      ensures Logged()
      ensures disk.artifacts == old(disk).artifacts
      ensures OthersKept(start, disk, spec, mode) && NoMetadata(spec, mode, disk)
      ensures Grew(old(trace), trace, unfinished)
    {
      RemoveFile(FingerprintFile(mode, spec.crateName), spec, mode, start);
      GrewOne(old(trace), disk, unfinished);
      ghost var between := trace;
      if mode == Accelerated {
        RemoveFile(IdentityFile(spec.crateName), spec, mode, start);
        GrewOne(between, disk, unfinished);
        GrewTwice(old(trace), between, trace, unfinished);
      }
    }

    /** The compiler and the component tools: any artifact may result, also one half written. */
    method BuildInner(spec: GuestSpec, mode: Mode, ghost start: Disk, ghost unfinished: Disk -> bool)
      returns (ok: bool)
      requires OthersKept(start, disk, spec, mode) && IncludesBare(unfinished, start, spec, mode)
      requires NoMetadata(spec, mode, disk)
      requires Logged()
      modifies this
      ensures Logged()
      ensures LatchKept(old(latched), old(log), latched, log)
      ensures builds == old(builds) + 1 && latchedWhenBuilt == latched
      ensures OthersKept(start, disk, spec, mode) && disk.sidecars == old(disk).sidecars
      ensures Grew(old(trace), trace, unfinished)
    {
      ok, builds := *, builds + 1;
      GrewNone(trace, unfinished);
      var steps: int := *;
      for i := 0 to if steps < 0 then 0 else steps
        invariant Logged() && builds == old(builds) + 1
        invariant LatchKept(old(latched), old(log), latched, log)
        invariant OthersKept(start, disk, spec, mode) && disk.sidecars == old(disk).sidecars
        invariant Grew(old(trace), trace, unfinished)
      {
        var contents: Option<W.WorldModel>, present: bool := *, *;
        var artifacts := if present then disk.artifacts[spec.artifactPath := contents]
                         else disk.artifacts - {spec.artifactPath};
        WithArtifacts(start, disk, spec, mode, artifacts);
        ShimsMayReject();
        disk := disk.(artifacts := artifacts);
        GrewOne(trace, disk, unfinished);
        GrewTwice(old(trace), trace, trace + [disk], unfinished);
        trace := trace + [disk];
      }
      latchedWhenBuilt := latched;
    }

    /** `fs::write`: it may fail before or after the file is truncated, and an interruption may tear it. */
    method WriteFile(s: Sidecar, text: string, spec: GuestSpec, mode: Mode, ghost start: Disk,
                     ghost unfinished: Disk -> bool) returns (ok: bool)
      requires OwnSidecar(s, spec.crateName, mode) && OthersKept(start, disk, spec, mode)
      requires unfinished(disk)
      requires forall torn | ProperPrefix(torn, text) :: unfinished(WithFile(disk, s, torn))
      requires text != ""
      requires Logged()
      modifies this`disk, this`trace
      ensures Logged()
      ensures OthersKept(start, disk, spec, mode)
      ensures ok ==> disk == WithFile(old(disk), s, text)
      ensures !ok ==> unfinished(disk)
      ensures disk.artifacts == old(disk).artifacts
      ensures Grew(old(trace), trace, OrFinal(unfinished, ok, disk))
    {
      var early: bool, late: bool, k: int := *, *, *;
      if early { return false; }
      var part := if 0 <= k < |text| then text[..k] else "";
      assert ProperPrefix(part, text);
      WithSidecar(start, disk, spec, mode, s, part);
      WithSidecar(start, disk, spec, mode, s, text);
      ghost var before := disk;
      disk := WithFile(disk, s, part);
      trace := trace + [disk];
      if late { return false; }
      disk := WithFile(disk, s, text);
      assert disk == WithFile(before, s, text);
      trace := trace + [disk];
      ok := true;
    }

    /** The fingerprint first, the identity of the accelerated mode last. */
    method WriteSidecars(spec: GuestSpec, mode: Mode, fingerprint: string, identity: string, ghost start: Disk,
                         ghost unfinished: Disk -> bool) returns (ok: bool)
      requires OthersKept(start, disk, spec, mode) && NoMetadata(spec, mode, disk)
      requires TearsAreUnfinished(unfinished, start, spec, mode, fingerprint, identity)
      requires fingerprint != "" && identity != ""
      requires Logged()
      modifies this`disk, this`trace, this`latched, this`log
      ensures Logged()
      ensures LatchKept(old(latched), old(log), latched, log)
      ensures OthersKept(start, disk, spec, mode) && disk.artifacts == old(disk).artifacts
      ensures ok ==> disk == Recorded(old(disk), spec, mode, fingerprint, identity)
      ensures !ok ==> unfinished(disk)
      ensures Grew(old(trace), trace, OrFinal(unfinished, ok, disk))
    {
      ShimsMayReject();
      ok := WriteFile(FingerprintFile(mode, spec.crateName), fingerprint, spec, mode, start, unfinished);
      ShimsMayReject();
      if ok && mode == Accelerated {
        assert unfinished(disk);
        GrewWeaker(old(trace), trace, OrFinal(unfinished, true, disk), unfinished);
        ghost var between := trace;
        ok := WriteFile(IdentityFile(spec.crateName), identity, spec, mode, start, unfinished);
        GrewThenFinished(old(trace), between, trace, unfinished, ok, disk);
      }
    }

    method WriteMetadata(spec: GuestSpec, mode: Mode, inputs: Inputs, fingerprint: string, ghost start: Disk,
                         ghost unfinished: Disk -> bool, ghost accepted: W.WorldModel -> bool) returns (ok: bool)
      requires OthersKept(start, disk, spec, mode) && NoMetadata(spec, mode, disk)
      requires HasAccepted(spec, disk, accepted)
      requires Expected(spec, inputs) == Some(fingerprint) && unfinished == Unfinished(start, spec, mode, inputs)
      requires Logged()
      modifies this`disk, this`trace, this`latched, this`log
      ensures Logged()
      ensures LatchKept(old(latched), old(log), latched, log)
      ensures OthersKept(start, disk, spec, mode) && disk.artifacts == old(disk).artifacts
      ensures ok ==> MeetsCall(spec, disk, inputs, mode, accepted)
      ensures !ok ==> unfinished(disk)
      ensures Grew(old(trace), trace, OrFinal(unfinished, ok, disk))
    {
      var identity := IdentityText(inputs);
      TornSidecars(start, spec, mode, inputs, fingerprint, identity);
      Written(spec, mode, inputs, fingerprint);
      RecordedAsCalledFor(disk, spec, mode, inputs, fingerprint, identity, accepted);
      ok := WriteSidecars(spec, mode, fingerprint, identity, start, unfinished);
    }

    /** One inner build followed by the latch gate and the verification of the artifact. */
    method BuildAndVerify(spec: GuestSpec, mode: Mode, inputs: Inputs, canonical: W.WorldModel, ghost start: Disk,
                          ghost unfinished: Disk -> bool, ghost accepted: W.WorldModel -> bool)
      returns (attempt: Attempt)
      requires Judges(accepted, spec, inputs, canonical)
      requires OthersKept(start, disk, spec, mode) && IncludesBare(unfinished, start, spec, mode)
      requires NoMetadata(spec, mode, disk)
      requires Logged()
      modifies this
      ensures Logged()
      ensures LatchKept(old(latched), old(log), latched, log) && builds == old(builds) + 1
      ensures OthersKept(start, disk, spec, mode) && NoMetadata(spec, mode, disk)
      ensures Grew(old(trace), trace, unfinished)
      ensures attempt.Verified? ==> HasAccepted(spec, disk, accepted)
      ensures (old(latched) ==> latchedWhenBuilt) && (latchedWhenBuilt ==> latched)
      ensures mode == Accelerated && latchedWhenBuilt ==> attempt.Refused?
    {
      var built := BuildInner(spec, mode, start, unfinished);
      if !built { return Refused(CargoFailed); }
      if mode == Accelerated && latched { return Refused(AcceleratedPolicyRejected); }
      ShimsMayReject();
      attempt := VerifyArtifact(spec, disk, inputs, canonical, accepted);
      if attempt.Refused? {
        ghost var between := trace;
        RemoveMetadata(spec, mode, start, unfinished);
        GrewTwice(old(trace), between, trace, unfinished);
      }
    }

    /** Removes the sidecars, builds, and forces one rebuild when the artifact embeds a drifted world. */
    method BuildUntilVerified(spec: GuestSpec, mode: Mode, inputs: Inputs, canonical: W.WorldModel, ghost start: Disk,
                              ghost unfinished: Disk -> bool, ghost accepted: W.WorldModel -> bool)
      returns (error: Option<BuildError>)
      requires Judges(accepted, spec, inputs, canonical)
      requires OthersKept(start, disk, spec, mode) && IncludesBare(unfinished, start, spec, mode)
      requires Logged()
      modifies this
      ensures Logged()
      ensures LatchKept(old(latched), old(log), latched, log)
      ensures old(builds) < builds <= old(builds) + 2
      ensures OthersKept(start, disk, spec, mode) && NoMetadata(spec, mode, disk)
      ensures error.None? ==> HasAccepted(spec, disk, accepted)
      ensures (old(latched) ==> latchedWhenBuilt) && (latchedWhenBuilt ==> latched)
      ensures mode == Accelerated && latchedWhenBuilt ==> error.Some?
      ensures Grew(old(trace), trace, unfinished)
    {
      RemoveMetadata(spec, mode, start, unfinished);
      ghost var removed := trace;
      var attempt := BuildAndVerify(spec, mode, inputs, canonical, start, unfinished, accepted);
      GrewTwice(old(trace), removed, trace, unfinished);
      if attempt.Drifted? {
        // the cached bindings are discarded and the guest is rebuilt once
        ghost var drifted := trace;
        attempt := BuildAndVerify(spec, mode, inputs, canonical, start, unfinished, accepted);
        GrewTwice(old(trace), drifted, trace, unfinished);
      }
      ghost var built := trace;
      match attempt {
        case Verified =>
          error := None;
        case Refused(e) =>
          error := Some(e);
        case Drifted(drifts) =>
          RemoveMetadata(spec, mode, start, unfinished);
          GrewTwice(old(trace), built, trace, unfinished);
          error := Some(StaleEmbeddedWorld(drifts));
      }
    }

    method BuildAndRecord(spec: GuestSpec, mode: Mode, inputs: Inputs, canonical: W.WorldModel, ghost start: Disk,
                          ghost unfinished: Disk -> bool, ghost accepted: W.WorldModel -> bool)
      returns (error: Option<BuildError>)
      requires Judges(accepted, spec, inputs, canonical)
      requires start == disk && unfinished == Unfinished(start, spec, mode, inputs)
      requires Logged()
      modifies this
      ensures Logged()
      ensures LatchKept(old(latched), old(log), latched, log)
      ensures old(builds) < builds <= old(builds) + 2
      ensures OthersKept(start, disk, spec, mode)
      ensures error.None? ==> MeetsCall(spec, disk, inputs, mode, accepted)
      ensures error.Some? ==> unfinished(disk)
      ensures (old(latched) ==> latchedWhenBuilt) && (latchedWhenBuilt ==> latched)
      ensures mode == Accelerated && latchedWhenBuilt ==> error.Some? && NoMetadata(spec, mode, disk)
      ensures Grew(old(trace), trace, OrFinal(unfinished, error.None?, disk))
    {
      BareIsUnfinished(start, spec, mode, inputs);
      error := BuildUntilVerified(spec, mode, inputs, canonical, start, unfinished, accepted);
      ghost var built := trace;
      if error.Some? {
        NothingRecorded(start, disk, spec, mode, inputs);
        GrewWeaker(old(trace), trace, unfinished, OrFinal(unfinished, false, disk));
        return;
      }
      error := RecordFreshness(spec, mode, inputs, start, unfinished, accepted);
      GrewThenFinished(old(trace), built, trace, unfinished, error.None?, disk);
    }

    /** Builds one guest; `spec` is already mapped to the mode. Success and freshness go together, no other guest
        is touched, and every state before the last write leaves the guest stale. In the accelerated mode a guest
        whose last inner build finished under a raised latch fails and has no sidecar. */
    method BuildOneEffective(spec: GuestSpec, mode: Mode, inputs: Inputs, canonical: W.WorldModel)
      returns (error: Option<BuildError>)
      requires Logged()
      modifies this
      ensures Logged()
      ensures LatchKept(old(latched), old(log), latched, log)
      ensures old(builds) < builds <= old(builds) + 2
      ensures OthersKept(old(disk), disk, spec, mode)
      ensures error.None? <==> Fresh(spec, disk, inputs, canonical, mode)
      ensures (old(latched) ==> latchedWhenBuilt) && (latchedWhenBuilt ==> latched)
      ensures mode == Accelerated && latchedWhenBuilt ==> error.Some? && NoMetadata(spec, mode, disk)
      ensures error.Some? ==> Unfinished(old(disk), spec, mode, inputs)(disk)
      ensures Grew(old(trace), trace, OrFinal(Unfinished(old(disk), spec, mode, inputs), error.None?, disk))
    {
      error := BuildAndRecord(spec, mode, inputs, canonical, disk, Unfinished(disk, spec, mode, inputs),
                              embedded => AcceptedWorld(spec, embedded, inputs, canonical));
      Verdict(spec, disk, inputs, canonical, mode, error.None?);
    }

    method RecordFreshness(spec: GuestSpec, mode: Mode, inputs: Inputs, ghost start: Disk,
                           ghost unfinished: Disk -> bool, ghost accepted: W.WorldModel -> bool)
      returns (error: Option<BuildError>)
      requires OthersKept(start, disk, spec, mode) && NoMetadata(spec, mode, disk)
      requires HasAccepted(spec, disk, accepted)
      requires unfinished == Unfinished(start, spec, mode, inputs)
      requires Logged()
      modifies this`disk, this`trace, this`latched, this`log
      ensures Logged()
      ensures LatchKept(old(latched), old(log), latched, log)
      ensures OthersKept(start, disk, spec, mode) && disk.artifacts == old(disk).artifacts
      ensures error.None? ==> MeetsCall(spec, disk, inputs, mode, accepted)
      ensures error.Some? ==> unfinished(disk)
      ensures Grew(old(trace), trace, OrFinal(unfinished, error.None?, disk))
    {
      var fingerprint := FreshlyComputed(spec, inputs);
      if fingerprint.None? {
        NothingRecorded(start, disk, spec, mode, inputs);
        GrewNone(trace, OrFinal(unfinished, false, disk));
        return Some(FingerprintMetadataFailed);
      }
      var ok := WriteMetadata(spec, mode, inputs, fingerprint.value, start, unfinished, accepted);
      error := if ok then None else Some(FingerprintMetadataFailed);
    }
  }

  lemma NothingRecorded(start: Disk, disk: Disk, spec: GuestSpec, mode: Mode, inputs: Inputs)
    requires OthersKept(start, disk, spec, mode) && NoMetadata(spec, mode, disk)
    ensures Unfinished(start, spec, mode, inputs)(disk)
  {
    BareIsUnfinished(start, spec, mode, inputs);
  }

  /** The fingerprint, over a cache of its own. */
  method FreshlyComputed(spec: GuestSpec, inputs: Inputs) returns (r: Option<string>)
    ensures r == Expected(spec, inputs)
  {
    var cache := new C.ClosureCache();
    r := ComputeFreshness(spec, inputs, cache);
  }

  /** `accepted` is the judgement of artifacts of this guest. */
  ghost predicate Judges(accepted: W.WorldModel -> bool, spec: GuestSpec, inputs: Inputs, canonical: W.WorldModel) {
    forall w {:trigger AcceptedWorld(spec, w, inputs, canonical)} ::
      accepted(w) <==> AcceptedWorld(spec, w, inputs, canonical)
  }

  lemma Verdict(spec: GuestSpec, disk: Disk, inputs: Inputs, canonical: W.WorldModel, mode: Mode, success: bool)
    requires if success then AsCalledFor(spec, disk, inputs, canonical, mode) else Unmatched(spec, disk, inputs, mode)
    ensures Fresh(spec, disk, inputs, canonical, mode) <==> success
  {
    FreshIff(spec, disk, inputs, canonical, mode);
  }

  /** Resolves the stage from the artifact and compares its world with the canonical one. */
  method VerifyArtifact(spec: GuestSpec, disk: Disk, inputs: Inputs, canonical: W.WorldModel,
                        ghost accepted: W.WorldModel -> bool) returns (attempt: Attempt)
    requires Judges(accepted, spec, inputs, canonical)
    ensures attempt.Verified? <==> HasAccepted(spec, disk, accepted)
  {
    var embedded := Decode(disk, spec.artifactPath);
    if embedded.None? { return Refused(EmbeddedWorldUndecodable); }
    assert accepted(embedded.value) <==> AcceptedWorld(spec, embedded.value, inputs, canonical);
    var resolution := W.ResolveStage(embedded.value, inputs.schema);
    if !resolution.Resolved? { return Refused(EmbeddedWorldUndecodable); }
    if !StageFits(spec, resolution.stage) { return Refused(StaleEmbeddedWorld({})); }
    var drifts := W.CompareWorlds(embedded.value, canonical, Some(resolution.stage), inputs.schema);
    if drifts == [] { return Verified; }
    attempt := Drifted(set d | d in drifts);
  }

  /** Neither sidecar is there. */
  predicate NoMetadata(spec: GuestSpec, mode: Mode, disk: Disk) {
    && FingerprintFile(mode, spec.crateName) !in disk.sidecars
    && (mode == Accelerated ==> IdentityFile(spec.crateName) !in disk.sidecars)
  }
}
