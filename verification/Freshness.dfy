/** When a guest counts as fresh (xtask/src/build_guests.rs, `compute_guest_freshness` and
    `stale_reason_with_mode`). Everything a build or a check reads but does not write is gathered in `Inputs`;
    what it writes is gathered in `Disk`. */
module Freshness {
  import opened Orders
  import opened Options
  import opened Text
  import W = WitVerify
  import F = Fingerprint
  import C = Closure

  datatype Mode = Ordinary | Accelerated

  /** A path below the workspace root, as its components. */
  type RelPath = seq<string>

  datatype GuestSpec = GuestSpec(crateName: string, manifestPath: C.Path, guestDir: C.Path, artifactPath: RelPath,
                                 stageId: Option<string>)

  /** The single probe of the toolchain; `wasmTools` is None when the tool cannot be run. */
  datatype Probes = Probes(rustc: Option<string>, wasmTools: Option<string>)

  /** `own` lists the files of a guest directory that count as inputs, `closureFiles` drives the dependency walk,
      `contents` holds the readable files, `relative` names a path relative to the workspace. */
  datatype Inputs = Inputs(own: C.Path -> seq<C.Path>, closureFiles: C.FileSystem, contents: map<C.Path, seq<F.Byte>>,
                           relative: C.Path -> seq<F.Byte>, encode: string -> seq<F.Byte>, root: C.Path,
                           probes: Probes, policy: string, schema: W.Schema)

  // ---- The fingerprint of a guest ----

  const UNREADABLE := "<unreadable-input>"
  const NO_LOCKFILE := "<no-lockfile>"
  const RUSTC_ENTRY := "synthetic:rustc -vV"
  const WASM_TOOLS_ENTRY := "synthetic:wasm-tools --version"
  const NO_RUSTC := "<rustc-unavailable>"
  const NO_WASM_TOOLS := "<wasm-tools-unavailable>"
  const POLICY_ENTRY := "accelerated-policy"
  const MANIFEST := "/Cargo.toml"
  const LOCKFILE := "/Cargo.lock"

  /** What reading `path` contributes; `missing` stands in for a file that cannot be read. */
  function EntryAt(inputs: Inputs, path: C.Path, missing: string): F.Entry {
    F.Entry(inputs.relative(path), if path in inputs.contents then inputs.contents[path] else inputs.encode(missing))
  }

  function Snapshot(inputs: Inputs, paths: seq<C.Path>): seq<F.Entry> {
    if paths == [] then []
    else Snapshot(inputs, paths[..|paths| - 1]) + [EntryAt(inputs, paths[|paths| - 1], UNREADABLE)]
  }

  function RustcText(probes: Probes): string { if probes.rustc.Some? then probes.rustc.value else NO_RUSTC }

  function WasmToolsText(probes: Probes): string {
    if probes.wasmTools.Some? then probes.wasmTools.value else NO_WASM_TOOLS
  }

  function ExtraEntries(spec: GuestSpec, inputs: Inputs): seq<F.Entry> {
    [EntryAt(inputs, inputs.root + MANIFEST, UNREADABLE),
     EntryAt(inputs, spec.guestDir + LOCKFILE, NO_LOCKFILE),
     F.Entry(inputs.encode(RUSTC_ENTRY), inputs.encode(RustcText(inputs.probes))),
     F.Entry(inputs.encode(WASM_TOOLS_ENTRY), inputs.encode(WasmToolsText(inputs.probes)))]
  }

  /** The files of the reachable manifests, or None when one of them cannot be read. */
  ghost function ClosurePaths(files: C.FileSystem, start: C.Path): (r: Option<seq<C.Path>>)
    ensures r.Some? ==> C.Correct(C.Inputs(r.value), files, start)
    ensures r.None? ==> forall paths :: !C.Correct(C.Inputs(paths), files, start)
  {
    if exists paths :: C.Correct(C.Inputs(paths), files, start) then
      var paths :| C.Correct(C.Inputs(paths), files, start);
      Some(paths)
    else None
  }

  function EntriesOf(spec: GuestSpec, inputs: Inputs, closure: seq<C.Path>): seq<F.Entry> {
    Snapshot(inputs, inputs.own(spec.guestDir)) + Snapshot(inputs, closure) + ExtraEntries(spec, inputs)
  }

  /** The fingerprint the sidecar has to hold. */
  ghost function Expected(spec: GuestSpec, inputs: Inputs): Option<string> {
    match ClosurePaths(inputs.closureFiles, spec.manifestPath)
    case None => None
    case Some(closure) => Some(F.FingerprintOf(EntriesOf(spec, inputs, closure)))
  }

  method SnapshotFromPaths(inputs: Inputs, paths: seq<C.Path>) returns (entries: seq<F.Entry>)
    ensures entries == Snapshot(inputs, paths)
  {
    entries := [];
    for i := 0 to |paths|
      invariant entries == Snapshot(inputs, paths[..i])
    {
      TakeOneMore(paths, i);
      entries := entries + [EntryAt(inputs, paths[i], UNREADABLE)];
    }
    TakeAll(paths);
  }

  /** The answer is the same for every cache that agrees with the files. */
  method ComputeFreshness(spec: GuestSpec, inputs: Inputs, cache: C.ClosureCache) returns (r: Option<string>)
    requires C.Agrees(cache.inner, inputs.closureFiles)
    modifies cache
    ensures C.Agrees(cache.inner, inputs.closureFiles)
    ensures r == Expected(spec, inputs)
  {
    var guest := SnapshotFromPaths(inputs, inputs.own(spec.guestDir));
    var answer := C.InputPaths(spec.manifestPath, inputs.closureFiles, cache);
    WalkIsExpected(answer, inputs.closureFiles, spec.manifestPath);
    if answer.Unreadable? { return None; }
    var closure := SnapshotFromPaths(inputs, answer.paths);
    var fingerprint := F.FingerprintEntries(guest + closure + ExtraEntries(spec, inputs));
    r := Some(fingerprint);
  }

  lemma WalkIsExpected(answer: C.Answer, files: C.FileSystem, start: C.Path)
    requires C.Correct(answer, files, start)
    ensures ClosurePaths(files, start) == match answer case Inputs(paths) => Some(paths) case Unreadable(_) => None
  {
    var expected := ClosurePaths(files, start);
    if expected.Some? {
      C.AnswerIsDetermined(answer, C.Inputs(expected.value), files, start);
    }
  }

  /** The identity sidecar of the accelerated mode. */
  function IdentityText(inputs: Inputs): string {
    "mode=accelerated\npolicy=" + inputs.policy
    + "\npolicy-fingerprint=" + F.FingerprintOf([F.Entry(inputs.encode(POLICY_ENTRY), inputs.encode(inputs.policy))])
    + "\nrustc-vV=" + Trim(RustcText(inputs.probes))
  }

  // ---- What builds write ----

  datatype Sidecar = FingerprintFile(mode: Mode, crate: string) | IdentityFile(crate: string)

  /** An artifact is known by what decoding it yields: a world, or nothing. */
  datatype Disk = Disk(artifacts: map<RelPath, Option<W.WorldModel>>, sidecars: map<Sidecar, string>)

  const NAMESPACE := ["target", "guests-accelerated", "artifacts"]

  function ArtifactPathForMode(path: RelPath, mode: Mode): RelPath {
    if mode == Ordinary then path else NAMESPACE + path
  }

  function SpecForMode(spec: GuestSpec, mode: Mode): GuestSpec {
    spec.(artifactPath := ArtifactPathForMode(spec.artifactPath, mode))
  }

  function Decode(disk: Disk, path: RelPath): Option<W.WorldModel> {
    if path in disk.artifacts then disk.artifacts[path] else None
  }

  predicate MetadataMatches(disk: Disk, sidecar: Sidecar, expected: string) {
    sidecar in disk.sidecars && Trim(disk.sidecars[sidecar]) == expected
  }

  predicate SidecarsMatch(spec: GuestSpec, disk: Disk, inputs: Inputs, mode: Mode, fingerprint: string) {
    && MetadataMatches(disk, FingerprintFile(mode, spec.crateName), fingerprint)
    && (mode == Accelerated ==> MetadataMatches(disk, IdentityFile(spec.crateName), IdentityText(inputs)))
  }

  // ---- Reasons for staleness ----

  datatype Reason = ArtifactMissing | FingerprintMismatch | Undecodable | StageUnresolved(error: W.Resolution)
                  | StageMismatch(expected: string, resolved: string) | EmbeddedWorldDrift(drifts: set<W.Drift>)

  predicate StageFits(spec: GuestSpec, stage: W.Stage) {
    spec.stageId.Some? ==> spec.stageId.value == stage.id
  }

  /** `spec` is already mapped to the mode. */
  ghost function StaleReason(spec: GuestSpec, disk: Disk, inputs: Inputs, canonical: W.WorldModel, mode: Mode)
    : Option<Reason>
  {
    if spec.artifactPath !in disk.artifacts then Some(ArtifactMissing)
    else
      match Decode(disk, spec.artifactPath)
      case None => Some(Undecodable)
      case Some(embedded) => StaleWorld(spec, embedded, disk, inputs, canonical, mode)
  }

  ghost function StaleWorld(spec: GuestSpec, embedded: W.WorldModel, disk: Disk, inputs: Inputs,
                            canonical: W.WorldModel, mode: Mode) : Option<Reason>
  {
    match W.Resolve(embedded, inputs.schema)
    case Resolved(stage) =>
      if !StageFits(spec, stage) then Some(StageMismatch(spec.stageId.value, stage.id))
      else StaleContents(spec, embedded, stage, disk, inputs, canonical, mode)
    case error => Some(StageUnresolved(error))
  }

  /** A differing fingerprint is reported before a drifted world. */
  ghost function StaleContents(spec: GuestSpec, embedded: W.WorldModel, stage: W.Stage, disk: Disk, inputs: Inputs,
                               canonical: W.WorldModel, mode: Mode) : Option<Reason>
  {
    match Expected(spec, inputs)
    case None => Some(Undecodable)
    case Some(fingerprint) =>
      var drifts := W.AllDrifts(embedded, canonical, Some(stage), inputs.schema);
      if !SidecarsMatch(spec, disk, inputs, mode, fingerprint) then Some(FingerprintMismatch)
      else if drifts != {} then Some(EmbeddedWorldDrift(drifts))
      else None
  }

  ghost predicate Fresh(spec: GuestSpec, disk: Disk, inputs: Inputs, canonical: W.WorldModel, mode: Mode) {
    StaleReason(spec, disk, inputs, canonical, mode) == None
  }

  method StaleReasonOf(spec: GuestSpec, disk: Disk, inputs: Inputs, canonical: W.WorldModel, mode: Mode,
                       cache: C.ClosureCache) returns (r: Option<Reason>)
    requires C.Agrees(cache.inner, inputs.closureFiles)
    modifies cache
    ensures C.Agrees(cache.inner, inputs.closureFiles)
    ensures r == StaleReason(spec, disk, inputs, canonical, mode)
  {
    if spec.artifactPath !in disk.artifacts { return Some(ArtifactMissing); }
    var decoded := Decode(disk, spec.artifactPath);
    if decoded.None? { return Some(Undecodable); }
    var resolution := W.ResolveStage(decoded.value, inputs.schema);
    if !resolution.Resolved? { return Some(StageUnresolved(resolution)); }
    if !StageFits(spec, resolution.stage) {
      return Some(StageMismatch(spec.stageId.value, resolution.stage.id));
    }
    r := JudgeContents(spec, decoded.value, resolution.stage, disk, inputs, canonical, mode, cache);
  }

  /** Both the fingerprint and the drift are evaluated before either is reported. */
  method JudgeContents(spec: GuestSpec, embedded: W.WorldModel, stage: W.Stage, disk: Disk, inputs: Inputs,
                       canonical: W.WorldModel, mode: Mode, cache: C.ClosureCache) returns (r: Option<Reason>)
    requires C.Agrees(cache.inner, inputs.closureFiles)
    modifies cache
    ensures C.Agrees(cache.inner, inputs.closureFiles)
    ensures r == StaleContents(spec, embedded, stage, disk, inputs, canonical, mode)
  {
    var fingerprint := ComputeFreshness(spec, inputs, cache);
    if fingerprint.None? { return Some(Undecodable); }
    var matches := SidecarsMatch(spec, disk, inputs, mode, fingerprint.value);
    var drifts := W.CompareWorlds(embedded, canonical, Some(stage), inputs.schema);
    W.EmptyElems(drifts);
    if !matches { return Some(FingerprintMismatch); }
    if drifts != [] { return Some(EmbeddedWorldDrift(set d | d in drifts)); }
    r := None;
  }

  /** The artifact decodes to an accepted world, and the sidecars hold what the inputs call for. */
  ghost predicate MeetsCall(spec: GuestSpec, disk: Disk, inputs: Inputs, mode: Mode, accepted: W.WorldModel -> bool) {
    && HasAccepted(spec, disk, accepted)
    && Expected(spec, inputs).Some?
    && SidecarsMatch(spec, disk, inputs, mode, Expected(spec, inputs).value)
  }

  predicate HasAccepted(spec: GuestSpec, disk: Disk, accepted: W.WorldModel -> bool) {
    Decode(disk, spec.artifactPath).Some? && accepted(Decode(disk, spec.artifactPath).value)
  }

  ghost predicate AsCalledFor(spec: GuestSpec, disk: Disk, inputs: Inputs, canonical: W.WorldModel, mode: Mode) {
    MeetsCall(spec, disk, inputs, mode, embedded => AcceptedWorld(spec, embedded, inputs, canonical))
  }

  /** The check finds no reason for staleness if and only if the guest's files are as called for. */
  lemma FreshIff(spec: GuestSpec, disk: Disk, inputs: Inputs, canonical: W.WorldModel, mode: Mode)
    ensures Fresh(spec, disk, inputs, canonical, mode) <==> AsCalledFor(spec, disk, inputs, canonical, mode)
  {
    match Decode(disk, spec.artifactPath)
    case None =>
    case Some(embedded) => WorldFreshIff(spec, embedded, disk, inputs, canonical, mode);
  }

  lemma WorldFreshIff(spec: GuestSpec, embedded: W.WorldModel, disk: Disk, inputs: Inputs, canonical: W.WorldModel,
                      mode: Mode)
    ensures StaleWorld(spec, embedded, disk, inputs, canonical, mode) == None <==>
      && AcceptedWorld(spec, embedded, inputs, canonical)
      && Expected(spec, inputs).Some?
      && SidecarsMatch(spec, disk, inputs, mode, Expected(spec, inputs).value)
  {
    match W.Resolve(embedded, inputs.schema)
    case Resolved(stage) => ContentsFreshIff(spec, embedded, stage, disk, inputs, canonical, mode);
    case _ =>
  }

  lemma ContentsFreshIff(spec: GuestSpec, embedded: W.WorldModel, stage: W.Stage, disk: Disk, inputs: Inputs,
                         canonical: W.WorldModel, mode: Mode)
    ensures StaleContents(spec, embedded, stage, disk, inputs, canonical, mode) == None <==>
      && W.Accepts(embedded, canonical, Some(stage), inputs.schema)
      && Expected(spec, inputs).Some?
      && SidecarsMatch(spec, disk, inputs, mode, Expected(spec, inputs).value)
  {
    W.AcceptsIffNoDrift(embedded, canonical, Some(stage), inputs.schema);
  }

  ghost predicate AcceptedWorld(spec: GuestSpec, embedded: W.WorldModel, inputs: Inputs, canonical: W.WorldModel) {
    match W.Resolve(embedded, inputs.schema)
    case Resolved(stage) => StageFits(spec, stage) && W.Accepts(embedded, canonical, Some(stage), inputs.schema)
    case _ => false
  }

  // ---- Sidecars and staleness ----

  lemma HexEnds(n: nat, k: nat)
    requires k > 0
    ensures !IsSpace(F.Hex(n, k)[k - 1])
  {
  }

  /** What is written reads back as what is expected, and no proper prefix of it does. */
  lemma FingerprintHasNoSpaceAround(entries: seq<F.Entry>)
    ensures Trim(F.FingerprintOf(entries)) == F.FingerprintOf(entries)
  {
    var stream := F.SortedStream(entries);
    var a, b := F.Hex(F.Lane(F.FIRST_OFFSET, stream), 16), F.Hex(F.Lane(F.SECOND_OFFSET, F.Complement(stream)), 16);
    HexEnds(F.Lane(F.SECOND_OFFSET, F.Complement(stream)), 16);
    NoSpaceAround("v2-" + a + b);
  }

  lemma NoSpaceAround(s: string)
    requires s != "" ==> !IsSpace(s[0]) && !IsSpace(s[|s| - 1])
    ensures Trim(s) == s
  {
  }

  lemma TrimEnds(s: string)
    ensures Trim(s) != "" ==> !IsSpace(Trim(s)[|Trim(s)| - 1])
  {
  }

  lemma IdentityHasNoSpaceAround(inputs: Inputs)
    ensures Trim(IdentityText(inputs)) == IdentityText(inputs)
  {
    var head := "mode=accelerated\npolicy=" + inputs.policy + "\npolicy-fingerprint="
      + F.FingerprintOf([F.Entry(inputs.encode(POLICY_ENTRY), inputs.encode(inputs.policy))]);
    var tail := Trim(RustcText(inputs.probes));
    TrimEnds(RustcText(inputs.probes));
    var text := IdentityText(inputs);
    assert text == head + "\nrustc-vV=" + tail;
    assert text[0] == head[0] == 'm';
    assert tail == "" ==> text[|text| - 1] == '=';
    assert tail != "" ==> text[|text| - 1] == tail[|tail| - 1];
    NoSpaceAround(text);
  }

  lemma TornNeverMatches(torn: string, whole: string)
    requires torn <= whole && |torn| < |whole|
    ensures Trim(torn) != whole
  {
  }
}
