# A verified model of the lightning gate recorder and the guest build tooling

This project models the parts of the repository whose correctness is not visible from reading one function: the
exact geometry and the provenance index of `tools/lightning_gate/record.py`, the incremental guest build, the
controlled compiler driver and the embedded-world verifier of `xtask`, and two text transformers. Dafny 4.11 proves
every statement below; `dafny verify dfyconfig.toml` checks all of it.

## What is modelled

| file | part of the repository |
|---|---|
| `SegmentOverlap.dfy`, `TolerantOverlap.dfy`, `Rings.dfy`, `Polygons.dfy`, `Mesh.dfy` | integer and rational geometry of the recorder |
| `Provenance.dfy`, `CreditDirections.dfy`, `ProvenanceFile.dfy` | attribution of boundary segments, the reverse output index, and the counts; when the two directions agree |
| `Closure.dfy`, `Fingerprint.dfy`, `Locks.dfy` | cached dependency walk, content fingerprint, lock file divergence |
| `WitVerify.dfy` | stage resolution and comparison of embedded and canonical worlds |
| `Freshness.dfy`, `Edits.dfy`, `GuestBuild.dfy`, `GuestCommands.dfy` | staleness, edits of inputs, building one guest, the build and check commands |
| `LatchProtocol.dfy` | the rejection latch between concurrent compiler shims and the build session |
| `RustcGrammar.dfy`, `RustcArgs.dfy`, `RustcPolicy.dfy` | argument grammar, parser and policy of the compiler driver |
| `Splice.dfy`, `Documents.dfy`, `TableRows.dfy` | regenerated document blocks, table rows |
| `Options.dfy`, `Orders.dfy`, `Text.dfy` | options, sorting and string operations shared by the others |

Code that changes things step by step is a method with loops, or a class whose methods modify its fields, proved
against a function of its inputs; the properties of the design are lemmas about that function. The disk of a guest
build is a field of `Workspace`; its ghost field `trace` holds every state the disk passes through, with one
arbitrary torn state for each write under way, so a statement about all states of `trace` is a statement about every
interruption. Cargo and the component tools are arbitrary: `BuildInner` may leave any artifact and fail. Compiler
shims may raise the rejection latch during the inner build, the verification and the writes of the sidecars; the ghost
field `log` counts how often they do since the latch was last cleared, `builds` counts inner builds, and
`latchedWhenBuilt` keeps the latch as it was when the last of them finished. What a build reads but does not write (sources, lock files, the toolchain's versions, the canonical world)
stays the same between a build and the check after it.

Larger definitions are passed to loops as ghost function parameters (`unfinished`, `accepted`, `passes`), which only
keeps the verifier from unfolding them.

## Results worth knowing

- The comment on `compat_line` says that a malformed version can only diverge against its own copy. It is not so: a
  bare major number such as `1` is malformed and yields the line of every `1.y.z`. `CompatLineExact` says for all
  strings who shares a line, and `BareMajorJoinsTheLine` gives the counterexample.
- Overlap at tolerance 1 is not symmetric, so the two directions of provenance agree on every exact credit
  (`DirectionsAlwaysAgree`) and not on every credit at tolerance 1: `UnlistedCredit` is a difference credited with a
  boundary that its outputs do not contain. `TolerantCreditListedIff` says exactly when such a credit is listed, by the
  tests of the outputs side: some result segment, taken as the boundary, has both ends within one unit of the credited
  segment's line, and their projections differ and meet the inside of that segment. For a result segment that overlaps
  the credited one, the first test alone decides (`ReturnedIffNear`). Segments with parallel directions overlap
  symmetrically at every tolerance, so a credit to a parallel result is always listed. `BuildProvenance` guarantees
  both directions for the file as a whole.
- Not every ring has one normal form for all its rotations and reversals. `VariantsAgreeIff` gives the exact condition
  for clean rings: the smallest points, each moved to the front, give the same ring, and a ring without area also runs
  alike in both directions. `FlatRingWithTwoForms` and `PinchedRingWithTwoForms` are rings that fail it.
- Arguments that received the reserved cfg are refused when they are fed back in, unless a bare `--` has been passed:
  then the injected words are operands. `FedBackIffOperands` states both directions for every
  guarded grammar, `RustcIsGuarded` says that the driver's is one, and `DashedArgsAcceptedAgain` is an accepted
  invocation whose prepared arguments are accepted again.
- A shim that outlives the session can reject after the final gate, and the command has returned 0
  (`LateRejectionIsMissed`). During the session no rejection is missed: after a rejection the command returns 0 if and
  only if it had returned 0 before (`RejectionMissedIff`). A rejection between the latch gate and the
  write of a sidecar may leave that guest with sidecars; the session then fails at its final gate.
- The default build returns 0 also when lock files diverge; a check right after it lists no stale guest, and exits
  with 0 if and only if no crate diverges (`BuildThenCheck`).
- `compute_guest_freshness` lists the files of a guest's own `src` twice, once as its own and once through the
  closure. `ByteEditChangesFingerprint` needs the edited file to be listed once, so it speaks of dependency files,
  the lock file and the toolchain entries. For files listed twice, for edits of any size, and for files that join or
  leave the lists because they appear, vanish, are renamed or a manifest changes, the hashed stream still changes, so
  the change goes unnoticed only if both lanes collide on two different streams
  (`UnnoticedChangeIsADoubleCollision`).

## Model

| member | source | states |
|---|---|---|
| SegmentOverlap.Overlap | tools/lightning_gate/record.py:1026-1059 | a returned interval lies within [0, 1] and has positive length |
| SegmentOverlap.OverlapIsExact | tools/lightning_gate/record.py:1026-1059 | at tolerance 0 the interval is exactly the set of source parameters whose points lie on the boundary segment |
| SegmentOverlap.OverlapIffSharePiece | tools/lightning_gate/record.py:1022-1059 | at tolerance 0 an interval is returned if and only if the segments share two different points, hence a piece of positive length |
| SegmentOverlap.OverlapSymmetric | tools/lightning_gate/record.py:1026-1059 | exact overlap does not depend on which segment plays the source |
| SegmentOverlap.OverlapIgnoresBoundaryDirection | tools/lightning_gate/record.py:1044-1059 | swapping the boundary's end points changes nothing, at any tolerance |
| SegmentOverlap.OverlapMirrorsSourceDirection | tools/lightning_gate/record.py:1044-1059 | reversing the source maps the interval to [1 - high, 1 - low], at any tolerance |
| SegmentOverlap.TolerantOverlapFromTheLongSide | tools/lightning_gate/record.py:1037-1043 | a short boundary next to a long source overlaps it at tolerance 1 |
| SegmentOverlap.TolerantOverlapFromTheShortSide | tools/lightning_gate/record.py:1037-1043 | the same two segments with swapped roles do not overlap at tolerance 1 |
| TolerantOverlap.OverlapIffGuard | tools/lightning_gate/record.py:1026-1059 | at any tolerance an interval is returned if and only if the source has length, both ends of the boundary are near its line, and their projections differ and meet its inside |
| TolerantOverlap.ReturnedIffNear | tools/lightning_gate/record.py:1022-1059 | at tolerance 1 an overlap holds with the roles swapped if and only if the ends of the former source are near the former boundary's line |
| TolerantOverlap.ParallelOverlapSymmetric | tools/lightning_gate/record.py:1022-1059 | segments with parallel directions overlap symmetrically, at any tolerance |
| Rings.RingPoints | tools/lightning_gate/record.py:934-947 | the loop drops repeated neighbours and a closing copy of the first point |
| Rings.CleanSeparates | tools/lightning_gate/record.py:934-947 | no two neighbours of the cleaned ring are equal, the last and the first included |
| Rings.CleanKeepsArea | tools/lightning_gate/record.py:934-958 | dropping repeated points keeps the shoelace area |
| Rings.NormalizeRing | tools/lightning_gate/record.py:950-963 | the shoelace loop and the rotation compute the normal form |
| Rings.NormalizedShape | tools/lightning_gate/record.py:950-963 | a nonempty result has three points or more, no repeated neighbours, no wrong orientation, and a smallest point first |
| Rings.NormalizeIdempotent | tools/lightning_gate/record.py:950-963 | normalizing twice is normalizing once, on every input |
| Rings.NormalizeKeepsArea | tools/lightning_gate/record.py:950-963 | the absolute area is kept; contours come out with area >= 0, holes with area <= 0 |
| Rings.NormalizeCanonical | tools/lightning_gate/record.py:950-963 | a clean ring with area and one smallest point has the same normal form in every rotation and reversal |
| Rings.VariantsAgreeIff | tools/lightning_gate/record.py:950-963 | for both orientations, all rotations and reversals of a clean ring share one form if and only if its smallest points, moved to the front, give the same ring and, without area, the reversal is a rotation |
| Rings.FlatRingKeepsItsDirection | tools/lightning_gate/record.py:955-963 | a flat ring that starts with its smallest point and its mirror image from the same point share a form only if they are equal |
| Rings.FlatRingWithTwoForms | tools/lightning_gate/record.py:955-963 | (0,0), (1,0), (2,0) is a clean flat ring whose variants do not share a form, for both orientations |
| Rings.PinchedRingWithTwoForms | tools/lightning_gate/record.py:955-963 | a clean ring with area that passes its smallest point twice has variants that do not share a form |
| Polygons.NormalizePolygon | tools/lightning_gate/record.py:966-1004 | contour, holes and numbered segments as the loops produce them |
| Polygons.NumberSegments | tools/lightning_gate/record.py:985-1003 | the nested loop numbers the segments ring by ring |
| Polygons.SegmentsOrdered | tools/lightning_gate/record.py:985-1003 | segments come out in strictly increasing (ring, segment) order, so an address names one segment |
| Polygons.PolygonIdempotent | tools/lightning_gate/record.py:966-1004 | a normalized polygon fed back gives the same geometry and the same addresses |
| Provenance.MatchesOperation | tools/lightning_gate/record.py:1229-1256 | the loops over tolerances and result segments return the first widest match at the lowest matching tolerance |
| Provenance.BestMatchIsWidest | tools/lightning_gate/record.py:1237-1255 | at a tolerance, no result segment overlaps more than the reported one, and something is reported whenever one overlaps |
| Provenance.PickOperation | tools/lightning_gate/record.py:1259-1272 | the pick is among the matches of the wanted kinds, and there is none only if no match has such a kind; which of them it is say the next two rows |
| Provenance.PickIsBest | tools/lightning_gate/record.py:1259-1272 | the pick is the widest of its kind, and among equally wide ones the one with the lowest id |
| Provenance.PickHasTheEarliestKind | tools/lightning_gate/record.py:1259-1272 | an earlier kind wins: no match has a kind that is listed before the pick's |
| Provenance.ChosenOrder | tools/lightning_gate/record.py:1283-1330 | a preferred kind that matches directly, then through a parent, then any known kind through a parent, then directly; none only if all four fail |
| Provenance.CollectMatches | tools/lightning_gate/record.py:1283-1319 | the candidates are exactly the matching operations among those wanted, in order |
| Provenance.GeneratedContributors | tools/lightning_gate/record.py:1275-1353 | the contributors or the reason, as the kind of domain decides |
| Provenance.SourceOverlapContributors | tools/lightning_gate/record.py:1356-1387 | the sorted overlap records at the lower tolerance that has any |
| Provenance.OverlapsComplete | tools/lightning_gate/record.py:1362-1384 | the list at a tolerance has a record for exactly the overlapping pairs of source and segment |
| Provenance.SourceOverlapsComplete | tools/lightning_gate/record.py:1356-1387 | the same for the returned list, and tolerance 1 is used only without any exact overlap |
| Provenance.ResolveOne | tools/lightning_gate/record.py:1399-1446 | one segment gives one boundary, and an `unavailable` record if and only if it has no contributors |
| Provenance.ResolveEach | tools/lightning_gate/record.py:1398-1446 | the loop over the segments of an entry |
| Provenance.ResolveBoundaries | tools/lightning_gate/record.py:1390-1448 | the sorted boundaries of an entry, and the records added to `unavailable` |
| Provenance.BoundariesFollowSegments | tools/lightning_gate/record.py:1447-1448 | sorting leaves each boundary at its segment's index |
| Provenance.OutcomeIsOfOneKind | tools/lightning_gate/record.py:1275-1440 | contributors are all source overlaps or all of one operation at one tolerance; there are none exactly when a reason is given |
| Provenance.Precedence | tools/lightning_gate/record.py:1404-1417 | an anchor names sources only if no operation explains it; any other boundary names an operation only without overlap at tolerances 0 and 1 |
| Provenance.EntryConserved | tools/lightning_gate/record.py:1390-1448 | every segment of an entry gives one boundary, by sources, by an operation or unavailable |
| Provenance.AllConserved | tools/lightning_gate/record.py:1553-1573 | the same sum over the entries of one list |
| Provenance.BothConserved | tools/lightning_gate/record.py:1553-1573 | source overlaps, generated and unavailable boundaries add up to all planning and final segments |
| Provenance.AddOutputs | tools/lightning_gate/record.py:1477-1489 | the inner loop adds exactly the addresses of applicable segments that one result segment overlaps at tolerance 0 or 1 |
| Provenance.CollectOutputs | tools/lightning_gate/record.py:1475-1489 | the addresses collected for an operation, each once |
| Provenance.OperationOutputs | tools/lightning_gate/record.py:1451-1498 | every operation's `outputs` list is the addresses its results overlap at tolerance 0 or 1, sorted, each once |
| Provenance.ExactCreditIsListed | tools/lightning_gate/record.py:1229-1498 | a boundary credited to an operation by an exact match is among that operation's outputs |
| Provenance.DirectionsAlwaysAgree | tools/lightning_gate/record.py:1229-1498 | the same for every boundary of every entry |
| CreditDirections.TolerantCreditListedIff | tools/lightning_gate/record.py:1229-1498 | with distinct addresses, a boundary credited at tolerance 1 is in the outputs if and only if some result segment passes the guard of the outputs side |
| CreditDirections.TolerantDirectionsExact | tools/lightning_gate/record.py:1229-1498 | the same for every boundary of every entry |
| CreditDirections.NearCreditIsListed | tools/lightning_gate/record.py:1229-1498 | a result segment that overlaps the credited boundary lists it if and only if its own ends are near the boundary's line |
| CreditDirections.ParallelCreditIsListed | tools/lightning_gate/record.py:1229-1498 | a credit to a parallel result segment is always listed |
| CreditDirections.UnlistedCredit | tools/lightning_gate/record.py:1229-1498 | an operation credited at tolerance 1 with a boundary that is not among its outputs |
| ProvenanceFile.SurfacesGiveAddresses | tools/lightning_gate/record.py:985-1003 | entries with distinct surfaces and numbered segments have distinct addresses |
| ProvenanceFile.SourcesBySlot | tools/lightning_gate/record.py:1529-1535 | the dictionary of slots: every layer and region of the catalog with its sources sorted by id |
| ProvenanceFile.SlotHolds | tools/lightning_gate/record.py:1390-1417 | an entry's boundaries are compared with exactly the cataloged sources of its layer and region, in the order of their ids |
| ProvenanceFile.BuildProvenance | tools/lightning_gate/record.py:1516-1603 | the whole pipeline from the catalog on: public domains, counts that are conserved, the sorted unavailable records, exact outputs, and for distinct ids the two directions: every exact credit listed and, for distinct surfaces, every credit at tolerance 1 listed exactly when a result segment passes the guard |
| Mesh.FrameTriangles | tools/lightning_gate/record.py:384-406 | the faces of a frame, corner by corner |
| Mesh.PartMesh | tools/lightning_gate/record.py:409-423 | the vertices and triangles of a part, each solid shifted behind the one before |
| Mesh.SolidClosed | tools/lightning_gate/record.py:332-423 | for all boxes and frames: indices in range, every directed edge at most once and matched by its reverse |
| Mesh.SolidHasItsVolume | tools/lightning_gate/record.py:332-423 | six times the signed volume is six times the sum of the boxes' volumes and of (outer - inner) area times height of the frames |
| Closure.InputPaths | xtask/src/build_guests.rs:1350-1398 | terminates on cyclic graphs; returns the sorted, duplicate-free files of exactly the reachable manifests, or fails exactly if one of them cannot be read; leaves the cache in agreement |
| Closure.DependenciesOf | xtask/src/build_guests.rs:1375-1382 | a cached or freshly read dependency list, kept for later |
| Closure.AnswerIsDetermined | xtask/src/build_guests.rs:1277-1291 | two walks agree whatever their caches held |
| Fingerprint.StreamInjective | xtask/src/build_guests.rs:1459-1467 | length framing makes the byte stream uniquely decodable |
| Fingerprint.SortedStreamIffPermutation | xtask/src/build_guests.rs:1456-1469 | two entry lists give the same stream if and only if one is a permutation of the other |
| Fingerprint.HashUpdate | xtask/src/build_guests.rs:1471-1479 | the two-word array becomes the two lanes over the bytes and over their complements |
| Fingerprint.StepSeparates | xtask/src/build_guests.rs:1474-1477 | a step is injective in the lane for a fixed byte and in the byte for a fixed lane, modulo 2^64 |
| Fingerprint.LaneInjective | xtask/src/build_guests.rs:1471-1479 | different lanes stay different over the same bytes |
| Fingerprint.OneByteEditDetected | xtask/src/build_guests.rs:1471-1479 | two streams that differ in exactly one byte end with different values in each lane |
| Fingerprint.FingerprintEntries | xtask/src/build_guests.rs:1456-1469 | sorts, hashes frame by frame, and renders both lanes |
| Fingerprint.FingerprintIgnoresOrder | xtask/src/build_guests.rs:1456-1458 | the order in which inputs were collected does not matter |
| Fingerprint.FingerprintsAgreeIff | xtask/src/build_guests.rs:1456-1479 | two inputs have the same fingerprint text if and only if both lanes agree on their streams |
| Fingerprint.ByteEditChangesFingerprint | xtask/src/build_guests.rs:1456-1479 | changing one byte of an input that is listed under its path once changes the fingerprint text |
| Locks.LineOfIffSameLine | xtask/src/build_guests.rs:2110-2122 | lines of well-formed versions agree exactly up to the leftmost non-zero component |
| Locks.CompatLineExact | xtask/src/build_guests.rs:2110-2122 | which version strings share a line, for all strings |
| Locks.ParsedRender | xtask/src/build_guests.rs:2110-2122 | every X.Y.Z below 2^64 is read as written |
| Locks.BareMajorJoinsTheLine | xtask/src/build_guests.rs:2099-2122 | a bare major number is malformed and still shares the line of its major versions |
| Locks.Collect | xtask/src/build_guests.rs:2140-2150 | the nested maps group the recorded versions by crate and line |
| Locks.VersionsOf | xtask/src/build_guests.rs:2155-2163 | exactly the versions of lines with more than one version, sorted |
| Locks.LockDivergences | xtask/src/build_guests.rs:2139-2172 | a crate is reported if and only if two recorded versions share a line; its list is exactly the sorted union of such lines; crates come in order |
| Locks.ReportIsDetermined | xtask/src/build_guests.rs:2139-2172 | locks that record the same packages have the same report |
| Locks.PermutedLocks | xtask/src/build_guests.rs:2139-2172 | permuted locks record the same packages |
| WitVerify.CollectCandidates | xtask/src/wit_verify.rs:189-203 | the packages that are neither root, shared nor preparation, in order |
| WitVerify.ResolveStage | xtask/src/wit_verify.rs:186-233 | the stage, or which of the three errors |
| WitVerify.ResolvedIffOnlyCandidate | xtask/src/wit_verify.rs:186-233 | with distinct rows, a stage is resolved if and only if its package is the only candidate |
| WitVerify.UnresolvedWorlds | xtask/src/wit_verify.rs:204-232 | when each of the errors is returned, in both directions |
| WitVerify.ResolvedStageIsFound | xtask/src/wit_verify.rs:186-366 | a component whose own stage is expected is never reported to miss its stage package |
| WitVerify.SurplusDrifts | xtask/src/wit_verify.rs:462-590 | drifts for embedded declarations and uses that are not canonical or differ |
| WitVerify.LackingDrifts | xtask/src/wit_verify.rs:477-512 | drifts for canonical declarations and uses that are absent |
| WitVerify.CompareInterfaces | xtask/src/wit_verify.rs:437-620 | the drifts of all embedded interfaces of a package |
| WitVerify.MissingPreparation | xtask/src/wit_verify.rs:622-653 | the drifts of canonical preparation interfaces that are absent |
| WitVerify.MissingStageInterface | xtask/src/wit_verify.rs:655-696 | the drifts of an absent stage interface |
| WitVerify.MissingSurfaces | xtask/src/wit_verify.rs:622-696 | the two passes over absent interfaces report each required interface once, whichever of them run |
| WitVerify.ComparePackage | xtask/src/wit_verify.rs:385-697 | the drifts of one embedded package |
| WitVerify.CompareRequired | xtask/src/wit_verify.rs:296-336 | a drift for every required export that no counting world offers |
| WitVerify.CompareExportsOf | xtask/src/wit_verify.rs:700-764 | the drifts in export name and version of the stage package |
| WitVerify.CompareWorlds | xtask/src/wit_verify.rs:291-769 | reports exactly the drifts of the specification, and none if and only if the component is accepted |
| WitVerify.InterfaceAcceptedIffNoDrift | xtask/src/wit_verify.rs:447-620 | no drift means equality for stage and preparation interfaces, and inclusion up to resource methods for all others |
| WitVerify.AcceptsIffNoDrift | xtask/src/wit_verify.rs:291-769 | the reported set is empty if and only if the declarative relation holds |
| WitVerify.DroppingKeepsAcceptance | xtask/src/wit_verify.rs:515-600 | dropping declarations or uses from an interface that is only compared one way keeps acceptance |
| Freshness.SnapshotFromPaths | xtask/src/build_guests.rs:1481-1501 | one entry for each path, with the marker for unreadable files |
| Freshness.ComputeFreshness | xtask/src/build_guests.rs:1503-1550 | the fingerprint the inputs call for, the same for every cache that agrees with the files, or None exactly if the walk fails |
| Freshness.StaleReasonOf | xtask/src/build_guests.rs:1818-1902 | the first reason for staleness in the order of the checks |
| Freshness.JudgeContents | xtask/src/build_guests.rs:1873-1901 | differing sidecars are reported before a drifted world |
| Freshness.FreshIff | xtask/src/build_guests.rs:1818-1902 | fresh if and only if the artifact decodes to an accepted world of its stage and the sidecars hold what the inputs call for |
| Edits.EditedInputIsStale | xtask/src/build_guests.rs:1503-1550 | editing one byte of an input listed once makes a fresh guest stale |
| Edits.EditChangesStream | xtask/src/build_guests.rs:1456-1550 | under fixed lists of files, whatever changes in a listed file, listed once or twice, the hashed stream changes |
| Edits.MovedFilesChangeStream | xtask/src/build_guests.rs:1456-1550 | the hashed stream also changes when a readable file joins or leaves the lists, created, deleted, renamed or through a changed manifest, if no other listed path has its relative name |
| Edits.ChangeHiddenIffLanesCollide | xtask/src/build_guests.rs:1456-1550 | a fresh guest passes for fresh after a change of files, listings and manifests if and only if all reachable manifests can be read and both lanes collide on the two streams |
| Edits.UnnoticedChangeIsADoubleCollision | xtask/src/build_guests.rs:1456-1550 | such a change goes unnoticed only by a collision of both lanes on two different streams |
| GuestBuild.SameFilesSameVerdict | xtask/src/build_guests.rs:1818-1902 | the verdict depends on the guest's own files only |
| GuestBuild.UnmatchedIsStale | xtask/src/build_guests.rs:1876-1886 | without matching sidecars a guest is stale |
| GuestBuild.Workspace.RemoveMetadata | xtask/src/build_guests.rs:638-647 | both sidecars go first, and from the first removal on the guest is stale |
| GuestBuild.Workspace.BuildInner | xtask/src/build_guests.rs:945-1030 | any artifact, at the guest's own path only; the latch is never lowered, every rejection raises it, and the latch at the end is kept |
| GuestBuild.Workspace.WriteFile | xtask/src/build_guests.rs:1612-1631 | the file holds the text on success; a failed or torn write leaves an unfinished state |
| GuestBuild.Workspace.WriteSidecars | xtask/src/build_guests.rs:1612-1631 | fingerprint first, identity last, with shims at work in between |
| GuestBuild.Workspace.WriteMetadata | xtask/src/build_guests.rs:1612-1631 | success only with the sidecars the inputs call for; every state before the last write is unfinished |
| GuestBuild.Workspace.BuildAndVerify | xtask/src/build_guests.rs:649-713 | one inner build; verified only with an accepted world, and never in the accelerated mode when the latch was up as that build finished |
| GuestBuild.VerifyArtifact | xtask/src/build_guests.rs:660-713 | verified if and only if the artifact holds an accepted world |
| GuestBuild.Workspace.BuildUntilVerified | xtask/src/build_guests.rs:631-771 | one or two inner builds; success only with an accepted world, and no sidecar yet |
| GuestBuild.Workspace.RecordFreshness | xtask/src/build_guests.rs:714-732 | after success the guest is as its inputs call for |
| GuestBuild.Workspace.BuildOneEffective | xtask/src/build_guests.rs:631-771 | success if and only if the guest is fresh afterwards; every other state it passes through leaves the guest stale; no other file is touched; in the accelerated mode a latch that is up when the last inner build finishes means failure without sidecars |
| GuestCommands.CheckCommand | xtask/src/build_guests.rs:2012-2071 | the stale list is exactly the guests with a reason; 3 if and only if tools or canonical set are unusable; 0 if and only if nothing is stale and no lock diverges |
| GuestCommands.BuildEach | xtask/src/build_guests.rs:2339-2352 | returns 0 if and only if all given guests are fresh at the end, when guests share no files |
| GuestCommands.BuildStale | xtask/src/build_guests.rs:2291-2353 | the same for the reported guests; with unusable tools or an empty list nothing is built |
| GuestCommands.BuildAll | xtask/src/build_guests.rs:1178-1220 | the same for all guests; with unusable tools nothing is built |
| GuestCommands.BuildReportedStale | xtask/src/build_guests.rs:1160-1168 | rebuilding what the check reports makes all guests fresh; with an unusable toolchain the code is 3, nothing is built and no file changes |
| GuestCommands.BuildCommandWith | xtask/src/build_guests.rs:1151-1168 | returns 0 if and only if a following check lists no stale guest; at every state each guest has its old files, or its final ones, or is stale |
| GuestCommands.BuildCommand | xtask/src/build_guests.rs:1100-1110 | the same for the ordinary command |
| GuestCommands.BuildThenCheck | xtask/src/build_guests.rs:1151-1168 | after a build that returned 0 the check lists no guest, and exits with 0 if and only if no crate diverges in the lock files; a check that exits with 0 comes only after such a build |
| GuestCommands.EnforceLatchGate | xtask/src/build_guests.rs:1115-1125 | 1 with the latch, and the given code without it |
| GuestCommands.PrepareSession | xtask/src/build_guests.rs:1143-1146 | clears the latch at most once; on success a rejection since the clear has raised it again |
| GuestCommands.AcceleratedBuildCommand | xtask/src/build_guests.rs:1127-1146 | 0 means no stale guest in accelerated mode, one clear of the latch, no rejection since that clear, and a clear latch at the final gate |
| GuestCommands.NothingStaleIff | xtask/src/build_guests.rs:2057-2064 | an empty stale list means that every guest is as its inputs call for, and the other way round |
| GuestCommands.InterruptedRun | xtask/src/build_guests.rs:631-771 | at any interruption, files that pass the check are those from before the run or those it ends with |
| GuestCommands.ModesAreIndependent | xtask/src/build_guests.rs:809-836 | builds in one mode leave every verdict of the other mode alone |
| LatchProtocol.LatchStays | xtask/src/rustc_driver.rs:161-184 | once the session has cleared the latch nothing clears it again |
| LatchProtocol.LaterShimsRefuse | xtask/src/rustc_driver.rs:1299-1305 | for every interleaving, a shim that starts after a rejection refuses and never runs the compiler |
| LatchProtocol.NoSidecarAfterRejection | xtask/src/build_guests.rs:782-793 | a guest whose inner build is under way or done when a rejection has happened gets no sidecar, nor does any guest after it, and the session fails |
| LatchProtocol.GuestUnderBuildHasNoSidecar | xtask/src/build_guests.rs:638-732 | a guest has no sidecar from its removal to its write |
| LatchProtocol.RejectedSessionFails | xtask/src/build_guests.rs:1115-1146 | if the command returns 0, the latch was clear at every moment between its clear and its final gate |
| LatchProtocol.RejectingShimFailsTheSession | xtask/src/rustc_driver.rs:1366-1372 | a shim that rejects while the session is in progress makes it return another code |
| LatchProtocol.ReturnedIsFinal | xtask/src/build_guests.rs:1127-1140 | nothing after the return changes the code or the sidecars |
| LatchProtocol.RejectionMissedIff | xtask/src/rustc_driver.rs:1366-1372 | after a rejection that follows the clear, the command returns 0 if and only if it had returned 0 before |
| LatchProtocol.LateRejectionIsMissed | xtask/src/build_guests.rs:1127-1140 | a run in which a shim that outlives the session rejects after the final gate, and the command has returned 0 |
| RustcArgs.CodegenState.Insert | xtask/src/rustc_driver.rs:784-927 | refuses repeated keys and illegal values, and records the value of the key |
| RustcArgs.ArgParser.Take | xtask/src/rustc_driver.rs:403-742 | one argument is taken in if and only if it is legal and repeats no control |
| RustcArgs.ArgParser.ParseToken | xtask/src/rustc_driver.rs:405-707 | one turn of the loop agrees with the lexer, and refuses only what no continuation can save |
| RustcArgs.ArgParser.Parse | xtask/src/rustc_driver.rs:403-731 | accepts exactly the argument lists of the specification and records what they say |
| RustcPolicy.AcceptedIff | xtask/src/rustc_driver.rs:403-782 | accepted if and only if every argument is legal, codegen keys are distinct, and target and emit occur at most once; each control is recorded as its one occurrence gives it |
| RustcPolicy.ParsedIff | xtask/src/rustc_driver.rs:403-731 | the same for token lists, where LLVM output needs standard input as the source; names, types and flags are recorded as given |
| RustcPolicy.AbsentIffNotGiven | xtask/src/rustc_driver.rs:784-850 | opt-level, debuginfo, strip and debug-assertions are recorded as absent if and only if they are not given |
| RustcPolicy.SpellingsAgree | xtask/src/rustc_driver.rs:451-477 | `-C o`, `-Co`, `-C=o`, `--codegen o` and `--codegen=o` mean the same |
| RustcPolicy.CodegenItemOf | xtask/src/rustc_driver.rs:771-781 | `key=value` is read as that key and value |
| RustcPolicy.ValidateProfile | xtask/src/rustc_driver.rs:929-1001 | the nested checks amount to the conditions of each profile |
| RustcPolicy.Validate | xtask/src/rustc_driver.rs:312-357 | the information about an accepted invocation |
| RustcPolicy.Prepare | xtask/src/rustc_driver.rs:361-376 | the prepared arguments |
| RustcPolicy.InjectionIsExact | xtask/src/rustc_driver.rs:312-376 | the arguments differ only by the reserved cfg at the end, exactly for accelerated compilations of the canonical core, and then the one opt-level given is 3 |
| RustcGrammar.ValidateEmit | xtask/src/rustc_driver.rs:1071-1092 | the loop finds whether LLVM output is asked for, and refuses empty outputs and LLVM output next to another; this is the rule that the driver's grammar hands to the parser |
| RustcPolicy.FlagsAgree | xtask/src/rustc_driver.rs:560-700 | crate name, crate types, test, standard input, JSON and LLVM flags are recorded exactly as the arguments give them |
| RustcPolicy.RustcIsGuarded | xtask/src/rustc_driver.rs:1051-1060 | the driver's grammar refuses the reserved cfg as an option and takes the injected words as operands |
| RustcPolicy.NoInputSetsReserved | xtask/src/rustc_driver.rs:1051-1060 | no accepted input sets the reserved cfg, whatever its value and the space around it |
| RustcPolicy.LexConcat | xtask/src/rustc_driver.rs:403-707 | parsing composes over concatenation |
| RustcPolicy.InjectedItems | xtask/src/rustc_driver.rs:361-376 | what the compiler is given after an injection |
| RustcPolicy.FedBackIffOperands | xtask/src/rustc_driver.rs:361-376 | prepared arguments fed back in are accepted if and only if a bare `--` has been passed |
| RustcPolicy.DashedArgsAcceptedAgain | xtask/src/rustc_driver.rs:361-376 | an accelerated compilation of the core with a bare `--` is accepted, and its prepared arguments are accepted again |
| Splice.Regenerate | xtask/src/gen_config_docs.rs:402-419 | the loop runs the splices one on the result of the other and stops at the first error |
| Splice.FindMark | xtask/src/gen_config_docs.rs:355-360 | `find` finds the mark and nothing before it |
| Splice.SpliceAt | xtask/src/gen_config_docs.rs:354-369 | a splice replaces the text of its block and nothing else |
| Splice.RegenerationIsAFixedPoint | xtask/src/gen_config_docs.rs:354-419 | all splices succeed in whatever order the blocks stand, everything outside the blocks is preserved, and a second pass changes nothing |
| Splice.CheckPassesAfterRun | xtask/src/gen_config_docs.rs:38-44 | for the six markers of the configuration reference, a check right after a run passes on a document given in pieces |
| Documents.CutIsFaithful | xtask/src/gen_config_docs.rs:354-369 | every text can be cut into text and marks in turn, with all markers found and nothing lost |
| Documents.CutHasLayout | xtask/src/gen_config_docs.rs:354-419 | a text in which each step's markers occur once, in order and with no marker between them, is laid out in pieces as the results about pieces ask |
| Documents.DocumentReachesFixedPoint | xtask/src/gen_config_docs.rs:354-419 | on every such text regeneration succeeds, and doing it again changes nothing |
| Documents.DocumentCheckPasses | xtask/src/gen_config_docs.rs:38-44 | for the configuration reference: a text with the three blocks passes the check right after a run |
| TableRows.SplitRowCells | xtask/src/check_deviations.rs:45-61 | the loop over characters computes the cells |
| TableRows.SplitUndoesJoin | xtask/src/check_deviations.rs:45-61 | splitting undoes escaping and joining, for every non-empty list of cells |
| TableRows.EscapedIffOdd | xtask/src/check_deviations.rs:45-61 | the escape flag is set exactly after an odd number of backslashes |
| TableRows.CellCount | xtask/src/check_deviations.rs:45-61 | there is one cell more than unescaped pipes, as section 4.10 of the GitHub Flavored Markdown Spec counts them |

## Left out

- Process spawning, files, JSON, TOML, WIT, 3MF and XML parsing: their results are parameters or arbitrary steps.
- The text rendering of WIT and the walk over parsed WIT: worlds are values, an artifact is known by what decoding it yields.
- The contents of the stage table and the package names of the schema crate: a `Schema` value with any table.
- PreparationIdentity: the source panics when the constant is not of the form `package/interface@version#function`; here a missing part reads as empty.
- Provenance.PickOperation: its own contract leaves open which of the wanted matches is picked; `PickIsBest` and `PickHasTheEarliestKind` say it.
- WitVerify.CompareWorlds: states the set of drifts, not their order or repetitions.
- Fingerprint.ByteEditChangesFingerprint: only for an input listed once; for others see `Edits.UnnoticedChangeIsADoubleCollision`.
- Edits.EditedInputIsStale: the same restriction, because for two changed places a lane can collide.
- Freshness.JudgeContents: that drift is also computed when the sidecars differ has no effect on the result.
- Freshness.StaleReasonOf: the messages inside reasons and errors are left out, and so is the modification time of inputs.
- Canonical sets that cannot be loaded: `drift_reason` maps them to reasons that the commands never reach, because the check and the builds stop first.
- GuestBuild.Workspace.RemoveMetadata: removals succeed; the source ignores their errors.
- GuestBuild.Workspace.WriteFile: the directory that is created before the write belongs to the failure before it.
- Absolute artifact paths: artifact paths are relative to the workspace, as guest discovery yields them.
- LatchProtocol.RejectingShimFailsTheSession: writing the latch succeeds; the source reports a failed write and goes on.
- Documents.DocumentReachesFixedPoint: says nothing about texts in which a marker occurs twice or blocks overlap.
- GuestBuild.Workspace.ShimsMayReject: stands for steps of LatchProtocol; no refinement between the two models is stated.
- Parsing the compiler's `-vV` text and the environment variables of the driver: whether the identity is the audited one and the mode are parameters.
- RustcArgs.ArgParser.Parse: the texts of the errors are left out, and with them which of several errors is reported first.
- Text.Trim: white space is the ASCII kind; the source also trims other Unicode white space.
- Coordinates of meshes are real numbers, without the rounding of floating point.
- ProvenanceFile.BuildProvenance: the parsing of the catalog and of the domains, the public renderings of sources, domains and operations, and the counts of sources and operations; kinds and reasons are constructors instead of strings. That surfaces are distinct depends on the input: two layers with the same local index can repeat one.
- Edits.EditChangesStream: file lists are fixed; for changed lists see `Edits.MovedFilesChangeStream`.
- Edits.MovedFilesChangeStream: needs a relative name of its own for the file that moves; unreadable files that join the lists are not covered.
- Splice.Splice: positions count characters instead of bytes.
- Guest discovery, lock synchronisation, the list command and the dispatch of flags.
- The deviation checks around `split_row_cells`, the visitors over syntax trees, and the other xtask commands.
