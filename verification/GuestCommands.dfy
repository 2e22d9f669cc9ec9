/** The build and check commands over all guests (xtask/src/build_guests.rs, `check_command_core_for_mode`,
    `build_stale_command_core`, `build_all_command_for_mode`, `build_command_with`, `accelerated_build_command`). */
module GuestCommands {
  import opened Orders
  import opened Options
  import opened Text
  import opened Freshness
  import opened GuestBuild
  import W = WitVerify
  import C = Closure
  import L = Locks

  datatype CheckOutcome = CheckOutcome(stale: seq<GuestSpec>, code: int)

  // ---- Guests that do not share files ----

  predicate Apart(a: GuestSpec, b: GuestSpec) {
    a.crateName != b.crateName && a.artifactPath != b.artifactPath
  }

  ghost predicate ApartFromAll(g: GuestSpec, specs: seq<GuestSpec>) {
    forall s | s in specs :: Apart(g, s)
  }

  /** Crate names and artifact paths are distinct. */
  ghost predicate DistinctGuests(specs: seq<GuestSpec>) {
    forall i, j | 0 <= i < j < |specs| :: Apart(specs[i], specs[j])
  }

  lemma ApartKeepsFiles(g: GuestSpec, spec: GuestSpec, mode: Mode, a: Disk, b: Disk)
    requires Apart(g, spec) && OthersKept(a, b, spec, mode)
    ensures SameFiles(g, mode, a, b)
  {
    assert !OwnSidecar(FingerprintFile(mode, g.crateName), spec.crateName, mode);
    assert !OwnSidecar(IdentityFile(g.crateName), spec.crateName, mode);
  }

  // ---- The states of a run over several guests ----

  /** The guest's files are those from before the run, or those it ends with, or it is `unmatched`. */
  ghost predicate Settled(spec: GuestSpec, mode: Mode, unmatched: (GuestSpec, Disk) -> bool, start: Disk, d: Disk,
                          final: Disk)
  {
    SameFiles(spec, mode, start, d) || unmatched(spec, d) || SameFiles(spec, mode, d, final)
  }

  /** The first `k` guests are settled, all others are as they were. */
  ghost predicate SettledUpTo(specs: seq<GuestSpec>, k: nat, mode: Mode, unmatched: (GuestSpec, Disk) -> bool,
                              start: Disk, d: Disk, final: Disk)
  {
    && (forall j | 0 <= j < k && j < |specs| :: Settled(specs[j], mode, unmatched, start, d, final))
    && (forall j | k <= j < |specs| :: SameFiles(specs[j], mode, start, d))
    && (forall g | ApartFromAll(g, specs) :: SameFiles(g, mode, start, d))
  }

  ghost function RunUpTo(specs: seq<GuestSpec>, k: nat, mode: Mode, unmatched: (GuestSpec, Disk) -> bool, start: Disk,
                         final: Disk): Disk -> bool
  {
    d => SettledUpTo(specs, k, mode, unmatched, start, d, final)
  }

  lemma EarlierStateStaysSettled(specs: seq<GuestSpec>, k: nat, mode: Mode, unmatched: (GuestSpec, Disk) -> bool,
                                 start: Disk, before: Disk, after: Disk, d: Disk)
    requires DistinctGuests(specs) && k < |specs| && OthersKept(before, after, specs[k], mode)
    requires SettledUpTo(specs, k, mode, unmatched, start, d, before)
    ensures SettledUpTo(specs, k + 1, mode, unmatched, start, d, after)
  {
    forall j | 0 <= j < k + 1 ensures Settled(specs[j], mode, unmatched, start, d, after) {
      if j < k {
        assert Settled(specs[j], mode, unmatched, start, d, before);
        ApartKeepsFiles(specs[j], specs[k], mode, before, after);
      }
    }
  }

  lemma NewStateIsSettled(specs: seq<GuestSpec>, k: nat, mode: Mode, unmatched: (GuestSpec, Disk) -> bool,
                          start: Disk, before: Disk, after: Disk, d: Disk)
    requires DistinctGuests(specs) && k < |specs| && OthersKept(before, after, specs[k], mode)
    requires SettledUpTo(specs, k, mode, unmatched, start, before, before)
    requires OthersKept(before, d, specs[k], mode) && (unmatched(specs[k], d) || d == after)
    ensures SettledUpTo(specs, k + 1, mode, unmatched, start, d, after)
  {
    forall j | 0 <= j < |specs| && j != k ensures SameFiles(specs[j], mode, before, d)
                                             && SameFiles(specs[j], mode, before, after)
    {
      assert Apart(specs[j], specs[k]) by {
        assert j < k ==> Apart(specs[j], specs[k]);
        assert k < j ==> Apart(specs[k], specs[j]);
      }
      ApartKeepsFiles(specs[j], specs[k], mode, before, d);
      ApartKeepsFiles(specs[j], specs[k], mode, before, after);
    }
    forall g | ApartFromAll(g, specs) ensures SameFiles(g, mode, start, d) {
      assert specs[k] in specs;
      ApartKeepsFiles(g, specs[k], mode, before, d);
    }
  }

  ghost function Unmatch(inputs: Inputs, mode: Mode): (GuestSpec, Disk) -> bool {
    (spec, d) => Unmatched(spec, d, inputs, mode)
  }

  lemma RunContinues(specs: seq<GuestSpec>, k: nat, mode: Mode, unmatched: (GuestSpec, Disk) -> bool, start: Disk,
                     before: Disk, after: Disk, a: seq<Disk>, b: seq<Disk>, c: seq<Disk>, step: Disk -> bool)
    requires DistinctGuests(specs) && k < |specs| && OthersKept(before, after, specs[k], mode)
    requires SettledUpTo(specs, k, mode, unmatched, start, before, before)
    requires Grew(a, b, RunUpTo(specs, k, mode, unmatched, start, before)) && Grew(b, c, step)
    requires forall d | step(d) :: OthersKept(before, d, specs[k], mode) && (unmatched(specs[k], d) || d == after)
    ensures Grew(a, c, RunUpTo(specs, k + 1, mode, unmatched, start, after))
  {
    var run := RunUpTo(specs, k + 1, mode, unmatched, start, after);
    forall i | |a| <= i < |b| ensures run(b[i]) {
      EarlierStateStaysSettled(specs, k, mode, unmatched, start, before, after, b[i]);
    }
    forall i | |b| <= i < |c| ensures run(c[i]) {
      NewStateIsSettled(specs, k, mode, unmatched, start, before, after, c[i]);
    }
  }

  // ---- Building a list of guests ----

  ghost predicate FreshUpTo(specs: seq<GuestSpec>, k: nat, passes: (GuestSpec, Disk) -> bool, disk: Disk) {
    forall j | 0 <= j < k && j < |specs| :: passes(specs[j], disk)
  }

  /** The verdict depends on the guest's own files only. */
  ghost predicate Local(passes: (GuestSpec, Disk) -> bool, mode: Mode) {
    forall spec, a, b | SameFiles(spec, mode, a, b) :: passes(spec, a) <==> passes(spec, b)
  }

  ghost function Verdicts(inputs: Inputs, canonical: W.WorldModel, mode: Mode): (GuestSpec, Disk) -> bool {
    (spec, d) => Fresh(spec, d, inputs, canonical, mode)
  }

  lemma VerdictsAreLocal(inputs: Inputs, canonical: W.WorldModel, mode: Mode)
    ensures Local(Verdicts(inputs, canonical, mode), mode)
  {
    forall spec, a, b | SameFiles(spec, mode, a, b)
      ensures Verdicts(inputs, canonical, mode)(spec, a) <==> Verdicts(inputs, canonical, mode)(spec, b)
    {
      SameFilesSameVerdict(spec, mode, a, b, inputs, canonical);
    }
  }

  lemma FreshOneMore(specs: seq<GuestSpec>, k: nat, mode: Mode, passes: (GuestSpec, Disk) -> bool, before: Disk,
                     after: Disk)
    requires DistinctGuests(specs) && k < |specs| && OthersKept(before, after, specs[k], mode) && Local(passes, mode)
    requires FreshUpTo(specs, k, passes, before) && passes(specs[k], after)
    ensures FreshUpTo(specs, k + 1, passes, after)
  {
    forall j | 0 <= j < k ensures passes(specs[j], after) {
      ApartKeepsFiles(specs[j], specs[k], mode, before, after);
    }
  }

  /** How far a run over `specs` has come: the first `k` pass the check. */
  ghost predicate Progress(specs: seq<GuestSpec>, k: nat, mode: Mode, unmatched: (GuestSpec, Disk) -> bool,
                           passes: (GuestSpec, Disk) -> bool, start: Disk, disk: Disk, a: seq<Disk>, b: seq<Disk>)
  {
    && FreshUpTo(specs, k, passes, disk)
    && Undisturbed(specs, k, mode, unmatched, start, disk, a, b)
  }

  ghost predicate Undisturbed(specs: seq<GuestSpec>, k: nat, mode: Mode, unmatched: (GuestSpec, Disk) -> bool,
                              start: Disk, disk: Disk, a: seq<Disk>, b: seq<Disk>)
  {
    && SettledUpTo(specs, k, mode, unmatched, start, disk, disk)
    && Grew(a, b, RunUpTo(specs, k, mode, unmatched, start, disk))
  }

  lemma StepStates(spec: GuestSpec, mode: Mode, inputs: Inputs, before: Disk, after: Disk, ok: bool)
    requires OthersKept(before, after, spec, mode)
    ensures forall d | OrFinal(Unfinished(before, spec, mode, inputs), ok, after)(d) ::
      OthersKept(before, d, spec, mode) && (Unmatch(inputs, mode)(spec, d) || d == after)
  {
  }

  lemma ProgressStarts(specs: seq<GuestSpec>, mode: Mode, unmatched: (GuestSpec, Disk) -> bool,
                       passes: (GuestSpec, Disk) -> bool, start: Disk, a: seq<Disk>)
    ensures Progress(specs, 0, mode, unmatched, passes, start, start, a, a)
  {
  }

  lemma ProgressStops(specs: seq<GuestSpec>, k: nat, mode: Mode, unmatched: (GuestSpec, Disk) -> bool,
                      start: Disk, disk: Disk, a: seq<Disk>, b: seq<Disk>)
    requires k <= |specs| && Undisturbed(specs, k, mode, unmatched, start, disk, a, b)
    ensures Undisturbed(specs, |specs|, mode, unmatched, start, disk, a, b)
  {
  }

  method BuildStep(ws: Workspace, specs: seq<GuestSpec>, k: nat, mode: Mode, inputs: Inputs, canonical: W.WorldModel,
                   ghost passes: (GuestSpec, Disk) -> bool, ghost start: Disk, ghost a: seq<Disk>)
    returns (error: Option<BuildError>)
    requires k < |specs| && passes == Verdicts(inputs, canonical, mode) && Local(passes, mode)
    requires DistinctGuests(specs) ==>
      Progress(specs, k, mode, Unmatch(inputs, mode), passes, start, ws.disk, a, ws.trace)
    requires ws.Logged()
    modifies ws
    ensures ws.Logged()
    ensures LatchKept(old(ws.latched), old(ws.log), ws.latched, ws.log)
    ensures mode == Accelerated && old(ws.latched) ==> error.Some?
    ensures error.None? <==> passes(specs[k], ws.disk)
    ensures DistinctGuests(specs) ==>
      Undisturbed(specs, k + 1, mode, Unmatch(inputs, mode), start, ws.disk, a, ws.trace)
    ensures DistinctGuests(specs) && error.None? ==> FreshUpTo(specs, k + 1, passes, ws.disk)
  {
    ghost var before, b := ws.disk, ws.trace;
    error := ws.BuildOneEffective(specs[k], mode, inputs, canonical);
    ghost var after, step := ws.disk, OrFinal(Unfinished(before, specs[k], mode, inputs), error.None?, ws.disk);
    StepStates(specs[k], mode, inputs, before, after, error.None?);
    if DistinctGuests(specs) {
      RunContinues(specs, k, mode, Unmatch(inputs, mode), start, before, after, a, b, ws.trace, step);
      NewStateIsSettled(specs, k, mode, Unmatch(inputs, mode), start, before, after, after);
      if error.None? { FreshOneMore(specs, k, mode, passes, before, after); }
    }
  }

  method BuildEach(ws: Workspace, specs: seq<GuestSpec>, mode: Mode, inputs: Inputs, canonical: W.WorldModel)
    returns (code: int)
    requires ws.Logged()
    modifies ws
    ensures ws.Logged()
    ensures LatchKept(old(ws.latched), old(ws.log), ws.latched, ws.log)
    ensures code == 0 || code == 1
    ensures DistinctGuests(specs) ==> (code == 0 <==> AllFresh(specs, ws.disk, inputs, canonical, mode))
    ensures DistinctGuests(specs) ==>
      Undisturbed(specs, |specs|, mode, Unmatch(inputs, mode), old(ws.disk), ws.disk, old(ws.trace), ws.trace)
  {
    ghost var start, a := ws.disk, ws.trace;
    ghost var passes, unmatched := Verdicts(inputs, canonical, mode), Unmatch(inputs, mode);
    VerdictsAreLocal(inputs, canonical, mode);
    ProgressStarts(specs, mode, unmatched, passes, start, a);
    for k := 0 to |specs|
      invariant ws.Logged() && LatchKept(old(ws.latched), old(ws.log), ws.latched, ws.log)
      invariant DistinctGuests(specs) ==> Progress(specs, k, mode, unmatched, passes, start, ws.disk, a, ws.trace)
    {
      var error := BuildStep(ws, specs, k, mode, inputs, canonical, passes, start, a);
      if error.Some? {
        if DistinctGuests(specs) { ProgressStops(specs, k + 1, mode, unmatched, start, ws.disk, a, ws.trace); }
        return 1;
      }
    }
    code := 0;
  }

  ghost predicate AllFresh(specs: seq<GuestSpec>, disk: Disk, inputs: Inputs, canonical: W.WorldModel, mode: Mode) {
    FreshUpTo(specs, |specs|, Verdicts(inputs, canonical, mode), disk)
  }

  // ---- Checking ----

  function Effective(guests: seq<GuestSpec>, mode: Mode): (r: seq<GuestSpec>)
    ensures |r| == |guests| && forall i | 0 <= i < |guests| :: r[i] == SpecForMode(guests[i], mode)
  {
    seq(|guests|, i requires 0 <= i < |guests| => SpecForMode(guests[i], mode))
  }

  lemma EffectiveDistinct(guests: seq<GuestSpec>, mode: Mode)
    requires DistinctGuests(guests)
    ensures DistinctGuests(Effective(guests, mode))
  {
    forall i, j | 0 <= i < j < |guests| ensures Apart(Effective(guests, mode)[i], Effective(guests, mode)[j]) {
      assert Apart(guests[i], guests[j]);
      var p, q := guests[i].artifactPath, guests[j].artifactPath;
      assert (NAMESPACE + p)[|NAMESPACE|..] == p && (NAMESPACE + q)[|NAMESPACE|..] == q;
    }
  }

  /** The guests that do not pass, in order. */
  ghost function Failing(specs: seq<GuestSpec>, passes: (GuestSpec, Disk) -> bool, disk: Disk): seq<GuestSpec> {
    if specs == [] then []
    else
      var last := specs[|specs| - 1];
      Failing(specs[..|specs| - 1], passes, disk) + if passes(last, disk) then [] else [last]
  }

  /** The stale list of a check. */
  ghost function StaleList(guests: seq<GuestSpec>, disk: Disk, inputs: Inputs, canonical: W.WorldModel, mode: Mode)
    : seq<GuestSpec>
  {
    Failing(Effective(guests, mode), Verdicts(inputs, canonical, mode), disk)
  }

  lemma {:induction false} FailingMembers(specs: seq<GuestSpec>, passes: (GuestSpec, Disk) -> bool, disk: Disk)
    ensures forall s :: s in Failing(specs, passes, disk) <==> s in specs && !passes(s, disk)
    ensures DistinctGuests(specs) ==> DistinctGuests(Failing(specs, passes, disk))
  {
    if specs != [] {
      var front, last := specs[..|specs| - 1], specs[|specs| - 1];
      FailingMembers(front, passes, disk);
      assert specs == front + [last];
      if DistinctGuests(specs) {
        var failing := Failing(front, passes, disk);
        forall i | 0 <= i < |failing| ensures Apart(failing[i], last) {
          assert failing[i] in front;
          var j: nat :| j < |front| && front[j] == failing[i];
          assert Apart(specs[j], specs[|specs| - 1]);
        }
      }
    }
  }

  lemma NoneFailing(specs: seq<GuestSpec>, passes: (GuestSpec, Disk) -> bool, disk: Disk)
    ensures Failing(specs, passes, disk) == [] <==> FreshUpTo(specs, |specs|, passes, disk)
  {
    FailingMembers(specs, passes, disk);
    var failing := Failing(specs, passes, disk);
    if failing != [] {
      assert failing[0] in specs && !passes(failing[0], disk);
    } else {
      forall j | 0 <= j < |specs| ensures passes(specs[j], disk) {
        assert specs[j] in specs;
      }
    }
  }

  lemma StaleListDistinct(guests: seq<GuestSpec>, disk: Disk, inputs: Inputs, canonical: W.WorldModel, mode: Mode)
    requires DistinctGuests(guests)
    ensures DistinctGuests(StaleList(guests, disk, inputs, canonical, mode))
  {
    EffectiveDistinct(guests, mode);
    FailingMembers(Effective(guests, mode), Verdicts(inputs, canonical, mode), disk);
  }

  predicate Usable(inputs: Inputs, canonical: Option<W.WorldModel>) {
    inputs.probes.wasmTools.Some? && canonical.Some?
  }

  method CollectStale(ws: Workspace, guests: seq<GuestSpec>, mode: Mode, inputs: Inputs, canonical: W.WorldModel)
    returns (stale: seq<GuestSpec>)
    ensures stale == StaleList(guests, ws.disk, inputs, canonical, mode)
  {
    var cache := new C.ClosureCache();
    ghost var effective, passes := Effective(guests, mode), Verdicts(inputs, canonical, mode);
    stale := [];
    for i := 0 to |guests|
      invariant fresh(cache) && C.Agrees(cache.inner, inputs.closureFiles)
      invariant stale == Failing(effective[..i], passes, ws.disk)
    {
      TakeOneMore(effective, i);
      var spec := SpecForMode(guests[i], mode);
      var reason := StaleReasonOf(spec, ws.disk, inputs, canonical, mode, cache);
      if reason.Some? { stale := stale + [spec]; }
    }
    TakeAll(effective);
  }

  /** An unusable toolchain or canonical set is never reported as staleness; diverging lock files never as an
      unusable toolchain. */
  method CheckCommand(ws: Workspace, guests: seq<GuestSpec>, locks: seq<L.Lock>, mode: Mode, inputs: Inputs,
                      canonical: Option<W.WorldModel>) returns (outcome: CheckOutcome)
    ensures outcome.code == EXIT_INFRA_ERROR <==> !Usable(inputs, canonical)
    ensures !Usable(inputs, canonical) ==> outcome.stale == []
    ensures Usable(inputs, canonical) ==> outcome.stale == StaleList(guests, ws.disk, inputs, canonical.value, mode)
    ensures outcome.code == EXIT_FRESH <==>
      Usable(inputs, canonical) && outcome.stale == [] && forall name :: !L.DivergingCrate(locks, name)
  {
    if inputs.probes.wasmTools.None? || canonical.None? { return CheckOutcome([], EXIT_INFRA_ERROR); }
    var divergences := L.LockDivergences(locks);
    NoDivergence(divergences, locks);
    var stale := CollectStale(ws, guests, mode, inputs, canonical.value);
    outcome := CheckOutcome(stale, if stale == [] && divergences == [] then EXIT_FRESH else EXIT_STALE);
  }

  lemma NoDivergence(divergences: seq<L.Divergence>, locks: seq<L.Lock>)
    requires L.IsReport(divergences, locks)
    ensures divergences == [] <==> forall name :: !L.DivergingCrate(locks, name)
  {
    if divergences != [] {
      assert divergences[0] in divergences;
      assert L.Mentions(divergences, divergences[0].crate);
    } else {
      forall name ensures !L.DivergingCrate(locks, name) {
        assert L.Mentions(divergences, name) <==> L.DivergingCrate(locks, name);
      }
    }
  }

  // ---- Building ----

  /** Rebuilds exactly the given guests. */
  method BuildStale(ws: Workspace, stale: seq<GuestSpec>, mode: Mode, inputs: Inputs,
                    canonical: Option<W.WorldModel>) returns (code: int)
    requires ws.Logged()
    modifies ws
    ensures ws.Logged()
    ensures LatchKept(old(ws.latched), old(ws.log), ws.latched, ws.log)
    ensures code == 0 || code == 1
    ensures !Usable(inputs, canonical) ==> (code == 0 <==> stale == [])
    ensures !Usable(inputs, canonical) || stale == [] ==>
      ws.disk == old(ws.disk) && ws.trace == old(ws.trace) && ws.builds == old(ws.builds)
    ensures DistinctGuests(stale) && Usable(inputs, canonical) ==>
      (code == 0 <==> AllFresh(stale, ws.disk, inputs, canonical.value, mode))
    ensures DistinctGuests(stale) ==>
      Undisturbed(stale, |stale|, mode, Unmatch(inputs, mode), old(ws.disk), ws.disk, old(ws.trace), ws.trace)
  {
    NothingRan(stale, mode, Unmatch(inputs, mode), ws.disk, ws.trace);
    if stale == [] { return 0; }
    if inputs.probes.wasmTools.None? || canonical.None? { return 1; }
    code := BuildEach(ws, stale, mode, inputs, canonical.value);
  }

  lemma NothingRan(specs: seq<GuestSpec>, mode: Mode, unmatched: (GuestSpec, Disk) -> bool, disk: Disk, a: seq<Disk>)
    ensures Undisturbed(specs, |specs|, mode, unmatched, disk, disk, a, a)
  {
  }

  method BuildAll(ws: Workspace, guests: seq<GuestSpec>, mode: Mode, inputs: Inputs,
                  canonical: Option<W.WorldModel>) returns (code: int)
    requires ws.Logged()
    modifies ws
    ensures ws.Logged()
    ensures LatchKept(old(ws.latched), old(ws.log), ws.latched, ws.log)
    ensures !Usable(inputs, canonical) ==> code == 1
    ensures !Usable(inputs, canonical) ==>
      ws.disk == old(ws.disk) && ws.trace == old(ws.trace) && ws.builds == old(ws.builds)
    ensures DistinctGuests(guests) && Usable(inputs, canonical) ==>
      (code == 0 <==> AllFresh(Effective(guests, mode), ws.disk, inputs, canonical.value, mode))
    ensures DistinctGuests(guests) ==>
      Undisturbed(Effective(guests, mode), |guests|, mode, Unmatch(inputs, mode), old(ws.disk), ws.disk,
                  old(ws.trace), ws.trace)
  {
    NothingRan(Effective(guests, mode), mode, Unmatch(inputs, mode), ws.disk, ws.trace);
    if inputs.probes.wasmTools.None? || canonical.None? { return 1; }
    if DistinctGuests(guests) { EffectiveDistinct(guests, mode); }
    code := BuildEach(ws, Effective(guests, mode), mode, inputs, canonical.value);
  }

  /** A run over some of the guests, told as a run over all of them. */
  lemma RunOverAll(all: seq<GuestSpec>, some: seq<GuestSpec>, mode: Mode, unmatched: (GuestSpec, Disk) -> bool,
                   start: Disk, disk: Disk, a: seq<Disk>, b: seq<Disk>)
    requires DistinctGuests(all) && forall s | s in some :: s in all
    requires Undisturbed(some, |some|, mode, unmatched, start, disk, a, b)
    ensures Undisturbed(all, |all|, mode, unmatched, start, disk, a, b)
  {
    forall d | SettledUpTo(some, |some|, mode, unmatched, start, d, disk)
      ensures SettledUpTo(all, |all|, mode, unmatched, start, d, disk)
    {
      StateOverAll(all, some, mode, unmatched, start, d, disk);
    }
    GrewWeaker(a, b, RunUpTo(some, |some|, mode, unmatched, start, disk),
               RunUpTo(all, |all|, mode, unmatched, start, disk));
  }

  lemma StateOverAll(all: seq<GuestSpec>, some: seq<GuestSpec>, mode: Mode, unmatched: (GuestSpec, Disk) -> bool,
                     start: Disk, d: Disk, disk: Disk)
    requires DistinctGuests(all) && forall s | s in some :: s in all
    requires SettledUpTo(some, |some|, mode, unmatched, start, d, disk)
    ensures SettledUpTo(all, |all|, mode, unmatched, start, d, disk)
  {
    forall j | 0 <= j < |all| ensures Settled(all[j], mode, unmatched, start, d, disk) {
      if all[j] in some {
        var i: nat :| i < |some| && some[i] == all[j];
        assert Settled(some[i], mode, unmatched, start, d, disk);
      } else {
        OthersAreApart(all, some, j);
      }
    }
    forall g | ApartFromAll(g, all) ensures SameFiles(g, mode, start, d) {
      assert ApartFromAll(g, some);
    }
  }

  lemma OthersAreApart(all: seq<GuestSpec>, some: seq<GuestSpec>, j: nat)
    requires DistinctGuests(all) && j < |all| && all[j] !in some && forall s | s in some :: s in all
    ensures ApartFromAll(all[j], some)
  {
    forall s | s in some ensures Apart(all[j], s) {
      var i: nat :| i < |all| && all[i] == s;
      assert i < j ==> Apart(all[i], all[j]);
      assert j < i ==> Apart(all[j], all[i]);
    }
  }

  /** When the failing guests pass after the run, all do. */
  lemma AllPassAfter(all: seq<GuestSpec>, mode: Mode, unmatched: (GuestSpec, Disk) -> bool,
                     passes: (GuestSpec, Disk) -> bool, start: Disk, disk: Disk)
    requires DistinctGuests(all) && Local(passes, mode)
    requires SettledUpTo(Failing(all, passes, start), |Failing(all, passes, start)|, mode, unmatched, start, disk, disk)
    ensures FreshUpTo(all, |all|, passes, disk)
       <==> FreshUpTo(Failing(all, passes, start), |Failing(all, passes, start)|, passes, disk)
  {
    var failing := Failing(all, passes, start);
    FailingMembers(all, passes, start);
    forall j | 0 <= j < |all| && all[j] !in failing ensures passes(all[j], disk) {
      assert all[j] in all;
      OthersAreApart(all, failing, j);
    }
    if FreshUpTo(all, |all|, passes, disk) {
      forall i | 0 <= i < |failing| ensures passes(failing[i], disk) {
        assert failing[i] in all;
        var j: nat :| j < |all| && all[j] == failing[i];
      }
    }
    if FreshUpTo(failing, |failing|, passes, disk) {
      forall j | 0 <= j < |all| && all[j] in failing ensures passes(all[j], disk) {
        var i: nat :| i < |failing| && failing[i] == all[j];
      }
    }
  }

  lemma RunOverFailing(all: seq<GuestSpec>, mode: Mode, unmatched: (GuestSpec, Disk) -> bool,
                       passes: (GuestSpec, Disk) -> bool, start: Disk, disk: Disk, a: seq<Disk>, b: seq<Disk>)
    requires DistinctGuests(all) && Local(passes, mode)
    requires Undisturbed(Failing(all, passes, start), |Failing(all, passes, start)|, mode, unmatched, start, disk, a, b)
    ensures Undisturbed(all, |all|, mode, unmatched, start, disk, a, b)
    ensures FreshUpTo(all, |all|, passes, disk)
       <==> FreshUpTo(Failing(all, passes, start), |Failing(all, passes, start)|, passes, disk)
  {
    FailingMembers(all, passes, start);
    RunOverAll(all, Failing(all, passes, start), mode, unmatched, start, disk, a, b);
    AllPassAfter(all, mode, unmatched, passes, start, disk);
  }

  /** The default build: the check decides which guests are rebuilt. */
  method BuildReportedStale(ws: Workspace, guests: seq<GuestSpec>, locks: seq<L.Lock>, mode: Mode, inputs: Inputs,
                            canonical: Option<W.WorldModel>) returns (code: int)
    requires ws.Logged()
    modifies ws
    ensures ws.Logged()
    ensures LatchKept(old(ws.latched), old(ws.log), ws.latched, ws.log)
    ensures code == EXIT_INFRA_ERROR <==> !Usable(inputs, canonical)
    ensures !Usable(inputs, canonical) ==>
      ws.disk == old(ws.disk) && ws.trace == old(ws.trace) && ws.builds == old(ws.builds)
    ensures DistinctGuests(guests) && Usable(inputs, canonical) ==>
      (code == 0 <==> AllFresh(Effective(guests, mode), ws.disk, inputs, canonical.value, mode))
    ensures DistinctGuests(guests) ==>
      Undisturbed(Effective(guests, mode), |guests|, mode, Unmatch(inputs, mode), old(ws.disk), ws.disk,
                  old(ws.trace), ws.trace)
  {
    ghost var all, unmatched, start := Effective(guests, mode), Unmatch(inputs, mode), ws.disk;
    NothingRan(all, mode, unmatched, ws.disk, ws.trace);
    var outcome := CheckCommand(ws, guests, locks, mode, inputs, canonical);
    if outcome.code == EXIT_INFRA_ERROR { return EXIT_INFRA_ERROR; }
    if DistinctGuests(guests) { StaleListDistinct(guests, start, inputs, canonical.value, mode); }
    code := BuildStale(ws, outcome.stale, mode, inputs, canonical);
    if DistinctGuests(guests) {
      ghost var passes := Verdicts(inputs, canonical.value, mode);
      EffectiveDistinct(guests, mode);
      VerdictsAreLocal(inputs, canonical.value, mode);
      RunOverFailing(all, mode, unmatched, passes, start, ws.disk, old(ws.trace), ws.trace);
    }
  }

  /** `build_command_with`. Returning 0 means that a check right after it reports no stale guest, and the other
      way round; and at every state of the run every guest has its old files, or its final ones, or is stale. */
  method BuildCommandWith(ws: Workspace, guests: seq<GuestSpec>, locks: seq<L.Lock>, mode: Mode, inputs: Inputs,
                          canonical: Option<W.WorldModel>, force: bool) returns (code: int)
    requires ws.Logged()
    modifies ws
    ensures ws.Logged()
    ensures LatchKept(old(ws.latched), old(ws.log), ws.latched, ws.log)
    ensures !Usable(inputs, canonical) ==> code == if force then 1 else EXIT_INFRA_ERROR
    ensures !Usable(inputs, canonical) ==>
      ws.disk == old(ws.disk) && ws.trace == old(ws.trace) && ws.builds == old(ws.builds)
    ensures DistinctGuests(guests) && Usable(inputs, canonical) ==>
      (code == 0 <==> StaleList(guests, ws.disk, inputs, canonical.value, mode) == [])
    ensures DistinctGuests(guests) ==>
      Undisturbed(Effective(guests, mode), |guests|, mode, Unmatch(inputs, mode), old(ws.disk), ws.disk,
                  old(ws.trace), ws.trace)
  {
    if force {
      code := BuildAll(ws, guests, mode, inputs, canonical);
    } else {
      code := BuildReportedStale(ws, guests, locks, mode, inputs, canonical);
    }
    if canonical.Some? {
      NoneFailing(Effective(guests, mode), Verdicts(inputs, canonical.value, mode), ws.disk);
    }
  }

  method BuildCommand(ws: Workspace, guests: seq<GuestSpec>, locks: seq<L.Lock>, inputs: Inputs,
                      canonical: Option<W.WorldModel>, force: bool) returns (code: int)
    requires ws.Logged()
    modifies ws
    ensures ws.Logged()
    ensures code == 0 ==> Usable(inputs, canonical)
    ensures DistinctGuests(guests) && Usable(inputs, canonical) ==>
      (code == 0 <==> StaleList(guests, ws.disk, inputs, canonical.value, Ordinary) == [])
    ensures DistinctGuests(guests) ==>
      Undisturbed(Effective(guests, Ordinary), |guests|, Ordinary, Unmatch(inputs, Ordinary), old(ws.disk), ws.disk,
                  old(ws.trace), ws.trace)
  {
    code := BuildCommandWith(ws, guests, locks, Ordinary, inputs, canonical, force);
  }

  method EnforceLatchGate(ws: Workspace, code: int) returns (r: int)
    ensures ws.latched ==> r == 1
    ensures !ws.latched ==> r == code
  {
    r := if ws.latched then 1 else code;
  }

  /** The session starts by clearing the latch and preparing the compiler shim; either may fail. Shims of an earlier
      session may still be at work. */
  method PrepareSession(ws: Workspace) returns (ok: bool)
    modifies ws`latched, ws`log
    ensures ok ==> ws.log.clears == old(ws.log.clears) + 1 && (ws.log.rejections > 0 ==> ws.latched)
    ensures !ok ==> ws.log.clears <= old(ws.log.clears) + 1
  {
    ws.ShimsMayReject();
    var cleared: bool, prepared: bool := *, *;
    if !cleared { return false; }
    ws.ClearLatch();
    ws.ShimsMayReject();
    ok := prepared;
  }

  /** Returning 0 also means that no compiler invocation was rejected since the session cleared the latch, which it
      does once. */
  method AcceleratedBuildCommand(ws: Workspace, guests: seq<GuestSpec>, locks: seq<L.Lock>, inputs: Inputs,
                                 canonical: Option<W.WorldModel>, force: bool) returns (code: int)
    requires ws.Logged()
    modifies ws
    ensures ws.Logged()
    ensures code == 0 ==> Usable(inputs, canonical) && !ws.latched && ws.log == LatchLog(0, old(ws.log.clears) + 1)
    ensures DistinctGuests(guests) && code == 0 ==>
      StaleList(guests, ws.disk, inputs, canonical.value, Accelerated) == []
    ensures DistinctGuests(guests) ==>
      Undisturbed(Effective(guests, Accelerated), |guests|, Accelerated, Unmatch(inputs, Accelerated), old(ws.disk),
                  ws.disk, old(ws.trace), ws.trace)
  {
    NothingRan(Effective(guests, Accelerated), Accelerated, Unmatch(inputs, Accelerated), ws.disk, ws.trace);
    var prepared := PrepareSession(ws);
    if !prepared { return 1; }
    code := BuildCommandWith(ws, guests, locks, Accelerated, inputs, canonical, force);
    ws.ShimsMayReject();
    code := EnforceLatchGate(ws, code);
  }

  // ---- A build and the check after it ----

  /** After a build that returned 0, the check finds no stale guest, and it succeeds if and only if no crate diverges
      in the lock files. */
  method BuildThenCheck(ws: Workspace, guests: seq<GuestSpec>, locks: seq<L.Lock>, mode: Mode, inputs: Inputs,
                        canonical: Option<W.WorldModel>, force: bool) returns (code: int, outcome: CheckOutcome)
    requires ws.Logged()
    modifies ws
    ensures DistinctGuests(guests) && code == 0 ==> Usable(inputs, canonical) && outcome.stale == []
    ensures DistinctGuests(guests) && code == 0 ==>
      (outcome.code == EXIT_FRESH <==> forall name :: !L.DivergingCrate(locks, name))
    ensures DistinctGuests(guests) && outcome.code == EXIT_FRESH ==> code == 0
  {
    code := BuildCommandWith(ws, guests, locks, mode, inputs, canonical, force);
    outcome := CheckCommand(ws, guests, locks, mode, inputs, canonical);
  }

  // ---- What the commands mean ----

  ghost function CalledFor(inputs: Inputs, canonical: W.WorldModel, mode: Mode): (GuestSpec, Disk) -> bool {
    (spec, d) => AsCalledFor(spec, d, inputs, canonical, mode)
  }

  lemma VerdictsAreExact(inputs: Inputs, canonical: W.WorldModel, mode: Mode, spec: GuestSpec, d: Disk)
    ensures Verdicts(inputs, canonical, mode)(spec, d) <==> CalledFor(inputs, canonical, mode)(spec, d)
  {
    FreshIff(spec, d, inputs, canonical, mode);
  }

  /** A check lists no guest if and only if each one's artifact decodes to an accepted world of its stage and its
      sidecars hold what its inputs call for. */
  lemma NothingStaleIff(guests: seq<GuestSpec>, disk: Disk, inputs: Inputs, canonical: W.WorldModel, mode: Mode)
    ensures StaleList(guests, disk, inputs, canonical, mode) == []
       <==> FreshUpTo(Effective(guests, mode), |guests|, CalledFor(inputs, canonical, mode), disk)
  {
    var passes, called := Verdicts(inputs, canonical, mode), CalledFor(inputs, canonical, mode);
    NoneFailing(Effective(guests, mode), passes, disk);
    forall spec ensures passes(spec, disk) <==> called(spec, disk) {
      VerdictsAreExact(inputs, canonical, mode, spec, disk);
    }
  }

  /** An interruption at any state of a run leaves no guest with files that pass the check unless these are its
      files from before the run or those it ends with. */
  lemma InterruptedRun(guests: seq<GuestSpec>, i: nat, mode: Mode, inputs: Inputs, canonical: W.WorldModel, start: Disk,
                       final: Disk, a: seq<Disk>, b: seq<Disk>, k: nat)
    requires Undisturbed(Effective(guests, mode), |guests|, mode, Unmatch(inputs, mode), start, final, a, b)
    requires i < |guests| && |a| <= k < |b|
    ensures var spec := SpecForMode(guests[i], mode);
            Fresh(spec, b[k], inputs, canonical, mode) ==>
              SameFiles(spec, mode, start, b[k]) || SameFiles(spec, mode, b[k], final)
  {
    var spec := Effective(guests, mode)[i];
    assert RunUpTo(Effective(guests, mode), |guests|, mode, Unmatch(inputs, mode), start, final)(b[k]);
    assert Settled(spec, mode, Unmatch(inputs, mode), start, b[k], final);
    if Unmatched(spec, b[k], inputs, mode) {
      UnmatchedIsStale(spec, b[k], inputs, canonical, mode);
    }
  }

  predicate InNamespace(path: RelPath) { NAMESPACE <= path }

  /** Builds in one mode leave every verdict of the other mode alone, also that of the same guest. */
  lemma ModesAreIndependent(g: GuestSpec, h: GuestSpec, mode: Mode, other: Mode, a: Disk, b: Disk, inputs: Inputs,
                            canonical: W.WorldModel)
    requires mode != other && !InNamespace(g.artifactPath) && !InNamespace(h.artifactPath)
    requires OthersKept(a, b, SpecForMode(g, mode), mode)
    ensures Fresh(SpecForMode(h, other), a, inputs, canonical, other)
       <==> Fresh(SpecForMode(h, other), b, inputs, canonical, other)
  {
    assert NAMESPACE <= NAMESPACE + g.artifactPath && NAMESPACE <= NAMESPACE + h.artifactPath;
    SameFilesSameVerdict(SpecForMode(h, other), other, a, b, inputs, canonical);
  }
}
