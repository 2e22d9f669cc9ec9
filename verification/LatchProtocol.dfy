/** The rejection latch shared by concurrent compiler shims and the accelerated build session
    (xtask/src/rustc_driver.rs, `run_shim_mode`, `reject` and the latch functions; xtask/src/build_guests.rs,
    `accelerated_build_command`, `ensure_accelerated_session_is_clean`, `enforce_accelerated_latch_gate`).
    Every step below is one access to shared state. Shims may start at any time, and whoever starts them may
    ignore their exit codes: the inner builds of the session finish or fail independently of the shims. */
module LatchProtocol {

  type Pid = nat

  /** `Started` has not looked at the latch yet, `Admitted` found it clear, `Rejecting` is about to set it. */
  datatype Shim = Started | Admitted | Rejecting | Compiling | Exited(code: int) | Refused | Rejected

  /** What the session does for one guest. */
  datatype Work = Removing | Building | Gating | Verifying | WritingFingerprint | WritingIdentity

  datatype Session = NotStarted | Preparing | Guest(index: nat, work: Work, retried: bool) | FinalGate(code: int)
                   | Returned(code: int)

  datatype State = State(latch: bool, shims: map<Pid, Shim>, session: Session, fingerprints: set<nat>,
                         identities: set<nat>)

  // ---- Shims ----

  /** One step of shim `p`. */
  ghost predicate ShimStep(s: State, t: State, p: Pid) {
    && p in s.shims && p in t.shims
    && t == s.(latch := t.latch, shims := s.shims[p := t.shims[p]])
    && match s.shims[p]
       case Started => t.latch == s.latch && t.shims[p] == if s.latch then Refused else Admitted
       case Admitted => t.latch == s.latch && (t.shims[p] == Rejecting || t.shims[p] == Compiling)
       case Rejecting => t.latch && t.shims[p] == Rejected
       case Compiling => t.latch == s.latch && t.shims[p].Exited?
       case _ => false
  }

  ghost predicate Start(s: State, t: State, p: Pid) {
    p !in s.shims && t == s.(shims := s.shims[p := Started])
  }

  // ---- The session ----

  /** One step of the session over `n` guests. */
  ghost predicate SessionStep(n: nat, s: State, t: State) {
    match s.session
    case NotStarted => Prepares(s, t)
    case Preparing => Decides(s, t)
    case Guest(_, _, _) => Works(n, s, t)
    case FinalGate(code) => t == s.(session := Returned(if s.latch then 1 else code))
    case Returned(_) => false
  }

  /** Clears the latch and creates the shim; either may fail. */
  ghost predicate Prepares(s: State, t: State) {
    || t == s.(latch := false, session := Preparing)
    || t == s.(latch := false, session := Returned(1))
    || t == s.(session := Returned(1))
  }

  /** The freshness check, or its infrastructure error. */
  ghost predicate Decides(s: State, t: State) {
    || t == s.(session := Guest(0, Removing, false))
    || (t == s.(session := t.session) && t.session.FinalGate? && t.session.code != 0)
  }

  ghost predicate Works(n: nat, s: State, t: State)
    requires s.session.Guest?
  {
    var k := s.session.index;
    if k >= n then t == s.(session := FinalGate(0))
    else
      || (s.session.work != Gating && t == s.(session := FinalGate(1)))
      || match s.session.work
         case Removing =>
           || t == s.(session := Guest(k + 1, Removing, false)) // not reported stale
           || t == s.(session := Guest(k, Building, false), fingerprints := s.fingerprints - {k},
                      identities := s.identities - {k})
         case Building => t == s.(session := Guest(k, Gating, s.session.retried))
         case Gating =>
           t == s.(session := if s.latch then FinalGate(1) else Guest(k, Verifying, s.session.retried))
         case Verifying =>
           || t == s.(session := Guest(k, WritingFingerprint, s.session.retried))
           || (!s.session.retried && t == s.(session := Guest(k, Building, true)))
         case WritingFingerprint =>
           t == s.(session := Guest(k, WritingIdentity, s.session.retried), fingerprints := s.fingerprints + {k})
         case WritingIdentity =>
           t == s.(session := Guest(k + 1, Removing, false), identities := s.identities + {k})
  }

  // ---- Runs ----

  ghost predicate Next(n: nat, s: State, t: State) {
    || SessionStep(n, s, t)
    || exists p :: Start(s, t, p) || ShimStep(s, t, p)
  }

  ghost predicate IsRun(n: nat, run: seq<State>) {
    forall i | 0 <= i < |run| - 1 :: Next(n, run[i], run[i + 1])
  }

  /** The session has cleared the latch and has not read it for the last time. */
  predicate InSession(s: State) { s.session.Preparing? || s.session.Guest? || s.session.FinalGate? }

  /** From the clear on. */
  predicate Cleared(s: State) { !s.session.NotStarted? }

  /** What a latched state after the clear leads to and never leaves. */
  ghost predicate Stable(n: nat, p: State -> bool) {
    forall s, t | Next(n, s, t) && p(s) :: p(t)
  }

  lemma {:induction false} StaysTrue(n: nat, run: seq<State>, p: State -> bool, i: nat, j: nat)
    requires IsRun(n, run) && i <= j < |run| && Stable(n, p) && p(run[i])
    ensures p(run[j])
    decreases j - i
  {
    if i < j {
      assert Next(n, run[i], run[i + 1]);
      StaysTrue(n, run, p, i + 1, j);
    }
  }

  /** Once the session has cleared the latch, nothing clears it again. */
  lemma LatchStays(n: nat, run: seq<State>, i: nat, j: nat)
    requires IsRun(n, run) && i <= j < |run| && Cleared(run[i]) && run[i].latch
    ensures run[j].latch
  {
    StaysTrue(n, run, (s: State) => Cleared(s) && s.latch, i, j);
  }

  predicate NeverCompiled(s: State, p: Pid) {
    p in s.shims && (s.shims[p] == Started || s.shims[p] == Refused)
  }

  /** A shim that starts after a rejection refuses and never runs the compiler. */
  lemma LaterShimsRefuse(n: nat, run: seq<State>, p: Pid, i: nat, j: nat)
    requires IsRun(n, run) && i <= j < |run| && Cleared(run[i]) && run[i].latch
    requires p in run[i].shims && run[i].shims[p] == Started
    ensures NeverCompiled(run[j], p)
  {
    StaysTrue(n, run, (s: State) => Cleared(s) && s.latch && NeverCompiled(s, p), i, j);
  }

  /** The session can only fail from here on. */
  predicate Failing(s: State) {
    match s.session
    case Guest(_, work, _) => work == Building || work == Gating
    case FinalGate(code) => code != 0
    case Returned(code) => code != 0
    case _ => false
  }

  /** A guest that is being built when a rejection has happened gets no sidecar, and neither does any guest after it:
      the session writes none any more, and the guest's own were removed before its build. */
  lemma NoSidecarAfterRejection(n: nat, run: seq<State>, k: nat, i: nat, j: nat)
    requires IsRun(n, run) && i <= j < |run| && run[0].session == NotStarted
    requires run[i].latch && run[i].session.Guest? && run[i].session.index == k < n
    requires run[i].session.work == Building || run[i].session.work == Gating
    ensures run[j].fingerprints == run[i].fingerprints && run[j].identities == run[i].identities
    ensures k !in run[j].fingerprints && k !in run[j].identities
    ensures run[j].session.Returned? ==> run[j].session.code != 0
  {
    GuestUnderBuildHasNoSidecar(n, run, i);
    var fingerprints, identities := run[i].fingerprints, run[i].identities;
    StaysTrue(n, run, (s: State) => s.latch && Failing(s) && AtGuest(s, n)
                                    && s.fingerprints == fingerprints && s.identities == identities, i, j);
  }

  predicate AtGuest(s: State, n: nat) { s.session.Guest? ==> s.session.index < n }

  /** While a guest is built, gated or verified, it has neither sidecar; while its identity is written it has no
      identity. */
  predicate SidecarsLast(s: State) {
    s.session.Guest? ==>
      && (s.session.work in {Building, Gating, Verifying, WritingFingerprint} ==> s.session.index !in s.fingerprints)
      && (s.session.work != Removing ==> s.session.index !in s.identities)
  }

  lemma GuestUnderBuildHasNoSidecar(n: nat, run: seq<State>, j: nat)
    requires IsRun(n, run) && j < |run| && run[0].session == NotStarted
    ensures SidecarsLast(run[j])
  {
    StaysTrue(n, run, (s: State) => SidecarsLast(s), 0, j);
  }

  /** No rejection during the session goes unnoticed: when it returns 0, the latch was clear at every moment
      between its clear and its final gate. */
  lemma RejectedSessionFails(n: nat, run: seq<State>, i: nat, j: nat)
    requires IsRun(n, run) && i <= j < |run| && InSession(run[i]) && run[j].session == Returned(0)
    ensures !run[i].latch
  {
    if run[i].latch {
      StaysTrue(n, run, (s: State) => s.latch && Cleared(s) && s.session != Returned(0), i, j);
    }
  }

  /** A shim's rejection sets the latch in the same step. */
  lemma RejectionLatches(n: nat, s: State, t: State, p: Pid)
    requires Next(n, s, t) && p in s.shims && s.shims[p] == Rejecting && p in t.shims && t.shims[p] == Rejected
    ensures t.latch
  {
  }

  /** The same for the rejection itself: a shim that rejects while the session is in progress makes it fail. */
  lemma RejectingShimFailsTheSession(n: nat, run: seq<State>, p: Pid, i: nat, j: nat)
    requires IsRun(n, run) && i < j < |run| && run[j].session.Returned?
    requires p in run[i].shims && run[i].shims[p] == Rejecting
    requires p in run[i + 1].shims && run[i + 1].shims[p] == Rejected && InSession(run[i + 1])
    ensures run[j].session.code != 0
  {
    assert Next(n, run[i], run[i + 1]);
    RejectionLatches(n, run[i], run[i + 1], p);
    if run[j].session.code == 0 {
      RejectedSessionFails(n, run, i + 1, j);
    }
  }

  /** The return is final: what shims do after it changes neither the code nor the sidecars. */
  lemma ReturnedIsFinal(n: nat, run: seq<State>, i: nat, j: nat)
    requires IsRun(n, run) && i <= j < |run| && run[i].session.Returned?
    ensures run[j].session == run[i].session
    ensures run[j].fingerprints == run[i].fingerprints && run[j].identities == run[i].identities
  {
    var s := run[i];
    StaysTrue(n, run, (t: State) => t.session == s.session && t.fingerprints == s.fingerprints
                                    && t.identities == s.identities, i, j);
  }

  /** After a rejection that follows the clear, the command returns 0 if and only if it had returned 0 before. */
  lemma RejectionMissedIff(n: nat, run: seq<State>, p: Pid, i: nat, j: nat)
    requires IsRun(n, run) && i < j < |run| && run[j].session.Returned? && Cleared(run[i])
    requires p in run[i].shims && run[i].shims[p] == Rejecting
    requires p in run[i + 1].shims && run[i + 1].shims[p] == Rejected
    ensures run[j].session == Returned(0) <==> run[i].session == Returned(0)
  {
    assert Next(n, run[i], run[i + 1]);
    RejectionLatches(n, run[i], run[i + 1], p);
    if run[i].session.Returned? {
      ReturnedIsFinal(n, run, i, j);
    } else {
      RejectingShimFailsTheSession(n, run, p, i, j);
    }
  }

  /** The session must still be in progress: a shim that outlives it can reject after the final gate. */
  lemma LateRejectionIsMissed() returns (run: seq<State>)
    ensures IsRun(0, run) && run != [] && run[0].session == NotStarted
    ensures run[|run| - 1].latch && run[|run| - 1].session == Returned(0)
  {
    var s0 := State(false, map[], NotStarted, {}, {});
    var s1 := s0.(session := Preparing);
    var s2 := s1.(session := Guest(0, Removing, false));
    var s3 := s2.(session := FinalGate(0));
    var s4 := s3.(shims := map[0 := Started]);
    var s5 := s4.(shims := map[0 := Admitted]);
    var s6 := s5.(session := Returned(0));
    var s7 := s6.(shims := map[0 := Rejecting]);
    var s8 := s7.(latch := true, shims := map[0 := Rejected]);
    assert Start(s3, s4, 0);
    assert ShimStep(s4, s5, 0) && ShimStep(s6, s7, 0) && ShimStep(s7, s8, 0);
    run := [s0, s1, s2, s3, s4, s5, s6, s7, s8];
  }
}
