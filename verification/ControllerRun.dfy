/**
 `Controller.run`: the composition of the lease, the cleanup transaction and the schedule.
 Every hook may raise or return anything; every system call of the lease may fail; other
 processes act in between. A raised exception is a method that returns `false`.
 */
module ControllerRun {
  import opened Common
  import opened Reservation
  import opened Protocol
  import opened LeaseObject
  import opened Cleanup
  import opened Schedule

  datatype Gate = Bootstrap | HostGate | ImageGate | SourceGate | ReviewGate

  const GATES: seq<Gate> := [Bootstrap, HostGate, ImageGate, SourceGate, ReviewGate]

  datatype PhaseName =
    | ExclusivePhase | ReservePhase | GatePhase(gate: Gate) | SchedulePhase | ManifestsPhase
    | ReportPhase | VerifyPhase | StagePhase | UnlockPhase | PublishPhase | FinalizePhase
    | EndPhase(regression: bool)

  /** The phases of a run that completes, up to its final state. */
  function PhaseAt(n: nat): PhaseName
    requires n < 15
  {
    if 2 <= n < 7 then GatePhase(GATES[n - 2])
    else if n == 0 then ExclusivePhase
    else if n == 1 then ReservePhase
    else if n == 7 then SchedulePhase
    else if n == 8 then ManifestsPhase
    else if n == 9 then ReportPhase
    else if n == 10 then VerifyPhase
    else if n == 11 then StagePhase
    else if n == 12 then UnlockPhase
    else if n == 13 then PublishPhase
    else FinalizePhase
  }

  /** The phases passed are the first ones of a complete run. */
  predicate InOrder(phases: seq<PhaseName>) {
    |phases| <= 15 && forall i | 0 <= i < |phases| :: phases[i] == PhaseAt(i)
  }

  /** What the run did to the outside world, in order. */
  datatype Mark = AcquireDone | ReserveDone | StageDone | UnlockDone | PublishCalled | RemoveDone

  const COMPLETE: seq<Mark> := [AcquireDone, ReserveDone, StageDone, UnlockDone, PublishCalled, RemoveDone]

  datatype ChildResult = ChildResult(id: string, outcome: ChildOutcome, resources: seq<Resource>)

  /** What the result's own constructor demands: nonempty tokens, none returned twice. */
  predicate WellFormedResult(r: ChildResult) {
    && (forall i | 0 <= i < |r.resources| :: r.resources[i].token != "")
    && (forall i, j | 0 <= i < j < |r.resources| :: r.resources[i] != r.resources[j])
  }

  datatype Record = Record(plan: ChildPlan, result: ChildResult)

  datatype RunState = RunAccepted | RunRegression | RunRejected | RunFailClosed

  datatype ControllerResult = ControllerResult(state: RunState, phases: seq<PhaseName>, cleanup: CleanupResult)

  const STAGED := OPENED.(staging := true, reservation := true)
  const UNLOCKED := STAGED.(lockHeld := false, unlocked := true)

  /**
   What the hooks do in one run; each is called at most once, or once per child. `None` stands for a
   hook that raises or returns the wrong type. `verify` gives the report's preparation rows and whether
   its verdict is a regression.
   */
  datatype Hooks = Hooks(
    gate: Gate -> bool,
    childId: nat -> Option<string>,
    execute: nat -> Option<ChildResult>,
    manifests: Option<(bool, bool)>,
    report: bool,
    verify: Option<(seq<(Product, Digest)>, bool)>,
    stage: bool,
    discard: bool,
    publish: bool)

  // ----- how a run ends, from the answers alone -----

  /** The child's ID is well formed and new. */
  predicate Starts(h: Hooks, i: nat) {
    var id := h.childId(i);
    id.Some? && IsHex64(id.value) && forall j | 0 <= j < i :: h.childId(j) != id
  }

  /** The digest a child showed. */
  function DigestOf(h: Hooks, i: nat): Digest {
    if h.execute(i).Some? then h.execute(i).value.outcome.digest else ""
  }

  /** The child's result is acceptable for its plan, and shows the digest of its product's preparation. */
  predicate Ends(h: Hooks, i: nat)
    requires i < CHILDREN
  {
    var r := h.execute(i);
    && r.Some? && WellFormedResult(r.value) && h.childId(i) == Some(r.value.id)
    && Acceptable(PlanAt(i), r.value.outcome)
    && DigestOf(h, i) == DigestOf(h, PrepareIndex(KeyOf(PlanAt(i))))
  }

  /** The first `n` children start and end well. */
  predicate Passed(h: Hooks, n: nat) {
    n <= CHILDREN && forall i | 0 <= i < n :: Starts(h, i) && Ends(h, i)
  }

  /** The first child that does not pass has started. */
  predicate StopsInside(h: Hooks) {
    exists i :: 0 <= i < CHILDREN && StopsAt(h, i) && Starts(h, i)
  }

  /** This child is the first that does not pass. */
  predicate StopsAt(h: Hooks, i: nat) {
    i < CHILDREN && Passed(h, i) && !(Starts(h, i) && Ends(h, i))
  }

  lemma StopIs(h: Hooks, i: nat)
    requires StopsAt(h, i)
    ensures !Passed(h, CHILDREN) && (StopsInside(h) <==> Starts(h, i))
  {
    if j :| 0 <= j < CHILDREN && StopsAt(h, j) && Starts(h, j) {
      assert i == j;
    }
  }

  lemma NoStop(h: Hooks)
    requires Passed(h, CHILDREN)
    ensures !StopsInside(h)
  {
  }

  /** The number of gates entered: up to the first that refuses. */
  function GatesEntered(h: Hooks): nat {
    if !h.gate(Bootstrap) then 1
    else if !h.gate(HostGate) then 2
    else if !h.gate(ImageGate) then 3
    else if !h.gate(SourceGate) then 4
    else 5
  }

  predicate GatesPass(h: Hooks) { forall i | 0 <= i < |GATES| :: h.gate(GATES[i]) }

  lemma GateStops(h: Hooks, n: nat)
    requires n < |GATES| && !h.gate(GATES[n]) && forall i | 0 <= i < n :: h.gate(GATES[i])
    ensures GatesEntered(h) == n + 1
  {
    assert GATES[0] == Bootstrap && GATES[1] == HostGate && GATES[2] == ImageGate && GATES[3] == SourceGate;
  }

  lemma GatesDone(h: Hooks)
    requires GatesPass(h)
    ensures GatesEntered(h) == |GATES|
  {
    assert GATES[0] == Bootstrap && GATES[1] == HostGate && GATES[2] == ImageGate && GATES[3] == SourceGate;
  }

  /** The report lists each product once, with the digest of its preparation. */
  ghost predicate ReportFits(h: Hooks) {
    && h.verify.Some?
    && (forall i, j | 0 <= i < j < |h.verify.value.0| :: h.verify.value.0[i].0 != h.verify.value.0[j].0)
    && (forall k, d :: (k, d) in h.verify.value.0 <==> d == DigestOf(h, PrepareIndex(k)))
  }

  /** Everything up to the verified report passes. */
  ghost predicate Verifies(h: Hooks, args: Args) {
    && WellFormed(args) && GatesPass(h) && Passed(h, CHILDREN)
    && h.manifests == Some((true, true)) && h.report && ReportFits(h)
  }

  /** The state of a run that has acquired and whose lease's calls are all granted. */
  ghost function Ending(h: Hooks, args: Args): RunState {
    if !WellFormed(args) then RunFailClosed
    else if GatesPass(h) && StopsInside(h) then RunFailClosed
    else if !Verifies(h, args) then RunRejected
    else if !h.stage then (if h.discard then RunRejected else RunFailClosed)
    else if !h.publish then RunFailClosed
    else if h.verify.value.1 then RunRegression
    else RunAccepted
  }

  /** The number of phases such a run has entered. */
  ghost function Entered(h: Hooks, args: Args): nat {
    if !WellFormed(args) then 2
    else if !GatesPass(h) then 2 + GatesEntered(h)
    else if !Passed(h, CHILDREN) then 8
    else if h.manifests != Some((true, true)) then 9
    else if !h.report then 10
    else if !ReportFits(h) then 11
    else if !h.stage then 12
    else if !h.publish then 14
    else 16
  }

  /** A run stopped before staging, with no child running. */
  lemma EndsEarly(h: Hooks, args: Args)
    requires WellFormed(args) && (GatesPass(h) ==> !StopsInside(h)) && !Verifies(h, args)
    ensures Ending(h, args) == RunRejected
  {
  }

  lemma EndsInside(h: Hooks, args: Args)
    requires WellFormed(args) && GatesPass(h) && StopsInside(h) && !Passed(h, CHILDREN)
    ensures Ending(h, args) == RunFailClosed && Entered(h, args) == 8
  {
  }

  lemma EndsVerified(h: Hooks, args: Args)
    requires Verifies(h, args)
    ensures Ending(h, args) == if !h.stage then (if h.discard then RunRejected else RunFailClosed)
                               else if !h.publish then RunFailClosed
                               else if h.verify.value.1 then RunRegression
                               else RunAccepted
    ensures Entered(h, args) == if !h.stage then 12 else if !h.publish then 14 else 16
  {
  }

  /** The calls of a successful `acquire`. */
  const ACQUISITION: seq<Asked> := [Asked(Probe, false), Yes(OpenLock), Yes(TakeLock), Asked(Recheck, false)]

  /** The set of the first `n` resources. */
  ghost function Taken(rs: seq<Resource>, n: nat): set<Resource>
    requires n <= |rs|
  {
    set i | 0 <= i < n :: rs[i]
  }

  /** The report's preparation manifests, refused when a product repeats. */
  method PreparationMap(rows: seq<(Product, Digest)>) returns (actual: Option<map<Product, Digest>>)
    ensures actual.Some? <==> forall i, j | 0 <= i < j < |rows| :: rows[i].0 != rows[j].0
    ensures actual.Some? ==> forall k, d :: (k in actual.value && actual.value[k] == d) <==> (k, d) in rows
  {
    var m: map<Product, Digest> := map[];
    for i := 0 to |rows|
      invariant forall j | 0 <= j < i :: rows[j].0 in m
      invariant forall k :: k in m ==> exists j :: 0 <= j < i && rows[j] == (k, m[k])
      invariant forall j, l | 0 <= j < l < i :: rows[j].0 != rows[l].0
    {
      if rows[i].0 in m { return None; }
      m := m[rows[i].0 := rows[i].1];
    }
    return Some(m);
  }

  // ----- the children -----

  function ResultOf(h: Hooks, i: nat): ChildResult {
    if h.execute(i).Some? then h.execute(i).value else ChildResult("", ChildOutcome(0, None, false, false, "", false), [])
  }

  /** The transcript of the first `n` children: their plans and what the hook returned for them. */
  function Transcript(h: Hooks, n: nat): (rs: seq<Record>)
    requires n <= CHILDREN
    ensures |rs| == n
  {
    if n == 0 then [] else Transcript(h, n - 1) + [Record(PlanAt(n - 1), ResultOf(h, n - 1))]
  }

  /** The IDs given to the first `n` children. */
  function Ids(h: Hooks, n: nat): set<string> {
    if n == 0 then {} else Ids(h, n - 1) + (if h.childId(n - 1).Some? then {h.childId(n - 1).value} else {})
  }

  /** The digests sealed by the first `n` children. */
  ghost predicate Sealed(h: Hooks, manifests: map<Product, Digest>, n: nat) {
    forall k: Product | PrepareIndex(k) < n :: k in manifests && manifests[k] == DigestOf(h, PrepareIndex(k))
  }

  lemma {:induction false} IdsHold(h: Hooks, n: nat, x: string)
    ensures x in Ids(h, n) <==> exists i :: 0 <= i < n && h.childId(i) == Some(x)
  {
    if n > 0 {
      IdsHold(h, n - 1, x);
      assert h.childId(n - 1) == Some(x) ==> exists i :: 0 <= i < n && h.childId(i) == Some(x);
    }
  }

  /** An ID is new to the schedule exactly when no earlier child had it. */
  lemma NewIdIff(h: Hooks, n: nat)
    ensures h.childId(n).Some? ==>
              (IsHex64(h.childId(n).value) && h.childId(n).value !in Ids(h, n) <==> Starts(h, n))
  {
    if h.childId(n).Some? { IdsHold(h, n, h.childId(n).value); }
  }

  /** The schedule's test of an outcome is that the child ends well. */
  lemma EndsIff(h: Hooks, manifests: map<Product, Digest>, n: nat, r: ChildResult)
    requires n < CHILDREN && Sealed(h, manifests, n)
    requires h.execute(n) == Some(r) && WellFormedResult(r) && h.childId(n) == Some(r.id)
    ensures
      var (p, k) := (PlanAt(n), KeyOf(PlanAt(n)));
      Ends(h, n) <==>
        Acceptable(p, r.outcome) && (p.phase != Prepare ==> k in manifests && manifests[k] == r.outcome.digest)
  {
    PreparedOnceAndFirst(n);
  }

  lemma SealedGrows(h: Hooks, manifests: map<Product, Digest>, sealed: map<Product, Digest>, n: nat)
    requires n < CHILDREN && Sealed(h, manifests, n)
    requires sealed == if PlanAt(n).phase == Prepare then manifests[KeyOf(PlanAt(n)) := DigestOf(h, n)] else manifests
    ensures Sealed(h, sealed, n + 1)
  {
    PreparedOnceAndFirst(n);
    forall k: Product | PrepareIndex(k) < n + 1
      ensures k in sealed && sealed[k] == DigestOf(h, PrepareIndex(k))
    {
      assert PrepareIndex(k) == n ==> KeyOf(PlanAt(n)) == k;
    }
  }

  /** One more child has passed. */
  lemma Advances(h: Hooks, manifests: map<Product, Digest>, sealed: map<Product, Digest>, n: nat, r: ChildResult)
    requires n < CHILDREN && Passed(h, n) && Starts(h, n) && Ends(h, n) && h.execute(n) == Some(r)
    requires Sealed(h, manifests, n)
    requires sealed == if PlanAt(n).phase == Prepare then manifests[KeyOf(PlanAt(n)) := r.outcome.digest] else manifests
    ensures Passed(h, n + 1) && Sealed(h, sealed, n + 1)
    ensures Transcript(h, n + 1) == Transcript(h, n) + [Record(PlanAt(n), r)]
  {
    SealedGrows(h, manifests, sealed, n);
  }

  /**
   In a run that gets past its children each one ran its plan under its own ID, ended well, and showed
   the digest that the preparation of its product showed.
   */
  lemma TranscriptIsGood(h: Hooks, rs: seq<Record>, i: nat)
    requires Passed(h, CHILDREN) && |rs| == CHILDREN && rs == Transcript(h, |rs|) && i < CHILDREN
    ensures
      var r := rs[i];
      && r.plan == PlanAt(i) && h.execute(i) == Some(r.result) && Acceptable(r.plan, r.result.outcome)
      && r.result.outcome.digest == rs[PrepareIndex(KeyOf(r.plan))].result.outcome.digest
      && forall j | 0 <= j < i :: rs[j].result.id != r.result.id
  {
    var k := PrepareIndex(KeyOf(PlanAt(i)));
    TranscriptAt(h, |rs|, i);
    TranscriptAt(h, |rs|, k);
    assert Starts(h, i) && Ends(h, i) && Ends(h, k);
    forall j | 0 <= j < i
      ensures rs[j].result.id != ResultOf(h, i).id
    {
      TranscriptAt(h, |rs|, j);
      assert Ends(h, j);
    }
  }

  lemma {:induction false} TranscriptAt(h: Hooks, n: nat, i: nat)
    requires i < n <= CHILDREN
    ensures Transcript(h, n)[i] == Record(PlanAt(i), ResultOf(h, i))
  {
    if i < n - 1 { TranscriptAt(h, n - 1, i); }
  }

  /** The report's dictionary equals the sealed one exactly when the report fits. */
  lemma FitsIff(h: Hooks, manifests: map<Product, Digest>, actual: Option<map<Product, Digest>>)
    requires Sealed(h, manifests, CHILDREN) && h.verify.Some?
    requires
      var rows := h.verify.value.0;
      && (actual.Some? <==> forall i, j | 0 <= i < j < |rows| :: rows[i].0 != rows[j].0)
      && (actual.Some? ==> forall k, d :: (k in actual.value && actual.value[k] == d) <==> (k, d) in rows)
    ensures actual.Some? && actual.value == manifests <==> ReportFits(h)
  {
    SameMap(h, manifests, actual, h.verify.value.0);
  }

  lemma SameMap(
      h: Hooks, manifests: map<Product, Digest>, actual: Option<map<Product, Digest>>, rows: seq<(Product, Digest)>)
    requires Sealed(h, manifests, CHILDREN)
    requires actual.Some? ==> forall k, d :: (k in actual.value && actual.value[k] == d) <==> (k, d) in rows
    ensures actual.Some? ==>
              (actual.value == manifests <==> forall k, d :: (k, d) in rows <==> d == DigestOf(h, PrepareIndex(k)))
  {
    if actual.Some? {
      if forall k, d :: (k, d) in rows <==> d == DigestOf(h, PrepareIndex(k)) {
        forall k: Product
          ensures k in actual.value && actual.value[k] == manifests[k]
        {
          assert (k, manifests[k]) in rows;
        }
        assert actual.value == manifests;
      }
      if actual.value == manifests {
        forall k: Product, d: Digest
          ensures (k, d) in rows <==> d == DigestOf(h, PrepareIndex(k))
        {
        }
      }
    }
  }

  /** One of the calls of `acquire` was not granted, and no other call was made. */
  predicate RefusedEarly(before: seq<Asked>, after: seq<Asked>) {
    before <= after && |after| <= |before| + 4 && !Smooth(before, after)
  }

  lemma RefusedIsNotAcquired(before: seq<Asked>, after: seq<Asked>)
    requires RefusedEarly(before, after)
    ensures !(before + ACQUISITION <= after)
  {
    forall i | 0 <= i < 4
      ensures Good(ACQUISITION[i])
    {
    }
    assert before + ACQUISITION <= after ==> after == before + ACQUISITION;
  }

  /** Two stretches of calls. */
  lemma SmoothTwice(a: seq<Asked>, b: seq<Asked>, c: seq<Asked>)
    requires a <= b <= c
    ensures Smooth(a, c) <==> Smooth(a, b) && Smooth(b, c)
  {
    assert forall i | 0 <= i < |b| :: b[i] == c[i];
  }

  class Run {
    const lease: ExclusiveRun
    const tx: CleanupTransaction
    const schedule: ScheduleState
    const hooks: Hooks
    var phases: seq<PhaseName>
    var acquired: bool
    var uncertain: bool
    var activeChild: bool
    var reservationAttempted: bool
    var stagingAttempted: bool
    var leaseReservation: bool
    var records: seq<Record>
    var log: seq<Mark>

    constructor (lease: ExclusiveRun, hooks: Hooks)
      requires lease.Coherent() && lease.At(Probe)
      ensures this.lease == lease && this.hooks == hooks && fresh(tx) && fresh(schedule)
      ensures Base() && tx.t == OPENED && schedule.cursor == 0 && schedule.active == None && !schedule.failed
      ensures phases == [] && records == [] && log == [] && schedule.seen == {}
      ensures !acquired && !uncertain && !activeChild && !reservationAttempted
      ensures !stagingAttempted && !leaseReservation
    {
      this.lease, this.hooks := lease, hooks;
      tx := new CleanupTransaction();
      schedule := new ScheduleState();
      phases, records, log := [], [], [];
      acquired, uncertain, activeChild := false, false, false;
      reservationAttempted, stagingAttempted, leaseReservation := false, false, false;
    }

    /** The three parts are in order, and the phases passed are those of a complete run so far. */
    ghost predicate Base()
      reads this, lease, lease.w, tx, schedule
    {
      && lease.Coherent() && Consistent(tx.t) && Live(tx.t) && schedule.Valid()
      && InOrder(phases)
    }

    /** The reservation is in place, nothing is in doubt, and the machine waits for the controller. */
    ghost predicate Certain()
      reads this, lease, lease.w, tx, schedule
    {
      && Base() && acquired && reservationAttempted && leaseReservation && !uncertain && !activeChild
      && lease.flags == FRESH.(locked := true, reserved := true) && lease.At(Working(false))
      && tx.t.resources == {} && Progress(tx.t) <= 2 && |phases| <= 12
    }

    /** The children behind the cursor passed, and the schedule and the records tell what the hooks did. */
    ghost predicate Tracked()
      reads this`records, schedule
    {
      && schedule.Valid() && !schedule.failed && Passed(hooks, schedule.cursor)
      && Sealed(hooks, schedule.manifests, schedule.cursor) && records == Transcript(hooks, schedule.cursor)
    }

    /** No child is active. */
    ghost predicate RecordsOk()
      reads this`records, schedule
    {
      Tracked() && schedule.active == None && schedule.seen == Ids(hooks, schedule.cursor)
    }

    method Enter(p: PhaseName)
      requires Base() && |phases| < 15 && p == PhaseAt(|phases|)
      modifies this`phases
      ensures Base() && |phases| == |old(phases)| + 1
    {
      phases := phases + [p];
    }

    // ----- the run -----

    /** Nothing has happened yet. */
    ghost predicate Untouched()
      reads this, lease, lease.w, tx, schedule
    {
      && Base() && tx.t == OPENED && phases == [] && log == [] && records == []
      && !acquired && !uncertain && !activeChild && !reservationAttempted && !leaseReservation && !stagingAttempted
    }

    /** The run is about to begin. */
    ghost predicate Ready()
      reads this, lease, lease.w, tx, schedule
    {
      Untouched() && lease.At(Probe) && lease.flags == FRESH && schedule.cursor == 0 && RecordsOk()
    }

    /** The lease could not be acquired. */
    ghost predicate NotAcquired()
      reads this, lease, lease.w, tx, schedule
    {
      && Base() && tx.t == OPENED && |phases| <= 1 && log == []
      && !acquired && !uncertain && !activeChild && !reservationAttempted && !leaseReservation && !stagingAttempted
      && lease.At(Refused)
    }

    /** The lease has raised after `acquire`; the run must not touch the reservation any more. */
    ghost predicate LeaseFailed()
      reads this, lease, lease.w, tx, schedule
    {
      && Base() && acquired && reservationAttempted && Doubt() && lease.Failed(false) && Progress(tx.t) <= 4
    }

    /** The controller's own judgement that an effect may be half done. */
    predicate Doubt()
      reads this
    {
      || uncertain || activeChild
      || UnlockPhase in phases || PublishPhase in phases || FinalizePhase in phases
      || (reservationAttempted && !leaseReservation)
    }

    method AcquireLease() returns (ok: bool)
      requires Untouched() && lease.At(Probe) && lease.flags == FRESH
      modifies this`phases, this`acquired, this`log, lease, lease.w
      ensures Base() && |phases| == 1
      ensures ok ==> acquired && log == [AcquireDone] && lease.flags == FRESH.(locked := true)
      ensures ok ==> if WellFormed(lease.args) then lease.At(MakeEntry(Creating)) else lease.Failed(false)
      ensures !ok ==> NotAcquired()
      ensures Went(old(lease.w.calls), lease.w.calls, ok)
      ensures ok ==> lease.w.calls == old(lease.w.calls) + ACQUISITION
      ensures |lease.w.calls| <= |old(lease.w.calls)| + 4
    {
      Enter(ExclusivePhase);
      ok := lease.Acquire();
      if !ok { return; }
      acquired := true;
      log := log + [AcquireDone];
    }

    method Reserve() returns (ok: bool)
      requires Base() && |phases| == 1 && tx.t == OPENED && acquired && !uncertain && !activeChild && !leaseReservation
      requires log == [AcquireDone] && lease.flags == FRESH.(locked := true)
      requires if WellFormed(lease.args) then lease.At(MakeEntry(Creating)) else lease.Failed(false)
      modifies this`phases, this`log, this`reservationAttempted, this`leaseReservation, lease, lease.w
      ensures ok ==> Certain() && |phases| == 2 && log == [AcquireDone, ReserveDone]
      ensures !ok ==> LeaseFailed() && PublishCalled !in log && |phases| == 2
      ensures ok ==> WellFormed(lease.args)
      ensures Went(old(lease.w.calls), lease.w.calls, ok || !WellFormed(lease.args))
    {
      Enter(ReservePhase);
      reservationAttempted := true;
      ok := lease.CreateReservation();
      if !ok { return; }
      log := log + [ReserveDone];
      leaseReservation := true;
    }

    method AcquireAndReserve() returns (ok: bool)
      requires Untouched() && lease.At(Probe) && lease.flags == FRESH
      modifies this`phases, this`acquired, this`log, this`reservationAttempted, this`leaseReservation, lease, lease.w
      ensures ok ==> Certain() && |phases| == 2 && log == [AcquireDone, ReserveDone]
      ensures !ok ==> NotAcquired() || (LeaseFailed() && PublishCalled !in log && |phases| == 2)
      ensures ok ==> WellFormed(lease.args) && Smooth(old(lease.w.calls), lease.w.calls)
      ensures !ok && acquired ==> (Smooth(old(lease.w.calls), lease.w.calls) <==> !WellFormed(lease.args))
      ensures !acquired ==> RefusedEarly(old(lease.w.calls), lease.w.calls)
      ensures acquired ==> old(lease.w.calls) + ACQUISITION <= lease.w.calls
      ensures stagingAttempted == old(stagingAttempted)
    {
      ok := AcquireLease();
      WentSmooth(old(lease.w.calls), lease.w.calls, ok);
      if ok { ok := Reserve(); }
    }

    method Gates() returns (ok: bool)
      requires Certain() && |phases| == 2
      modifies this`phases
      ensures Certain() && |phases| == 2 + GatesEntered(hooks) && (ok ==> |phases| == 7)
      ensures ok <==> GatesPass(hooks)
    {
      for i := 0 to |GATES|
        invariant Certain() && |phases| == 2 + i
        invariant forall j | 0 <= j < i :: hooks.gate(GATES[j])
      {
        Enter(GatePhase(GATES[i]));
        if !hooks.gate(GATES[i]) {
          GateStops(hooks, i);
          return false;
        }
      }
      GatesDone(hooks);
      return true;
    }

    /** Attaching and removing the resources of one child leaves the ledger as it was. */
    method AttachAll(rs: seq<Resource>)
      requires Consistent(tx.t) && Live(tx.t) && tx.t.resources == {} && !tx.t.staging
      requires forall i | 0 <= i < |rs| :: rs[i].token != ""
      modifies tx
      ensures Consistent(tx.t) && tx.t == old(tx.t).(resources := Taken(rs, |rs|))
    {
      for i := 0 to |rs|
        invariant Consistent(tx.t) && tx.t == old(tx.t).(resources := Taken(rs, i))
      {
        var ok := tx.Attach(rs[i]);
        assert Taken(rs, i + 1) == Taken(rs, i) + {rs[i]};
      }
    }

    method RemoveAll(rs: seq<Resource>)
      requires Consistent(tx.t) && Live(tx.t) && tx.t.resources == Taken(rs, |rs|)
      requires forall i, j | 0 <= i < j < |rs| :: rs[i] != rs[j]
      modifies tx
      ensures Consistent(tx.t) && tx.t == old(tx.t).(resources := {})
    {
      for i := 0 to |rs|
        invariant Consistent(tx.t)
        invariant tx.t == old(tx.t).(resources := Taken(rs, |rs|) - Taken(rs, i))
      {
        assert rs[i] in Taken(rs, |rs|) && rs[i] !in Taken(rs, i);
        assert Taken(rs, i + 1) == Taken(rs, i) + {rs[i]};
        var ok := tx.Remove(rs[i]);
      }
    }

    /** One child is active, and the lock and the reservation cover it. */
    ghost predicate Covered()
      reads this, lease, lease.w, tx, schedule
    {
      && Base() && acquired && reservationAttempted && leaseReservation && !uncertain && activeChild
      && lease.flags == FRESH.(locked := true, reserved := true) && lease.At(Working(true))
      && tx.t.lockHeld && |phases| <= 12
    }

    /** The active child is `plan` under a fresh ID. */
    ghost predicate Scheduled(plan: ChildPlan, id: string)
      reads this`records, schedule
    {
      && Tracked() && schedule.active == Some((plan, id)) && schedule.seen == Ids(hooks, schedule.cursor + 1)
      && Starts(hooks, schedule.cursor) && hooks.childId(schedule.cursor) == Some(id)
    }

    ghost predicate Active(plan: ChildPlan, id: string)
      reads this, lease, lease.w, tx, schedule
    {
      Covered() && tx.t.resources == {} && !tx.t.staging && Scheduled(plan, id)
    }

    /** The schedule's part of a start. */
    method ScheduleChild(plan: ChildPlan) returns (id: Option<string>)
      requires RecordsOk() && schedule.cursor < CHILDREN && plan == PlanAt(schedule.cursor)
      modifies schedule
      ensures schedule.Valid() && schedule.cursor == old(schedule.cursor)
      ensures id.Some? <==> Starts(hooks, schedule.cursor)
      ensures id.Some? ==> Scheduled(plan, id.value)
    {
      id := hooks.childId(schedule.cursor);
      if id.None? { return; }
      NewIdIff(hooks, schedule.cursor);
      var ok := schedule.Start(plan, id.value);
      if !ok { return None; }
    }

    method BeginChild(plan: ChildPlan) returns (id: Option<string>)
      requires Certain() && RecordsOk() && Progress(tx.t) == 0
      requires schedule.cursor < CHILDREN && plan == PlanAt(schedule.cursor)
      modifies this`activeChild, lease.w`s, schedule
      ensures id.Some? ==> Active(plan, id.value) && schedule.cursor == old(schedule.cursor)
      ensures id.None? ==> Certain()
      ensures id.Some? <==> Starts(hooks, old(schedule.cursor))
    {
      id := ScheduleChild(plan);
      if id.None? { return; }
      activeChild := true;
      lease.w.Decide(StartChild);
    }

    /** The schedule's part of an end. */
    method ConcludeChild(plan: ChildPlan, result: ChildResult) returns (ok: bool)
      requires Scheduled(plan, result.id) && WellFormedResult(result)
      requires hooks.execute(schedule.cursor) == Some(result)
      modifies schedule
      ensures schedule.Valid() && (ok <==> Ends(hooks, old(schedule.cursor)))
      ensures ok ==> Unrecorded(plan, result) && schedule.cursor == old(schedule.cursor) + 1
    {
      EndsIff(hooks, schedule.manifests, schedule.cursor, result);
      ghost var n := schedule.cursor;
      ok := schedule.Finish(result.outcome);
      if ok { Advances(hooks, old(schedule.manifests), schedule.manifests, n, result); }
    }

    /** The last child has ended and is yet to be recorded. */
    ghost predicate Unrecorded(plan: ChildPlan, result: ChildResult)
      reads this`records, schedule
    {
      && schedule.Valid() && !schedule.failed && Passed(hooks, schedule.cursor) && schedule.active == None
      && Sealed(hooks, schedule.manifests, schedule.cursor) && schedule.seen == Ids(hooks, schedule.cursor)
      && records + [Record(plan, result)] == Transcript(hooks, schedule.cursor)
    }

    /** The child's resources are held until the schedule has taken its outcome; then it is recorded. */
    method FinishChild(plan: ChildPlan, result: ChildResult) returns (ok: bool)
      requires Active(plan, result.id) && WellFormedResult(result) && hooks.execute(schedule.cursor) == Some(result)
      modifies this`records, tx, schedule
      ensures Covered() && (ok <==> Ends(hooks, old(schedule.cursor)))
      ensures ok ==> tx.t == old(tx.t) && schedule.cursor == old(schedule.cursor) + 1 && RecordsOk()
    {
      AttachAll(result.resources);
      ok := ConcludeChild(plan, result);
      if !ok { return; }
      RemoveAll(result.resources);
      records := records + [Record(plan, result)];
    }

    method CompleteChild(plan: ChildPlan, result: ChildResult) returns (ok: bool)
      requires Active(plan, result.id) && WellFormedResult(result) && hooks.execute(schedule.cursor) == Some(result)
      modifies this`activeChild, this`records, lease.w`s, tx, schedule
      ensures ok <==> Ends(hooks, old(schedule.cursor))
      ensures ok ==> Certain() && RecordsOk() && tx.t == old(tx.t) && schedule.cursor == old(schedule.cursor) + 1
      ensures !ok ==> Covered()
    {
      ok := FinishChild(plan, result);
      if !ok { return; }
      activeChild := false;
      lease.w.Decide(EndChild);
    }

    method RunChild(plan: ChildPlan) returns (ok: bool)
      requires Certain() && RecordsOk() && Progress(tx.t) == 0
      requires schedule.cursor < CHILDREN && plan == PlanAt(schedule.cursor)
      modifies this`activeChild, this`records, lease.w`s, tx, schedule
      ensures ok ==> Certain() && RecordsOk() && tx.t == old(tx.t) && schedule.cursor == old(schedule.cursor) + 1
      ensures ok <==> Starts(hooks, old(schedule.cursor)) && Ends(hooks, old(schedule.cursor))
      ensures !ok ==> if Starts(hooks, old(schedule.cursor)) then Covered() else Certain()
    {
      var id := BeginChild(plan);
      if id.None? { return false; }
      var result := hooks.execute(schedule.cursor);
      if result.None? || !WellFormedResult(result.value) || result.value.id != id.value { return false; }
      ok := CompleteChild(plan, result.value);
    }

    method Children() returns (ok: bool)
      requires Certain() && RecordsOk() && Progress(tx.t) == 0 && |phases| == 7 && schedule.cursor == 0
      modifies this`phases, this`activeChild, this`records, lease.w`s, tx, schedule
      ensures |phases| == 8 && (ok <==> Passed(hooks, CHILDREN))
      ensures ok ==> Certain() && RecordsOk() && tx.t == old(tx.t) && schedule.cursor == CHILDREN
      ensures !ok ==> if StopsInside(hooks) then Covered() else Certain()
    {
      Enter(SchedulePhase);
      for i := 0 to CHILDREN
        invariant Certain() && RecordsOk() && tx.t == old(tx.t) && schedule.cursor == i && |phases| == 8
      {
        ok := RunChild(schedule.plans[i]);
        if !ok {
          StopIs(hooks, i);
          return;
        }
      }
      ok := schedule.FinishAll();
    }

    method CheckManifests() returns (ok: bool)
      requires Certain() && RecordsOk() && tx.t == OPENED && |phases| == 8
      modifies this`phases, tx
      ensures Certain() && RecordsOk() && Progress(tx.t) == 0 && |phases| == 9
      ensures ok ==> tx.t == OPENED
      ensures ok <==> hooks.manifests == Some((true, true))
    {
      Enter(ManifestsPhase);
      if hooks.manifests.None? { return false; }
      var (source, cache) := hooks.manifests.value;
      ok := tx.SetManifestState(source, cache);
      ok := ok && source && cache;
    }

    /** Report and verification; an accepted report shows exactly the sealed digests. */
    method ReportAndVerify() returns (ok: bool)
      requires Certain() && RecordsOk() && |phases| == 9 && schedule.cursor == CHILDREN
      modifies this`phases
      ensures Certain() && RecordsOk() && |phases| == if hooks.report then 11 else 10
      ensures ok <==> hooks.report && ReportFits(hooks)
    {
      Enter(ReportPhase);
      if !hooks.report { return false; }
      Enter(VerifyPhase);
      if hooks.verify.None? { return false; }
      var actual := PreparationMap(hooks.verify.value.0);
      FitsIff(hooks, schedule.manifests, actual);
      ok := actual.Some? && actual.value == schedule.manifests;
    }

    method StageReport() returns (ok: bool)
      requires Certain() && tx.t == OPENED && |phases| == 11 && log == [AcquireDone, ReserveDone]
      modifies this`phases, this`stagingAttempted, this`log, tx
      ensures Certain() && |phases| == 12 && PublishCalled !in log
      ensures ok ==> tx.t == STAGED && log == [AcquireDone, ReserveDone, StageDone]
      ensures stagingAttempted && (ok <==> hooks.stage)
    {
      Enter(StagePhase);
      ok := tx.StageReport();
      stagingAttempted := true;
      if !hooks.stage { return false; }
      log := log + [StageDone];
      ok := tx.CreateReservation();
    }

    method Unlock() returns (ok: bool)
      requires Certain() && tx.t == STAGED && |phases| == 12 && log == [AcquireDone, ReserveDone, StageDone]
      modifies this`phases, this`log, lease, lease.w, tx
      ensures ok ==> Publication() && |phases| == 13 && tx.t == UNLOCKED
      ensures ok ==> log == [AcquireDone, ReserveDone, StageDone, UnlockDone]
      ensures !ok ==> LeaseFailed() && log == old(log)
      ensures Went(old(lease.w.calls), lease.w.calls, ok)
    {
      Enter(UnlockPhase);
      assert UnlockPhase in phases by { assert phases[12] == UnlockPhase; }
      ok := lease.ReleaseLockForPublication();
      if !ok { return; }
      log := log + [UnlockDone];
      ok := tx.ReleaseLock();
    }

    /** The lock is released and the durable reservation covers the publication. */
    ghost predicate Publication()
      reads this, lease, lease.w, tx, schedule
    {
      && Base() && acquired && reservationAttempted && !activeChild
      && lease.flags == FRESH.(reserved := true) && lease.At(Publishing) && Progress(tx.t) <= 4
    }

    method Publish() returns (ok: bool)
      requires Publication() && |phases| == 13 && tx.t == UNLOCKED
      requires log == [AcquireDone, ReserveDone, StageDone, UnlockDone]
      modifies this`phases, this`uncertain, this`log, tx
      ensures Publication() && uncertain && |phases| == 14
      ensures ok ==> tx.t == UNLOCKED.(staging := false, output := true)
      ensures ok ==> log == [AcquireDone, ReserveDone, StageDone, UnlockDone, PublishCalled]
      ensures ok <==> hooks.publish
    {
      Enter(PublishPhase);
      uncertain := true;
      log := log + [PublishCalled];
      if !hooks.publish { return false; }
      ok := tx.PublishOutput();
    }

    method Finalize() returns (ok: bool)
      requires Publication() && uncertain && |phases| == 14 && tx.t == UNLOCKED.(staging := false, output := true)
      requires log == [AcquireDone, ReserveDone, StageDone, UnlockDone, PublishCalled]
      modifies this`phases, this`log, this`leaseReservation, lease, lease.w
      ensures ok ==> lease.Coherent() && lease.w.Self().pc == Accepted && log == COMPLETE
      ensures ok ==> InOrder(phases) && |phases| == 15
      ensures !ok ==> LeaseFailed()
      ensures Went(old(lease.w.calls), lease.w.calls, ok)
    {
      ok := lease.MarkPublished();
      Enter(FinalizePhase);
      ok := lease.FinalizePublication();
      if !ok { return; }
      log := log + [RemoveDone];
      leaseReservation := false;
    }

    /** After the reservation is gone the transaction always accepts. */
    method Settle() returns (ok: bool, result: CleanupResult)
      requires Consistent(tx.t) && tx.t == UNLOCKED.(staging := false, output := true)
      modifies tx
      ensures ok && result == CleanupResult(true, false, false, true, false)
    {
      ok := tx.RemoveReservation();
      ok, result := tx.Accept();
    }

    /** Where a run that raised may stand. */
    ghost predicate Stopped()
      reads this, lease, lease.w, tx, schedule
    {
      && (NotAcquired() || Certain() || Covered() || LeaseFailed() || (Publication() && uncertain))
      && (PublishCalled in log ==> uncertain)
    }

    /** Why a run that raised will end as it will: from the answers to its calls and hooks alone. */
    ghost predicate Explained(before: seq<Asked>)
      reads this, lease, lease.w
    {
      if !acquired then RefusedEarly(before, lease.w.calls)
      else
        && before + ACQUISITION <= lease.w.calls
        && if Smooth(before, lease.w.calls) then
             && Ending(hooks, lease.args) ==
                (if Doubt() || (stagingAttempted && !hooks.discard) then RunFailClosed else RunRejected)
             && |phases| == Entered(hooks, lease.args)
           else Doubt()
    }

    /** A stop before staging with nothing in doubt. */
    lemma SureStop(before: seq<Asked>)
      requires Certain() && !stagingAttempted && |phases| <= 11 && !Verifies(hooks, lease.args)
      requires WellFormed(lease.args) && (GatesPass(hooks) ==> !StopsInside(hooks))
      requires before + ACQUISITION <= lease.w.calls && Smooth(before, lease.w.calls)
      requires |phases| == Entered(hooks, lease.args)
      ensures Explained(before)
    {
      NoDoubt();
      EndsEarly(hooks, lease.args);
    }

    lemma NoDoubt()
      requires Certain()
      ensures !Doubt()
    {
    }

    /** Gates, children, manifests, report and verification. */
    method Measure() returns (ok: bool)
      requires Certain() && tx.t == OPENED && |phases| == 2 && schedule.cursor == 0 && RecordsOk() && !stagingAttempted
      requires WellFormed(lease.args)
      modifies this`phases, this`activeChild, this`records, lease.w`s, tx, schedule
      ensures ok ==> Certain() && RecordsOk() && schedule.cursor == CHILDREN && tx.t == OPENED && |phases| == 11
      ensures ok <==> Verifies(hooks, lease.args)
      ensures !ok ==> |phases| == Entered(hooks, lease.args) <= 11
      ensures !ok ==> if GatesPass(hooks) && StopsInside(hooks) then Covered() else Certain()
    {
      ok := Gates();
      if !ok { return; }
      ok := Children();
      if !ok { return; }
      ok := CheckManifests();
      if !ok { return; }
      ok := ReportAndVerify();
    }

    /** The part of the run before publication. */
    method Prepare() returns (ok: bool)
      requires Ready()
      modifies this, lease, lease.w, tx, schedule
      ensures !ok ==> Stopped() && PublishCalled !in log && Explained(old(lease.w.calls))
      ensures ok ==> Certain() && tx.t == OPENED && |phases| == 11
      ensures ok ==> |records| == CHILDREN && records == Transcript(hooks, |records|)
      ensures ok ==> log == [AcquireDone, ReserveDone] && Verifies(hooks, lease.args) && !stagingAttempted
      ensures ok ==> Smooth(old(lease.w.calls), lease.w.calls) && old(lease.w.calls) + ACQUISITION <= lease.w.calls
    {
      ok := AcquireAndReserve();
      if !ok { return; }
      ok := Measure();
      if !ok && !activeChild { SureStop(old(lease.w.calls)); }
    }

    /** The transaction's part of a failure. */
    method AbortTransaction(doubt: bool) returns (cleanup: CleanupResult)
      requires Consistent(tx.t) && Live(tx.t) && Progress(tx.t) <= 4
      requires !doubt ==> tx.t.resources == {}
      modifies tx
      ensures cleanup == if doubt then CleanupResult(false, true, old(tx.t).staging, old(tx.t).output, true)
                         else CleanupResult(false, false, false, false, false)
    {
      var ok;
      ok, cleanup := tx.Abort(!doubt, !doubt);
    }

    /** The lease stands where `abort` may begin. */
    ghost predicate LeaseReady(doubt: bool)
      reads this, lease, lease.w
    {
      && lease.Coherent()
      && (|| (lease.At(Working(false)) && lease.flags == FRESH.(locked := true, reserved := true))
          || (doubt && (lease.At(Working(true)) || lease.Failed(false) || lease.At(Publishing))))
    }

    /** The lease's part of a failure: the reservation is removed only when nothing is in doubt. */
    method AbortLease(doubt: bool) returns (ok: bool)
      requires LeaseReady(doubt)
      modifies lease, lease.w
      ensures lease.Coherent()
      ensures lease.w.Self().pc == if ok && !doubt then Rejected else FailClosed
      ensures old(lease.w.calls) <= lease.w.calls && (!doubt ==> Went(old(lease.w.calls), lease.w.calls, ok))
    {
      lease.EnterFailure(!doubt);
      ok := lease.Abort(!doubt);
    }

    /** A stopped run is in doubt unless it never acquired, or its reservation is in place and idle. */
    lemma DoubtUnlessCertain()
      requires Stopped()
      ensures !Doubt() ==> NotAcquired() || Certain()
      ensures NotAcquired() ==> !Doubt()
      ensures acquired ==> LeaseReady(Doubt())
    {
      if NotAcquired() {
        assert forall i | 0 <= i < |phases| :: phases[i] == ExclusivePhase;
      }
    }

    /** The failure path of the controller, ending in the lease's `abort`. */
    method Failure() returns (result: ControllerResult)
      requires Stopped()
      modifies lease, lease.w, tx
      ensures lease.Coherent() && InOrder(result.phases)
      ensures result.state == RunRejected ==> lease.w.Self().pc in {Refused, Rejected} && !uncertain
      ensures result.state == RunFailClosed ==> lease.w.Self().pc == FailClosed
      ensures result.state in {RunRejected, RunFailClosed}
      ensures result.state == RunRejected ==> result.cleanup == CleanupResult(false, false, false, false, false)
      ensures result.state == RunFailClosed ==>
                !result.cleanup.accepted && result.cleanup.failClosed && result.cleanup.reservationPresent
      ensures result.phases == phases && old(lease.w.calls) <= lease.w.calls
      ensures !acquired ==> result.state == RunRejected && lease.w.calls == old(lease.w.calls)
      ensures acquired && (Doubt() || (stagingAttempted && !hooks.discard)) ==> result.state == RunFailClosed
      ensures acquired && !Doubt() && (stagingAttempted ==> hooks.discard) ==>
                Went(old(lease.w.calls), lease.w.calls, result.state == RunRejected)
    {
      // The fallback reservation of the source cannot be reached: an acquired run has attempted its own.
      assert acquired ==> reservationAttempted;
      DoubtUnlessCertain();
      var doubt := Doubt();
      if stagingAttempted && !hooks.discard { doubt := true; }
      var failClosed := doubt;
      assert acquired ==> LeaseReady(doubt);
      var cleanup := AbortTransaction(doubt);
      failClosed := failClosed || cleanup.failClosed;
      if acquired {
        var ok := AbortLease(doubt);
        if !ok {
          cleanup := CleanupResult(false, true, cleanup.stagingPresent, cleanup.outputPresent, true);
          failClosed := true;
        }
      }
      result := ControllerResult(if failClosed then RunFailClosed else RunRejected, phases, cleanup);
    }

    /** What an accepted or regression result tells. */
    predicate Completed(result: ControllerResult)
      reads this`log
    {
      && log == COMPLETE && result.cleanup == CleanupResult(true, false, false, true, false)
      && |result.phases| == 16 && InOrder(result.phases[..15])
      && result.phases[15] == EndPhase(result.state == RunRegression)
    }

    /** The removal of the reservation, the accepted transaction and the result. */
    method Conclude(regression: bool) returns (ok: bool, result: ControllerResult)
      requires Publication() && uncertain && |phases| == 14 && tx.t == UNLOCKED.(staging := false, output := true)
      requires log == [AcquireDone, ReserveDone, StageDone, UnlockDone, PublishCalled]
      modifies this`phases, this`log, this`leaseReservation, lease, lease.w, tx
      ensures !ok ==> LeaseFailed()
      ensures Went(old(lease.w.calls), lease.w.calls, ok)
      ensures ok ==> lease.Coherent() && lease.w.Self().pc == Accepted && Completed(result)
      ensures ok ==> result.state == if regression then RunRegression else RunAccepted
    {
      result := ControllerResult(RunRejected, phases, Result(tx.t));
      ok := Finalize();
      if !ok { return; }
      var settled, cleanup := Settle();
      result := ControllerResult(if regression then RunRegression else RunAccepted,
                                 phases + [EndPhase(regression)], cleanup);
      assert result.phases[..15] == phases;
    }

    /** Publication under the reservation alone, and what follows it. */
    method PublishAndConclude(regression: bool) returns (ok: bool, result: ControllerResult)
      requires Publication() && |phases| == 13 && tx.t == UNLOCKED
      requires log == [AcquireDone, ReserveDone, StageDone, UnlockDone]
      modifies this`phases, this`uncertain, this`log, this`leaseReservation, lease, lease.w, tx
      ensures old(lease.w.calls) <= lease.w.calls
      ensures !ok ==> Doubt() && uncertain && (LeaseFailed() || Publication())
      ensures ok ==> Went(old(lease.w.calls), lease.w.calls, true) && hooks.publish
      ensures !ok && hooks.publish ==> Went(old(lease.w.calls), lease.w.calls, false)
      ensures !hooks.publish ==> lease.w.calls == old(lease.w.calls) && |phases| == 14
      ensures ok ==> lease.Coherent() && lease.w.Self().pc == Accepted && Completed(result)
      ensures ok ==> result.state == if regression then RunRegression else RunAccepted
    {
      result := ControllerResult(RunRejected, phases, Result(tx.t));
      ok := Publish();
      if !ok { return; }
      ok, result := Conclude(regression);
    }

    /** Publication, from staging to the accepted transaction. */
    method StageAndPublish(regression: bool) returns (ok: bool, result: ControllerResult)
      requires Certain() && tx.t == OPENED && |phases| == 11 && log == [AcquireDone, ReserveDone]
      modifies this`phases, this`stagingAttempted, this`uncertain, this`log, this`leaseReservation, lease, lease.w, tx
      ensures !ok ==> Stopped() && stagingAttempted
      ensures old(lease.w.calls) <= lease.w.calls
      ensures ok ==> Smooth(old(lease.w.calls), lease.w.calls) && hooks.stage && hooks.publish
      ensures !ok && Smooth(old(lease.w.calls), lease.w.calls) ==>
                if !hooks.stage then !Doubt() && |phases| == 12 else !hooks.publish && Doubt() && |phases| == 14
      ensures !Smooth(old(lease.w.calls), lease.w.calls) ==> Doubt()
      ensures ok ==> lease.Coherent() && lease.w.Self().pc == Accepted && Completed(result)
      ensures ok ==> result.state == if regression then RunRegression else RunAccepted
    {
      result := ControllerResult(RunRejected, phases, Result(tx.t));
      ok := StageReport();
      if !ok {
        NoDoubt();
        return;
      }
      ok := Unlock();
      if !ok { return; }
      ok, result := PublishAndConclude(regression);
      WentSmooth(old(lease.w.calls), old(lease.w.calls), true);
    }

    predicate Unguarded()
      reads lease.w
    {
      var (me, host) := (lease.w.me, lease.w.s.host);
      host.lock != By(me) && host.entry != By(me) && host.disk != By(me)
    }

    predicate Guarded()
      reads lease.w
    {
      lease.w.s.host.lock == By(lease.w.me) || Durable(lease.w.s.host, lease.w.me)
    }

    /** A stop from staging on. */
    lemma StagedStop(before: seq<Asked>, prepared: seq<Asked>)
      requires acquired && stagingAttempted && Verifies(hooks, lease.args)
      requires Smooth(before, prepared) && before + ACQUISITION <= prepared <= lease.w.calls
      requires Smooth(prepared, lease.w.calls) ==>
                 if !hooks.stage then !Doubt() && |phases| == 12 else !hooks.publish && Doubt() && |phases| == 14
      requires !Smooth(prepared, lease.w.calls) ==> Doubt()
      ensures Explained(before)
    {
      SmoothTwice(before, prepared, lease.w.calls);
      EndsVerified(hooks, lease.args);
    }

    /** The run has published, as the answers to its calls and hooks say. */
    ghost predicate Published(before: seq<Asked>, result: ControllerResult)
      reads this, lease, lease.w
    {
      && lease.Coherent() && lease.w.Self().pc == Accepted && Completed(result) && acquired
      && result.state in {RunAccepted, RunRegression} && result.state == Ending(hooks, lease.args)
      && |result.phases| == Entered(hooks, lease.args)
      && Smooth(before, lease.w.calls) && before + ACQUISITION <= lease.w.calls
    }

    /** Publication of a verified report, with the verdict it was verified with. */
    method PublishVerified(ghost before: seq<Asked>) returns (ok: bool, result: ControllerResult)
      requires Certain() && tx.t == OPENED && |phases| == 11 && log == [AcquireDone, ReserveDone]
      requires Verifies(hooks, lease.args)
      requires Smooth(before, lease.w.calls) && before + ACQUISITION <= lease.w.calls
      modifies this`phases, this`stagingAttempted, this`uncertain, this`log, this`leaseReservation, lease, lease.w, tx
      ensures if ok then Published(before, result) else Stopped() && Explained(before)
    {
      ghost var prepared := lease.w.calls;
      ok, result := StageAndPublish(hooks.verify.value.1);
      SmoothTwice(before, prepared, lease.w.calls);
      EndsVerified(hooks, lease.args);
      if !ok { StagedStop(before, prepared); }
    }

    method Attempt() returns (ok: bool, result: ControllerResult)
      requires Ready()
      modifies this, lease, lease.w, tx, schedule
      ensures if ok then Published(old(lease.w.calls), result) else Stopped() && Explained(old(lease.w.calls))
      ensures ok ==> |records| == CHILDREN && records == Transcript(hooks, |records|)
    {
      ok := Prepare();
      result := ControllerResult(RunRejected, phases, Result(tx.t));
      if ok { ok, result := PublishVerified(old(lease.w.calls)); }
    }

    /** At any later moment the guards are those of the program point the lease ended in. */
    method Later()
      requires lease.Coherent()
      modifies lease.w`s
      ensures lease.w.Valid()
      ensures Returned(old(lease.w.Self()).pc) ==> Unguarded()
      ensures old(lease.w.Self()).pc == FailClosed && WellFormed(lease.args) ==> Guarded()
    {
      lease.w.Interfere();
      assert Holds(lease.w.s, lease.w.me);
    }

    /**
     One run, whatever the hooks and the other processes do, and whatever the system calls answer
     as long as no probe under the lock misses a standing reservation. How it ends is told by the
     answers alone: refused by its acquire it is rejected; with any later call refused it fails
     closed; with all calls granted it ends as the hooks say, published as a regression exactly when
     the verified verdict is one. Accepted or regression: all phases and all outside effects happened
     once and in order, every fixed child ran its plan with its sealed digest, and neither guard is
     left. Rejected: publication was never called and neither guard is left. Fail-closed with
     well-formed reservation arguments: the lock is held or the reservation is on disk. The guards
     are as told at any later moment of the process.
     */
    method Execute() returns (result: ControllerResult)
      requires Ready()
      modifies this, lease, lease.w, tx, schedule
      ensures lease.w.Valid()
      ensures acquired <==> old(lease.w.calls) + ACQUISITION <= lease.w.calls
      ensures result.state == if !acquired then RunRejected
                              else if !Smooth(old(lease.w.calls), lease.w.calls) then RunFailClosed
                              else Ending(hooks, lease.args)
      ensures acquired && Smooth(old(lease.w.calls), lease.w.calls) ==> |result.phases| == Entered(hooks, lease.args)
      ensures result.state in {RunAccepted, RunRegression} ==> Completed(result) && Unguarded()
      ensures result.state in {RunAccepted, RunRegression} ==> |records| == CHILDREN && records == Transcript(hooks, |records|)
      ensures result.state == RunRejected ==> PublishCalled !in log && Unguarded()
      ensures result.state == RunRejected ==> result.cleanup == CleanupResult(false, false, false, false, false)
      ensures result.state == RunFailClosed ==> WellFormed(lease.args) ==> Guarded()
      ensures result.state == RunFailClosed ==>
                !result.cleanup.accepted && result.cleanup.failClosed && result.cleanup.reservationPresent
      ensures result.state in {RunRejected, RunFailClosed} ==> InOrder(result.phases)
    {
      var ok;
      ok, result := Attempt();
      ghost var attempted := lease.w.calls;
      if !ok {
        result := Failure();
        SmoothTwice(old(lease.w.calls), attempted, lease.w.calls);
        if !acquired { RefusedIsNotAcquired(old(lease.w.calls), lease.w.calls); }
      }
      Later();
    }
  }
}
