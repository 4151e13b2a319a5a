/**
 Safety of the exclusive-run protocol over whole runs: exclusion between leases, between
 children, the life of an abandoned reservation, and what every finished run leaves behind.
 */
module Exclusion {
  import opened Common
  import opened Reservation
  import opened Protocol

  // ----- runs -----

  lemma {:induction false} RunKeepsInv(ss: seq<State>, es: seq<Event>, i: nat)
    requires IsRun(ss, es) && i < |ss| && HonestUntil(ss, es, i)
    ensures Inv(ss[i])
  {
    if i > 0 {
      RunKeepsInv(ss, es, i - 1);
      StepKeepsInv(ss[i - 1], es[i - 1]);
    }
  }

  lemma RunStep(ss: seq<State>, es: seq<Event>, i: nat)
    requires IsRun(ss, es) && i < |es| && HonestUntil(ss, es, i + 1)
    ensures Inv(ss[i]) && Honest(ss[i], es[i]) && ss[i + 1] == Apply(ss[i], es[i]) && Inv(ss[i + 1])
  {
    RunKeepsInv(ss, es, i);
    RunKeepsInv(ss, es, i + 1);
  }

  /** The event at `i` completes the `acquire` of `p`. */
  predicate AcquiresAt(ss: seq<State>, i: nat, p: Pid)
    requires i + 1 < |ss|
  {
    p in ss[i].procs && p in ss[i + 1].procs &&
    ss[i].procs[p].pc == Recheck && !Outside(ss[i + 1].procs[p].pc) && ss[i + 1].procs[p].pc != Dead
  }

  /** A lease that has acquired never stands before `acquire` again. */
  lemma {:induction false} StaysInside(ss: seq<State>, es: seq<Event>, i: nat, j: nat, p: Pid)
    requires IsRun(ss, es) && i <= j < |ss|
    requires p in ss[i].procs && !Outside(ss[i].procs[p].pc)
    ensures p in ss[j].procs && !Outside(ss[j].procs[p].pc)
    decreases j
  {
    if i < j {
      StaysInside(ss, es, i, j - 1, p);
      StepStaysInside(ss[j - 1], es[j - 1], p);
    }
  }

  lemma StepStaysInside(s: State, e: Event, p: Pid)
    requires p in s.procs && !Outside(s.procs[p].pc)
    ensures p in Apply(s, e).procs && !Outside(Apply(s, e).procs[p].pc)
  {
    var r := s.procs[p];
    if e.Call? && e.pid == p {
      AfterCallStaysInside(r, Answer(s.host, p, r.pc, e.reply), e.reply.more);
    }
  }

  lemma AfterCallStaysInside(r: Proc, answer: bool, more: bool)
    requires !Outside(r.pc)
    ensures !Outside(AfterCall(r, answer, more).pc)
  {
  }

  // ----- exclusion between leases -----

  /** A lease is in force while it runs after `acquire`, holds the lock, or its reservation stands. */
  predicate InForce(s: State, p: Pid) {
    p in s.procs &&
    (|| (!Outside(s.procs[p].pc) && !Ended(s.procs[p].pc))
     || (!Outside(s.procs[p].pc) && s.host.lock == By(p))
     || s.host.entry == By(p))
  }

  ghost predicate AtMostOneInForce(s: State) {
    forall p, q :: InForce(s, p) && InForce(s, q) ==> p == q
  }

  /** A lease in force is covered by its own reservation, or by the lock with no reservation standing. */
  lemma Guarded(s: State, p: Pid)
    requires Inv(s) && InForce(s, p)
    ensures s.host.entry == By(p) || (s.host.entry == Nobody && s.host.lock == By(p))
  {
    assert Holds(s, p);
  }

  lemma InvMeansOneInForce(s: State)
    requires Inv(s)
    ensures AtMostOneInForce(s)
  {
    forall p, q | InForce(s, p) && InForce(s, q)
      ensures p == q
    {
      Guarded(s, p);
      Guarded(s, q);
    }
  }

  /** The step that admits `q` finds a `p` that has been inside over and unguarded. */
  lemma SecondAcquire(s: State, e: Event, p: Pid, q: Pid)
    requires Inv(s) && Honest(s, e) && Inv(Apply(s, e)) && p != q
    requires p in s.procs && !Outside(s.procs[p].pc) && q in s.procs && s.procs[q].pc == Recheck
    requires q in Apply(s, e).procs && !Outside(Apply(s, e).procs[q].pc) && Apply(s, e).procs[q].pc != Dead
    ensures Ended(s.procs[p].pc) && s.host.lock != By(p) && s.host.entry == Nobody
    ensures !InForce(s, p) && !InForce(Apply(s, e), p)
  {
    AcquireSeesNoGuard(s, e, q);
    assert !InForce(s, p);
    InvMeansOneInForce(Apply(s, e));
  }

  /**
   Between two successful acquires the first lease has ended and left neither guard: when the
   second one acquires, the first holds no lock, has no reservation, and has returned,
   failed, or died.
   */
  lemma AcquireExclusion(ss: seq<State>, es: seq<Event>, i: nat, j: nat, p: Pid, q: Pid)
    requires IsRun(ss, es) && i < j && j + 1 < |ss| && p != q && HonestUntil(ss, es, j + 1)
    requires AcquiresAt(ss, i, p) && AcquiresAt(ss, j, q)
    ensures p in ss[j].procs && Ended(ss[j].procs[p].pc)
    ensures ss[j].host.lock != By(p) && ss[j].host.entry == Nobody
    ensures !InForce(ss[j], p) && !InForce(ss[j + 1], p)
  {
    StaysInside(ss, es, i + 1, j, p);
    RunStep(ss, es, j);
    SecondAcquire(ss[j], es[j], p, q);
  }

  /** A probe under the lock admits a lease only while no reservation stands, and puts it in force. */
  lemma AcquireSeesNoGuard(s: State, e: Event, q: Pid)
    requires Inv(s) && Honest(s, e) && q in s.procs && s.procs[q].pc == Recheck
    requires q in Apply(s, e).procs
    requires !Outside(Apply(s, e).procs[q].pc) && Apply(s, e).procs[q].pc != Dead
    ensures s.host.entry == Nobody && s.host.lock == By(q)
    ensures forall p | InForce(s, p) :: p == q
    ensures InForce(Apply(s, e), q)
  {
    assert Holds(s, q);
    assert e.Call? && e.pid == q;
    forall p | InForce(s, p)
      ensures p == q
    {
      Guarded(s, p);
    }
  }

  /** A probe under the lock that misses a standing reservation puts a second lease in force. */
  lemma MissedReservationBreaksExclusion(s: State, e: Event)
    requires Inv(s) && !Honest(s, e)
    ensures !AtMostOneInForce(Apply(s, e))
  {
    assert Holds(s, e.pid);
    var (p, q) := (e.pid, s.host.entry.pid);
    assert p != q && Apply(s, e).host == s.host;
    assert InForce(Apply(s, e), p) && InForce(Apply(s, e), q);
  }

  lemma {:induction false} FirstMiss(ss: seq<State>, es: seq<Event>, n: nat) returns (k: nat)
    requires n <= |es| < |ss| && !HonestUntil(ss, es, n)
    ensures k < n && HonestUntil(ss, es, k) && !Honest(ss[k], es[k])
  {
    if HonestUntil(ss, es, n - 1) { k := n - 1; } else { k := FirstMiss(ss, es, n - 1); }
  }

  /**
   A run keeps at most one lease in force up to any point exactly when, up to there, no probe
   under the lock has missed a standing reservation. No other probe matters.
   */
  lemma ExclusionIffHonest(ss: seq<State>, es: seq<Event>, n: nat)
    requires IsRun(ss, es) && n <= |es|
    ensures (forall i | 0 <= i <= n :: AtMostOneInForce(ss[i])) <==> HonestUntil(ss, es, n)
  {
    if HonestUntil(ss, es, n) {
      forall i | 0 <= i <= n
        ensures AtMostOneInForce(ss[i])
      {
        RunKeepsInv(ss, es, i);
        InvMeansOneInForce(ss[i]);
      }
    } else {
      var k := FirstMiss(ss, es, n);
      RunKeepsInv(ss, es, k);
      MissedReservationBreaksExclusion(ss[k], es[k]);
      assert !AtMostOneInForce(ss[k + 1]);
    }
  }

  // ----- exclusion between children, whatever the probes answer -----

  /** The part of the invariant that needs no truthful probe: the lock and the flags. */
  ghost predicate LockInv(s: State) {
    forall p | p in s.procs :: (s.host.lock == By(p) <==> HoldsLock(s.procs[p])) && FlagsOk(s.procs[p])
  }

  lemma FlagsAfterWrite(r: Proc, answer: bool, more: bool)
    requires FlagsOk(r)
    requires r.pc.MakeEntry? || r.pc.WriteEntry? || r.pc.SyncEntry? || r.pc.DropPartial? || r.pc.DropEntry?
    ensures FlagsOk(AfterCall(r, answer, more))
  {
  }

  lemma FlagsAfterSync(r: Proc, answer: bool, more: bool)
    requires FlagsOk(r) && (r.pc.SyncNew? || r.pc.SyncOld?)
    ensures FlagsOk(AfterCall(r, answer, more))
  {
  }

  lemma FlagsAfterOther(r: Proc, answer: bool, more: bool)
    requires FlagsOk(r)
    requires !(r.pc.MakeEntry? || r.pc.WriteEntry? || r.pc.SyncEntry? || r.pc.DropPartial? || r.pc.DropEntry?)
    requires !(r.pc.SyncNew? || r.pc.SyncOld?)
    ensures FlagsOk(AfterCall(r, answer, more))
  {
    if r.pc.RemoveEntry? || r.pc.SyncRemoval? || r.pc.RestoreProbe? || r.pc.AbortRelease? || r.pc.Release? {
      FlagsAfterRemoval(r, answer, more);
    }
  }

  lemma FlagsAfterRemoval(r: Proc, answer: bool, more: bool)
    requires FlagsOk(r)
    requires r.pc.RemoveEntry? || r.pc.SyncRemoval? || r.pc.RestoreProbe? || r.pc.AbortRelease? || r.pc.Release?
    ensures FlagsOk(AfterCall(r, answer, more))
  {
  }

  lemma FlagsAfterCall(r: Proc, answer: bool, more: bool)
    requires FlagsOk(r)
    ensures FlagsOk(AfterCall(r, answer, more))
  {
    match r.pc
    case MakeEntry(_) | WriteEntry(_) | SyncEntry(_) | DropPartial(_) | DropEntry =>
      FlagsAfterWrite(r, answer, more);
    case SyncNew(_) | SyncOld(_) => FlagsAfterSync(r, answer, more);
    case _ => FlagsAfterOther(r, answer, more);
  }

  lemma LockAfterCall(h: Host, p: Pid, r: Proc, reply: Reply)
    requires FlagsOk(r) && (h.lock == By(p) <==> HoldsLock(r))
    ensures
      var answer := Answer(h, p, r.pc, reply);
      HostAfter(h, p, r.pc, answer).lock == By(p) <==> HoldsLock(AfterCall(r, answer, reply.more))
    ensures
      var g := HostAfter(h, p, r.pc, Answer(h, p, r.pc, reply));
      forall q :: q != p ==> (g.lock == By(q) <==> h.lock == By(q))
  {
  }

  lemma LockAfterDecision(r: Proc, d: Decision)
    requires FlagsOk(r)
    ensures FlagsOk(AfterDecision(r, d)) && (HoldsLock(AfterDecision(r, d)) <==> HoldsLock(r))
  {
  }

  lemma CallKeepsLockInv(s: State, p: Pid, reply: Reply)
    requires LockInv(s) && p in s.procs
    ensures LockInv(Apply(s, Call(p, reply)))
  {
    var r := s.procs[p];
    var answer := Answer(s.host, p, r.pc, reply);
    FlagsAfterCall(r, answer, reply.more);
    LockAfterCall(s.host, p, r, reply);
    assert Apply(s, Call(p, reply)) ==
           State(HostAfter(s.host, p, r.pc, answer), s.procs[p := AfterCall(r, answer, reply.more)]);
  }

  lemma KilledFlags(r: Proc)
    requires FlagsOk(r)
    ensures FlagsOk(Killed(r)) && !HoldsLock(Killed(r))
  {
  }

  lemma DeathKeepsLockInv(s: State, p: Pid)
    requires LockInv(s) && p in s.procs
    ensures LockInv(Apply(s, Die(p)))
  {
    KilledFlags(s.procs[p]);
  }

  lemma CrashKeepsLockInv(s: State)
    requires LockInv(s)
    ensures LockInv(Apply(s, Crash))
  {
    forall p | p in s.procs { KilledFlags(s.procs[p]); }
  }

  lemma StepKeepsLockInv(s: State, e: Event)
    requires LockInv(s)
    ensures LockInv(Apply(s, e))
  {
    match e
    case Call(p, reply) => if p in s.procs { CallKeepsLockInv(s, p, reply); }
    case Decide(p, d) => if p in s.procs { LockAfterDecision(s.procs[p], d); }
    case Die(p) => if p in s.procs { DeathKeepsLockInv(s, p); }
    case WriteBack =>
    case Crash => CrashKeepsLockInv(s);
  }

  lemma {:induction false} RunKeepsLockInv(ss: seq<State>, es: seq<Event>, i: nat)
    requires IsRun(ss, es) && i < |ss|
    ensures LockInv(ss[i])
  {
    if i > 0 {
      RunKeepsLockInv(ss, es, i - 1);
      StepKeepsLockInv(ss[i - 1], es[i - 1]);
    }
  }

  lemma LockOf(s: State, p: Pid)
    requires LockInv(s) && p in s.procs && s.procs[p].pc.Working?
    ensures s.host.lock == By(p)
  {
    assert FlagsOk(s.procs[p]);
  }

  /** In every run, even with erring probes, no two processes run children at the same time. */
  lemma ChildrenNeverOverlap(ss: seq<State>, es: seq<Event>, i: nat, p: Pid, q: Pid)
    requires IsRun(ss, es) && i < |ss| && p in ss[i].procs && q in ss[i].procs
    requires ss[i].procs[p].pc == Working(true) && ss[i].procs[q].pc == Working(true)
    ensures p == q && ss[i].host.lock == By(p)
  {
    RunKeepsLockInv(ss, es, i);
    LockOf(ss[i], p);
    LockOf(ss[i], q);
  }

  // ----- reservations -----

  /** A call changes the entry only from none or the caller's own, and only to none or the caller's own. */
  lemma OnlyOwnReservation(ss: seq<State>, es: seq<Event>, i: nat)
    requires IsRun(ss, es) && i < |es| && HonestUntil(ss, es, i)
    requires es[i].Call? && es[i].pid in ss[i].procs
    ensures ss[i + 1].host.entry != ss[i].host.entry ==>
              NotOthers(ss[i].host, es[i].pid) && NotOthers(ss[i + 1].host, es[i].pid)
  {
    RunKeepsInv(ss, es, i);
    var p := es[i].pid;
    assert Holds(ss[i], p);
    assert ss[i + 1] == Apply(ss[i], es[i]);
  }

  /** Every exclusive create that is about to happen finds no entry. */
  predicate CreatesAreClear(s: State) {
    forall p | p in s.procs && s.procs[p].pc.MakeEntry? :: s.host.entry == Nobody
  }

  /** The probe of a restore does not miss the reservation that a failed unlink has left. */
  predicate RestoreSees(s: State, e: Event) {
    e.Call? && e.pid in s.procs && s.procs[e.pid].pc.RestoreProbe? && s.host.entry != Nobody ==> !e.reply.blind
  }

  ghost predicate RestoresSeeUntil(ss: seq<State>, es: seq<Event>, n: nat)
    requires n <= |es| < |ss|
  {
    forall i | 0 <= i < n :: RestoreSees(ss[i], es[i])
  }

  lemma CallKeepsClear(s: State, p: Pid, reply: Reply, q: Pid)
    requires Inv(s) && CreatesAreClear(s) && p in s.procs && q in s.procs
    requires Truthful(s.host, s.procs[p].pc, reply) && RestoreSees(s, Call(p, reply))
    requires Apply(s, Call(p, reply)).procs[q].pc.MakeEntry?
    ensures Apply(s, Call(p, reply)).host.entry == Nobody
  {
    assert Holds(s, p) && Holds(s, q);
  }

  lemma StepKeepsClear(s: State, e: Event)
    requires Inv(s) && CreatesAreClear(s) && Honest(s, e) && RestoreSees(s, e)
    ensures CreatesAreClear(Apply(s, e))
  {
    var t := Apply(s, e);
    forall q | q in t.procs && t.procs[q].pc.MakeEntry?
      ensures t.host.entry == Nobody
    {
      if e.Call? && e.pid in s.procs { CallKeepsClear(s, e.pid, e.reply, q); }
    }
  }

  lemma MissedRestoreCollides(s: State, e: Event)
    requires Inv(s) && !RestoreSees(s, e)
    ensures !CreatesAreClear(Apply(s, e))
  {
    assert Holds(s, e.pid);
    assert e.pid in Apply(s, e).procs && Apply(s, e).procs[e.pid].pc.MakeEntry?;
  }

  /** No exclusive create ever meets an entry exactly when no restore's probe has missed one. */
  lemma {:induction false} CreatesAreClearIff(ss: seq<State>, es: seq<Event>, n: nat)
    requires IsRun(ss, es) && n <= |es| && HonestUntil(ss, es, n)
    ensures (forall i | 0 <= i <= n :: CreatesAreClear(ss[i])) <==> RestoresSeeUntil(ss, es, n)
  {
    if n > 0 {
      CreatesAreClearIff(ss, es, n - 1);
      RunKeepsInv(ss, es, n - 1);
      assert ss[n] == Apply(ss[n - 1], es[n - 1]);
      if RestoreSees(ss[n - 1], es[n - 1]) {
        if CreatesAreClear(ss[n - 1]) { StepKeepsClear(ss[n - 1], es[n - 1]); }
      } else {
        MissedRestoreCollides(ss[n - 1], es[n - 1]);
      }
    }
  }

  /** One call that gives the lock up leaves a durable reservation or a completed removal. */
  lemma ReleaseLeavesAGuard(h: Host, p: Pid, r: Proc, reply: Reply)
    requires ProcOk(h, p, r) && WellFormed(r.args) && r.pc != Recheck && h.lock == By(p)
    requires HostAfter(h, p, r.pc, Answer(h, p, r.pc, reply)).lock != By(p)
    ensures
      var pc := AfterCall(r, Answer(h, p, r.pc, reply), reply.more).pc;
      var g := HostAfter(h, p, r.pc, Answer(h, p, r.pc, reply));
      (Durable(g, p) && !Returned(pc)) || (Gone(g) && Returned(pc))
  {
    assert r.pc.Unlock? || r.pc.Release? || r.pc.AbortRelease?;
  }

  /** Only the owner's own call, its death or a crash takes the lock from a process. */
  lemma LockIsKept(s: State, e: Event, p: Pid)
    requires Inv(s) && p in s.procs && s.host.lock == By(p)
    requires !(e.Call? && e.pid == p) && !(e.Die? && e.pid == p) && !e.Crash?
    ensures Apply(s, e).host.lock == By(p)
  {
  }

  /**
   A lease with well-formed arguments gives up the lock it acquired only while its reservation
   is durable, or once its own removal is complete and durable; in the second case the run
   returns. Death and a crash are the only other ways to lose the lock.
   */
  lemma LockLeavesAGuard(ss: seq<State>, es: seq<Event>, i: nat, p: Pid)
    requires IsRun(ss, es) && i < |es| && HonestUntil(ss, es, i) && p in ss[i].procs && p in ss[i + 1].procs
    requires ss[i].host.lock == By(p) && ss[i + 1].host.lock != By(p)
    requires WellFormed(ss[i].procs[p].args) && ss[i].procs[p].pc != Recheck
    requires !es[i].Crash? && es[i] != Die(p)
    ensures es[i].Call? && es[i].pid == p
    ensures || (Durable(ss[i + 1].host, p) && !Returned(ss[i + 1].procs[p].pc))
            || (Gone(ss[i + 1].host) && Returned(ss[i + 1].procs[p].pc))
  {
    RunKeepsInv(ss, es, i);
    assert Holds(ss[i], p);
    if es[i].Call? && es[i].pid == p {
      ReleaseLeavesAGuard(ss[i].host, p, ss[i].procs[p], es[i].reply);
    } else {
      LockIsKept(ss[i], es[i], p);
    }
  }

  /** The lease of `p` is over for its process, but its reservation still stands. */
  predicate Abandoned(s: State, p: Pid) {
    && p in s.procs
    && (s.procs[p].pc == Dead || (s.procs[p].pc == FailClosed && !s.procs[p].lease.locked))
    && s.host.entry == By(p)
  }

  lemma AbandonedStep(s: State, e: Event, p: Pid)
    requires Inv(s) && Honest(s, e) && Abandoned(s, p)
    requires e.Crash? ==> s.host.disk == By(p)
    ensures Abandoned(Apply(s, e), p)
    ensures s.host.disk == By(p) ==> Apply(s, e).host.disk == By(p)
  {
    if e.Call? && e.pid in s.procs {
      assert Holds(s, e.pid);
    }
  }

  lemma AbandonedRefuses(s: State, e: Event, p: Pid, q: Pid)
    requires Inv(s) && Honest(s, e) && Abandoned(s, p) && q in s.procs && s.procs[q].pc == Recheck
    ensures q in Apply(s, e).procs
    ensures Outside(Apply(s, e).procs[q].pc) || Apply(s, e).procs[q].pc == Dead
  {
    if !Outside(Apply(s, e).procs[q].pc) && Apply(s, e).procs[q].pc != Dead { AcquireSeesNoGuard(s, e, q); }
  }

  lemma {:induction false} AbandonedStays(ss: seq<State>, es: seq<Event>, i: nat, j: nat, p: Pid)
    requires IsRun(ss, es) && i <= j < |ss| && HonestUntil(ss, es, j) && Abandoned(ss[i], p)
    requires ss[i].host.disk == By(p) || (forall k | i <= k < |es| :: !es[k].Crash?)
    ensures Abandoned(ss[j], p)
    ensures ss[i].host.disk == By(p) ==> ss[j].host.disk == By(p)
    decreases j
  {
    if i < j {
      AbandonedStays(ss, es, i, j - 1, p);
      RunKeepsInv(ss, es, j - 1);
      AbandonedStep(ss[j - 1], es[j - 1], p);
    }
  }

  /**
   An abandoned reservation blocks every later acquire: for ever if no crash follows, and
   across crashes too once it has reached the disk.
   */
  lemma AbandonedBlocks(ss: seq<State>, es: seq<Event>, i: nat, j: nat, p: Pid, q: Pid)
    requires IsRun(ss, es) && i <= j < |es| && HonestUntil(ss, es, j + 1) && Abandoned(ss[i], p)
    requires ss[i].host.disk == By(p) || (forall k | i <= k < |es| :: !es[k].Crash?)
    ensures Abandoned(ss[j + 1], p) && !AcquiresAt(ss, j, q)
  {
    AbandonedStays(ss, es, i, j, p);
    AbandonedStays(ss, es, i, j + 1, p);
    RunKeepsInv(ss, es, j);
    assert ss[j + 1] == Apply(ss[j], es[j]);
    if q in ss[j].procs && ss[j].procs[q].pc == Recheck { AbandonedRefuses(ss[j], es[j], p, q); }
  }

  // ----- what finished runs leave -----

  /** Accepted and rejected runs leave neither guard; a fail-closed run with well-formed arguments leaves one. */
  lemma FinishedRunGuards(ss: seq<State>, es: seq<Event>, i: nat, p: Pid)
    requires IsRun(ss, es) && i < |ss| && HonestUntil(ss, es, i) && p in ss[i].procs
    ensures Returned(ss[i].procs[p].pc) ==>
              ss[i].host.lock != By(p) && ss[i].host.entry != By(p) && ss[i].host.disk != By(p)
    ensures ss[i].procs[p].pc == FailClosed && WellFormed(ss[i].procs[p].args) ==>
              ss[i].host.lock == By(p) || Durable(ss[i].host, p)
  {
    RunKeepsInv(ss, es, i);
    assert Holds(ss[i], p);
  }

  // ----- runs that show the conditions are needed -----

  /** `s` ends a run; `honest` asks that no probe under the lock missed a standing reservation. */
  ghost predicate Reachable(s: State, honest: bool) {
    exists ss: seq<State>, es: seq<Event> :: EndsIn(ss, es, s, honest)
  }

  ghost predicate EndsIn(ss: seq<State>, es: seq<Event>, s: State, honest: bool) {
    IsRun(ss, es) && ss[|es|] == s && (honest ==> HonestUntil(ss, es, |es|))
  }

  lemma ReachableInv(s: State)
    requires Reachable(s, true)
    ensures Inv(s)
  {
    var ss: seq<State>, es: seq<Event> :| EndsIn(ss, es, s, true);
    RunKeepsInv(ss, es, |es|);
  }

  lemma InitIsReachable(s: State)
    requires Init(s)
    ensures Reachable(s, true)
  {
    assert EndsIn([s], [], s, true);
  }

  lemma StepIsReachable(s: State, e: Event, honest: bool)
    requires Reachable(s, honest) && (honest ==> Honest(s, e))
    ensures Reachable(Apply(s, e), honest)
  {
    var ss: seq<State>, es: seq<Event> :| EndsIn(ss, es, s, honest);
    assert EndsIn(ss + [Apply(s, e)], es + [e], Apply(s, e), honest);
  }

  lemma HonestIsReachable(s: State)
    requires Reachable(s, true)
    ensures Reachable(s, false)
  {
    var ss: seq<State>, es: seq<Event> :| EndsIn(ss, es, s, true);
    assert EndsIn(ss, es, s, false);
  }

  const YES := Reply(true, false, false)
  const BLIND := Reply(true, false, true)

  /** A host with two processes. */
  function Two(h: Host, r0: Proc, r1: Proc): State { State(h, map[0 := r0, 1 := r1]) }

  function Idle(a: Args): Proc { Proc(Probe, FRESH, a) }

  const CLEAR := Host(Nobody, Nobody, Nobody)

  /** A truthful call of process 0, with the kernel's consent. */
  lemma First(h: Host, r0: Proc, r1: Proc) returns (g: Host, t: Proc)
    requires Reachable(Two(h, r0, r1), true)
    ensures Reachable(Two(g, t, r1), true)
    ensures g == HostAfter(h, 0, r0.pc, Answer(h, 0, r0.pc, YES))
    ensures t == AfterCall(r0, Answer(h, 0, r0.pc, YES), false)
  {
    var answer := Answer(h, 0, r0.pc, YES);
    g, t := HostAfter(h, 0, r0.pc, answer), AfterCall(r0, answer, false);
    StepIsReachable(Two(h, r0, r1), Call(0, YES), true);
    assert Apply(Two(h, r0, r1), Call(0, YES)) == Two(g, t, r1);
  }

  lemma FirstDecides(h: Host, r0: Proc, r1: Proc, d: Decision)
    requires Reachable(Two(h, r0, r1), true)
    ensures Reachable(Two(h, AfterDecision(r0, d), r1), true)
  {
    StepIsReachable(Two(h, r0, r1), Decide(0, d), true);
    assert Apply(Two(h, r0, r1), Decide(0, d)) == Two(h, AfterDecision(r0, d), r1);
  }

  lemma Second(h: Host, r0: Proc, r1: Proc, reply: Reply) returns (g: Host, t: Proc)
    requires Reachable(Two(h, r0, r1), false)
    ensures Reachable(Two(g, r0, t), false)
    ensures g == HostAfter(h, 1, r1.pc, Answer(h, 1, r1.pc, reply))
    ensures t == AfterCall(r1, Answer(h, 1, r1.pc, reply), reply.more)
  {
    var answer := Answer(h, 1, r1.pc, reply);
    g, t := HostAfter(h, 1, r1.pc, answer), AfterCall(r1, answer, reply.more);
    StepIsReachable(Two(h, r0, r1), Call(1, reply), false);
    assert Apply(Two(h, r0, r1), Call(1, reply)) == Two(g, r0, t);
  }

  /** Process 0 holds the lock and is about to probe for a reservation the second time. */
  lemma ReachRecheck(a: Args, b: Args)
    ensures Reachable(Two(CLEAR.(lock := By(0)), Proc(Recheck, FRESH, a), Idle(b)), true)
  {
    var (h, r) := (CLEAR, Idle(a));
    InitIsReachable(Two(h, r, Idle(b)));
    h, r := First(h, r, Idle(b));
    h, r := First(h, r, Idle(b));
    h, r := First(h, r, Idle(b));
  }

  /** Process 0 has created its reservation's entry and is about to fill it. */
  lemma ReachWriting(a: Args, b: Args)
    requires WellFormed(a)
    ensures Reachable(Two(Host(By(0), By(0), Nobody),
                          Proc(WriteEntry(Creating), FRESH.(locked := true), a), Idle(b)), true)
  {
    ReachRecheck(a, b);
    var h, r := First(CLEAR.(lock := By(0)), Proc(Recheck, FRESH, a), Idle(b));
    h, r := First(h, r, Idle(b));
  }

  /** Process 0 holds the lock and a reservation that is on disk. */
  lemma ReachWorking(a: Args, b: Args)
    requires WellFormed(a)
    ensures Reachable(Two(Host(By(0), By(0), By(0)),
                          Proc(Working(false), FRESH.(locked := true, reserved := true), a), Idle(b)), true)
  {
    ReachWriting(a, b);
    var h, r := First(Host(By(0), By(0), Nobody), Proc(WriteEntry(Creating), FRESH.(locked := true), a), Idle(b));
    h, r := First(h, r, Idle(b));
    h, r := First(h, r, Idle(b));
  }

  /** Process 0 publishes under its reservation and has released the lock. */
  lemma ReachPublishing(a: Args, b: Args)
    requires WellFormed(a)
    ensures Reachable(Two(Host(Nobody, By(0), By(0)),
                          Proc(Publishing, FRESH.(reserved := true), a), Idle(b)), true)
  {
    ReachWorking(a, b);
    var h := Host(By(0), By(0), By(0));
    var r := Proc(Working(false), FRESH.(locked := true, reserved := true), a);
    FirstDecides(h, r, Idle(b), Proceed);
    h, r := First(h, r.(pc := Unlock), Idle(b));
  }

  /** A crash forgets an entry that no sync or write-back has brought to the disk, and keeps one that it has. */
  lemma CrashForgetsUnsynced(a: Args, b: Args)
    requires WellFormed(a)
    ensures exists s: State | Reachable(s, true) ::
              && s.host.entry == By(0) && Apply(s, Crash).host == CLEAR
              && Apply(Apply(s, WriteBack), Crash).host == Host(Nobody, By(0), By(0))
  {
    ReachWriting(a, b);
    var s := Two(Host(By(0), By(0), Nobody), Proc(WriteEntry(Creating), FRESH.(locked := true), a), Idle(b));
    assert Apply(s, Crash).host == CLEAR && Apply(Apply(s, WriteBack), Crash).host == Host(Nobody, By(0), By(0));
  }

  /** Two erring probes let a second lease unlink the reservation of a publication in progress. */
  lemma BlindProbesLoseReservation(a: Args, b: Args) returns (s: State)
    requires WellFormed(a) && WellFormed(b)
    ensures Reachable(s, false)
    ensures 0 in s.procs && s.procs[0].pc == Publishing && s.host.entry == Nobody
  {
    ReachPublishing(a, b);
    var (h, r0) := (Host(Nobody, By(0), By(0)), Proc(Publishing, FRESH.(reserved := true), a));
    HonestIsReachable(Two(h, r0, Idle(b)));
    var r1 := Idle(b);
    h, r1 := Second(h, r0, r1, BLIND);
    h, r1 := Second(h, r0, r1, YES);
    h, r1 := Second(h, r0, r1, YES);
    h, r1 := Second(h, r0, r1, BLIND);
    h, r1 := Second(h, r0, r1, YES);
    h, r1 := Second(h, r0, r1, YES);
    s := Two(h, r0, r1);
  }

  // ----- where an undisturbed process gets when every call is granted -----

  /** The state after these events. */
  function After(s: State, es: seq<Event>): State
    decreases |es|
  {
    if es == [] then s else Apply(After(s, es[..|es| - 1]), es[|es| - 1])
  }

  /** Process `p` stands at `r` on host `h`. */
  predicate Stands(s: State, p: Pid, h: Host, r: Proc) { s.host == h && p in s.procs && s.procs[p] == r }

  lemma Granted(s: State, es: seq<Event>, p: Pid, h: Host, r: Proc, g: Host, t: Proc)
    requires Stands(After(s, es), p, h, r)
    requires g == HostAfter(h, p, r.pc, Answer(h, p, r.pc, YES)) && t == AfterCall(r, Answer(h, p, r.pc, YES), false)
    ensures Stands(After(s, es + [Call(p, YES)]), p, g, t)
  {
    assert (es + [Call(p, YES)])[..|es|] == es;
  }

  lemma Decided(s: State, es: seq<Event>, p: Pid, h: Host, r: Proc, d: Decision)
    requires Stands(After(s, es), p, h, r)
    ensures Stands(After(s, es + [Decide(p, d)]), p, h, AfterDecision(r, d))
  {
    assert (es + [Decide(p, d)])[..|es|] == es;
  }

  /** The lock, the entry and the disk are all this lease's. */
  function Owned(p: Pid): Host { Host(By(p), By(p), By(p)) }

  const WORKING := FRESH.(locked := true, reserved := true)

  lemma WorkingOwns(s: State, p: Pid)
    requires Inv(s) && p in s.procs && s.procs[p].pc == Working(false)
    ensures Stands(After(s, []), p, Owned(p), Proc(Working(false), WORKING, s.procs[p].args))
  {
    assert Holds(s, p);
  }

  function Grant(p: Pid): Event { Call(p, YES) }

  /** A failure without doubt removes the reservation: granted, it ends rejected with neither guard. */
  lemma RemovalRejects(s: State, p: Pid)
    requires Inv(s) && p in s.procs && s.procs[p].pc == Working(false)
    ensures var t := After(s, [Decide(p, Fail(true)), Grant(p), Grant(p), Grant(p)]);
            p in t.procs && t.procs[p].pc == Rejected && t.host == CLEAR
  {
    var a := s.procs[p].args;
    var es := [];
    WorkingOwns(s, p);
    Decided(s, es, p, Owned(p), Proc(Working(false), WORKING, a), Fail(true));
    es := es + [Decide(p, Fail(true))];
    Granted(s, es, p, Owned(p), Proc(RemoveEntry(Aborting), WORKING, a),
            Host(By(p), Nobody, By(p)), Proc(SyncRemoval(Aborting), WORKING, a));
    es := es + [Grant(p)];
    Granted(s, es, p, Host(By(p), Nobody, By(p)), Proc(SyncRemoval(Aborting), WORKING, a),
            Host(By(p), Nobody, Nobody), Proc(AbortRelease(true, true), WORKING, a));
    es := es + [Grant(p)];
    Granted(s, es, p, Host(By(p), Nobody, Nobody), Proc(AbortRelease(true, true), WORKING, a),
            CLEAR, Proc(Rejected, FRESH.(closed := true), a));
    es := es + [Grant(p)];
    assert es == [Decide(p, Fail(true)), Grant(p), Grant(p), Grant(p)];
  }

  lemma {:induction false} AfterIsReachable(s: State, es: seq<Event>)
    requires Reachable(s, true) && forall i | 0 <= i < |es| :: es[i].Call? ==> !es[i].reply.blind
    ensures Reachable(After(s, es), true)
    decreases |es|
  {
    if es != [] {
      AfterIsReachable(s, es[..|es| - 1]);
      StepIsReachable(After(s, es[..|es| - 1]), es[|es| - 1], true);
    }
  }

  /** Such a run exists: acquired, reserved, failed without doubt, rejected, with nothing left. */
  lemma ReachRejected(a: Args, b: Args) returns (t: State)
    requires WellFormed(a)
    ensures Reachable(t, true) && t.host == CLEAR && 0 in t.procs && t.procs[0].pc == Rejected
  {
    ReachWorking(a, b);
    var s := Two(Owned(0), Proc(Working(false), WORKING, a), Idle(b));
    ReachableInv(s);
    RemovalRejects(s, 0);
    AfterIsReachable(s, [Decide(0, Fail(true)), Grant(0), Grant(0), Grant(0)]);
    t := After(s, [Decide(0, Fail(true)), Grant(0), Grant(0), Grant(0)]);
  }

  /** A failure in doubt keeps the reservation: granted, it ends fail-closed with the lock given up. */
  lemma DoubtKeepsReservation(s: State, p: Pid)
    requires Inv(s) && p in s.procs && s.procs[p].pc == Working(false)
    ensures var t := After(s, [Decide(p, Fail(false)), Grant(p)]);
            p in t.procs && t.procs[p].pc == FailClosed && t.host == Host(Nobody, By(p), By(p))
  {
    var a := s.procs[p].args;
    WorkingOwns(s, p);
    Decided(s, [], p, Owned(p), Proc(Working(false), WORKING, a), Fail(false));
    assert [] + [Decide(p, Fail(false))] == [Decide(p, Fail(false))];
    Granted(s, [Decide(p, Fail(false))], p, Owned(p), Proc(AbortRelease(false, false), WORKING, a),
            Host(Nobody, By(p), By(p)), Proc(FailClosed, FRESH.(reserved := true, closed := true), a));
    assert [Decide(p, Fail(false))] + [Grant(p)] == [Decide(p, Fail(false)), Grant(p)];
  }

  const PUBLISHED := FRESH.(reserved := true, published := true)

  /** The lock given up under the reservation. */
  lemma PublicationUnlocks(s: State, p: Pid)
    requires Inv(s) && p in s.procs && s.procs[p].pc == Working(false)
    ensures Stands(After(s, [Decide(p, Proceed), Grant(p)]), p,
                   Host(Nobody, By(p), By(p)), Proc(Publishing, FRESH.(reserved := true), s.procs[p].args))
  {
    var a := s.procs[p].args;
    WorkingOwns(s, p);
    Decided(s, [], p, Owned(p), Proc(Working(false), WORKING, a), Proceed);
    assert [] + [Decide(p, Proceed)] == [Decide(p, Proceed)];
    Granted(s, [Decide(p, Proceed)], p, Owned(p), Proc(Unlock, WORKING, a),
            Host(Nobody, By(p), By(p)), Proc(Publishing, FRESH.(reserved := true), a));
    assert [Decide(p, Proceed)] + [Grant(p)] == [Decide(p, Proceed), Grant(p)];
  }

  /** From the unlock to the lock taken again for the removal. */
  lemma PublicationRetakes(s: State, p: Pid)
    requires Inv(s) && p in s.procs && s.procs[p].pc == Working(false)
    ensures Stands(After(s, [Decide(p, Proceed), Grant(p), Decide(p, Proceed), Grant(p), Grant(p)]), p,
                   Owned(p), Proc(RemoveEntry(Finalizing), During(Finalizing, false), s.procs[p].args))
  {
    var (a, free) := (s.procs[p].args, Host(Nobody, By(p), By(p)));
    var es := [Decide(p, Proceed), Grant(p)];
    PublicationUnlocks(s, p);
    Decided(s, es, p, free, Proc(Publishing, FRESH.(reserved := true), a), Proceed);
    es := es + [Decide(p, Proceed)];
    Granted(s, es, p, free, Proc(Reopen, PUBLISHED, a), free, Proc(Retake, PUBLISHED, a));
    es := es + [Grant(p)];
    Granted(s, es, p, free, Proc(Retake, PUBLISHED, a),
            Owned(p), Proc(RemoveEntry(Finalizing), During(Finalizing, false), a));
    es := es + [Grant(p)];
    assert es == [Decide(p, Proceed), Grant(p), Decide(p, Proceed), Grant(p), Grant(p)];
  }

  /** A publication whose calls are granted ends accepted with neither guard. */
  lemma PublicationAccepts(s: State, p: Pid)
    requires Inv(s) && p in s.procs && s.procs[p].pc == Working(false)
    ensures var t := After(s, [Decide(p, Proceed), Grant(p), Decide(p, Proceed), Grant(p), Grant(p),
                               Grant(p), Grant(p), Grant(p)]);
            p in t.procs && t.procs[p].pc == Accepted && t.host == CLEAR
  {
    var (a, l) := (s.procs[p].args, During(Finalizing, false));
    PublicationRetakes(s, p);
    var es := [Decide(p, Proceed), Grant(p), Decide(p, Proceed), Grant(p), Grant(p)];
    Granted(s, es, p, Owned(p), Proc(RemoveEntry(Finalizing), l, a),
            Host(By(p), Nobody, By(p)), Proc(SyncRemoval(Finalizing), l, a));
    es := es + [Grant(p)];
    Granted(s, es, p, Host(By(p), Nobody, By(p)), Proc(SyncRemoval(Finalizing), l, a),
            Host(By(p), Nobody, Nobody), Proc(Release, l, a));
    es := es + [Grant(p)];
    Granted(s, es, p, Host(By(p), Nobody, Nobody), Proc(Release, l, a),
            CLEAR, Proc(Accepted, FRESH.(published := true, closed := true), a));
    es := es + [Grant(p)];
    assert es == [Decide(p, Proceed), Grant(p), Decide(p, Proceed), Grant(p), Grant(p),
                  Grant(p), Grant(p), Grant(p)];
  }

  // ----- when a fail-closed run leaves a guard -----

  ghost predicate FailClosedGuarded(s: State, p: Pid) {
    p in s.procs && s.procs[p].pc == FailClosed ==> s.host.lock == By(p) || s.host.entry == By(p)
  }

  /** Refused reservation arguments send the controller to `abort` with the lock alone. */
  lemma ReachMalformedAbort(a: Args)
    requires !WellFormed(a)
    ensures Reachable(Two(CLEAR.(lock := By(0)),
                          Proc(AbortRelease(false, false), FRESH.(locked := true), a), Idle(a)), true)
  {
    ReachRecheck(a, a);
    var h, r := First(CLEAR.(lock := By(0)), Proc(Recheck, FRESH, a), Idle(a));
  }

  lemma ReleasedUnreserved(a: Args)
    ensures HostAfter(CLEAR.(lock := By(0)), 0, AbortRelease(false, false), true) == CLEAR
    ensures AfterCall(Proc(AbortRelease(false, false), FRESH.(locked := true), a), true, false) ==
            Proc(FailClosed, FRESH.(closed := true), a)
  {
  }

  /** Refused reservation arguments end a run fail-closed with no lock and no reservation. */
  lemma MalformedLosesGuard(a: Args) returns (s: State)
    requires !WellFormed(a)
    ensures Reachable(s, true) && s.host == Host(Nobody, Nobody, Nobody)
    ensures 0 in s.procs && s.procs[0].pc == FailClosed && s.procs[0].args == a
  {
    ReachMalformedAbort(a);
    var h, r := First(CLEAR.(lock := By(0)), Proc(AbortRelease(false, false), FRESH.(locked := true), a), Idle(a));
    ReleasedUnreserved(a);
    s := Two(h, r, Idle(a));
  }

  /** Every fail-closed run with these arguments leaves a guard exactly when they are well formed. */
  lemma FailClosedIffWellFormed(a: Args)
    ensures (forall s, p | Reachable(s, true) && p in s.procs && s.procs[p].args == a ::
               FailClosedGuarded(s, p)) <==> WellFormed(a)
  {
    if WellFormed(a) {
      forall s, p | Reachable(s, true) && p in s.procs && s.procs[p].args == a
        ensures FailClosedGuarded(s, p)
      {
        ReachableInv(s);
        assert Holds(s, p);
      }
    } else {
      var s := MalformedLosesGuard(a);
      assert !FailClosedGuarded(s, 0);
    }
  }

  /** A directory the command line admits ends a fail-closed run that nothing guards. */
  lemma SpacedDirectoryLosesGuard(runId: string) returns (s: State)
    ensures Admitted(SPACED) && Reachable(s, true) && s.host == Host(Nobody, Nobody, Nobody)
    ensures 0 in s.procs && s.procs[0].pc == FailClosed && s.procs[0].args == Args(runId, SPACED)
  {
    SpacedIsRefused();
    s := MalformedLosesGuard(Args(runId, SPACED));
  }
}
