/**
 The exclusive-run protocol as a machine of any number of processes.

 Every process drives one lease through the controller's call order. A step is one system
 call of one process (with the kernel's answer), one controller decision, the death of a
 process, a write-back of the directory, or a crash of the host. The host keeps the `flock`
 owner, the reservation's directory entry as processes see it, and the entry as the disk
 holds it: a directory `fsync` or a write-back copies the first to the second, and a crash
 copies it back.
 */
module Protocol {
  import opened Reservation

  type Pid = nat

  /** Who holds the lock, or who created the reservation entry. */
  datatype Owner = Nobody | By(pid: Pid)

  /** The flags a lease object carries between calls. */
  datatype Lease = Lease(locked: bool, reserved: bool, published: bool, closed: bool, uncertain: bool)

  const FRESH := Lease(false, false, false, false, false)

  /** The operation on whose behalf a reservation is written, removed or restored. */
  datatype Stage = Creating | Finalizing | Aborting

  /** The system call or decision a process performs next, or how its run ended. */
  datatype Pc =
    | Probe | OpenLock | TakeLock | Recheck
    | MakeEntry(stage: Stage) | WriteEntry(stage: Stage) | SyncEntry(stage: Stage)
    | DropPartial(stage: Stage) | DropEntry | SyncNew(stage: Stage)
    | Working(child: bool) | Unlock | Publishing | Reopen | Retake
    | RemoveEntry(stage: Stage) | SyncRemoval(stage: Stage) | Release
    | RestoreProbe(stage: Stage) | SyncOld(stage: Stage)
    | AbortRelease(removed: bool, requested: bool)
    | Refused | Accepted | Rejected | FailClosed | Dead

  /** `args` are what the run passes when it creates its reservation. */
  datatype Proc = Proc(pc: Pc, lease: Lease, args: Args)

  datatype Host = Host(lock: Owner, entry: Owner, disk: Owner)

  datatype State = State(host: Host, procs: map<Pid, Proc>)

  datatype Decision = StartChild | EndChild | Proceed | Fail(remove: bool)

  /** `ok` is the kernel's will, `more` tells a short write, `blind` a probe whose `lstat` errs. */
  datatype Reply = Reply(ok: bool, more: bool, blind: bool)

  datatype Event =
    | Call(pid: Pid, reply: Reply)
    | Decide(pid: Pid, decision: Decision)
    | Die(pid: Pid)
    | WriteBack
    | Crash

  // ----- one process -----

  /** Program points before `acquire` has succeeded, and the end of a refused run. */
  predicate Outside(pc: Pc) {
    pc.Probe? || pc.OpenLock? || pc.TakeLock? || pc.Recheck? || pc.Refused?
  }

  /** What the kernel answers to the pending call of `p`: success, or for a probe, "exists". */
  predicate Answer(h: Host, p: Pid, pc: Pc, r: Reply) {
    match pc
    case Probe | Recheck | RestoreProbe(_) => h.entry != Nobody && !r.blind
    case TakeLock | Retake => r.ok && h.lock == Nobody
    case MakeEntry(_) => r.ok && h.entry == Nobody
    case RemoveEntry(_) | DropPartial(_) | DropEntry => r.ok && h.entry != Nobody
    case _ => r.ok
  }

  /** What an answered call does to the shared host; an unlink takes whatever entry is there. */
  function HostAfter(h: Host, p: Pid, pc: Pc, answer: bool): Host {
    if !answer then h
    else match pc
      case TakeLock | Retake => h.(lock := By(p))
      case MakeEntry(_) => h.(entry := By(p))
      case RemoveEntry(_) | DropPartial(_) | DropEntry => h.(entry := Nobody)
      case SyncNew(_) | SyncOld(_) | SyncRemoval(_) => h.(disk := h.entry)
      case Recheck | Unlock | Release | AbortRelease(_, _) => LetGo(h, p)
      case _ => h
  }

  function LetGo(h: Host, p: Pid): Host {
    if h.lock == By(p) then h.(lock := Nobody) else h
  }

  /** The entry of the lease's `abort`: what it does first, or how the run ends at once. */
  function EnterAbort(l: Lease, args: Args, remove: bool): (t: Proc)
    ensures !Outside(t.pc)
  {
    if remove && l.reserved then
      Proc(if l.locked then RemoveEntry(Aborting) else FailClosed, l, args)
    else if l.locked then
      Proc(if l.uncertain then FailClosed else AbortRelease(false, remove), l, args)
    else
      Proc(if remove then Rejected else FailClosed, l.(closed := true), args)
  }

  /** The exception that leaves a restore: it ends the run inside `abort`, else it enters `abort`. */
  function Raise(l: Lease, args: Args, stage: Stage): (t: Proc)
    ensures !Outside(t.pc)
  {
    if stage == Aborting then Proc(FailClosed, l, args) else EnterAbort(l, args, false)
  }

  function Restored(l: Lease): Lease { l.(reserved := true, uncertain := false) }

  function Unsure(l: Lease): Lease { l.(uncertain := true) }

  /** Where a process goes once its pending system call has been answered. */
  function AfterCall(r: Proc, answer: bool, more: bool): Proc {
    var (l, a) := (r.lease, r.args);
    match r.pc
    case Probe => r.(pc := if answer then Refused else OpenLock)
    case OpenLock => r.(pc := if answer then TakeLock else Refused)
    case TakeLock => r.(pc := if answer then Recheck else Refused)
    case Recheck =>
      if answer then r.(pc := Refused)
      else if WellFormed(a) then Proc(MakeEntry(Creating), l.(locked := true), a)
      else EnterAbort(l.(locked := true), a, false)
    case MakeEntry(g) =>
      if answer then r.(pc := WriteEntry(g))
      else if g == Creating then Proc(DropEntry, Unsure(l), a)
      else Raise(Unsure(l), a, g)
    case WriteEntry(g) =>
      if !answer then Proc(DropPartial(g), Unsure(l), a)
      else if more then r
      else r.(pc := SyncEntry(g))
    case SyncEntry(g) => if answer then r.(pc := SyncNew(g)) else Proc(DropPartial(g), Unsure(l), a)
    case DropPartial(g) => if g == Creating then r.(pc := DropEntry) else Raise(l, a, g)
    case DropEntry => EnterAbort(l, a, false)
    case SyncNew(g) =>
      if g != Creating then Raise(if answer then Restored(l) else Unsure(l), a, g)
      else if answer then Proc(Working(false), Restored(l), a)
      else EnterAbort(Unsure(l), a, false)
    case Unlock => if answer then Proc(Publishing, l.(locked := false), a) else EnterAbort(l, a, false)
    case Reopen => if answer then r.(pc := Retake) else EnterAbort(l, a, false)
    case Retake =>
      if answer then Proc(RemoveEntry(Finalizing), l.(locked := true), a) else EnterAbort(l, a, false)
    case RemoveEntry(g) => r.(pc := if answer then SyncRemoval(g) else RestoreProbe(g))
    case SyncRemoval(g) =>
      if !answer then r.(pc := RestoreProbe(g))
      else r.(pc := if g == Finalizing then Release else AbortRelease(true, true))
    case Release =>
      if answer then Proc(Accepted, l.(locked := false, reserved := false, closed := true), a)
      else r.(pc := RestoreProbe(Finalizing))
    case RestoreProbe(g) => r.(pc := if answer then SyncOld(g) else MakeEntry(g))
    case SyncOld(g) => Raise(if answer then Restored(l) else Unsure(l), a, g)
    case AbortRelease(removed, requested) =>
      if !answer then r.(pc := if removed then RestoreProbe(Aborting) else FailClosed)
      else Proc(if requested then Rejected else FailClosed, Closed(l, removed), a)
    case Working(_) | Publishing | Refused | Accepted | Rejected | FailClosed | Dead => r
  }

  function Closed(l: Lease, removed: bool): Lease {
    var c := l.(locked := false, closed := true);
    if removed then c.(reserved := false, uncertain := false) else c
  }

  /**
   The controller's own moves: children start and end, the run proceeds to publication, or an
   exception enters the failure path. A failure with a child running never removes the reservation.
   */
  function AfterDecision(r: Proc, d: Decision): Proc {
    match (r.pc, d)
    case (Working(false), StartChild) => r.(pc := Working(true))
    case (Working(true), EndChild) => r.(pc := Working(false))
    case (Working(false), Proceed) => r.(pc := Unlock)
    case (Working(child), Fail(remove)) => EnterAbort(r.lease, r.args, remove && !child)
    case (Publishing, Proceed) => r.(pc := Reopen, lease := r.lease.(published := true))
    case (Publishing, Fail(_)) => EnterAbort(r.lease, r.args, false)
    case _ => r
  }

  predicate Returned(pc: Pc) { pc.Refused? || pc.Accepted? || pc.Rejected? }

  /** The kernel drops a dead process's lock; results already returned stay returned. */
  function Killed(r: Proc): Proc {
    if Returned(r.pc) then r else r.(pc := Dead, lease := r.lease.(locked := false))
  }

  // ----- the whole host -----

  function Apply(s: State, e: Event): State {
    match e
    case Call(p, reply) =>
      if p !in s.procs then s
      else
        var r := s.procs[p];
        var answer := Answer(s.host, p, r.pc, reply);
        State(HostAfter(s.host, p, r.pc, answer), s.procs[p := AfterCall(r, answer, reply.more)])
    case Decide(p, d) =>
      if p !in s.procs then s else s.(procs := s.procs[p := AfterDecision(s.procs[p], d)])
    case Die(p) =>
      if p !in s.procs then s
      else State(LetGo(s.host, p), s.procs[p := Killed(s.procs[p])])
    case WriteBack => s.(host := s.host.(disk := s.host.entry))
    case Crash =>
      State(Host(Nobody, s.host.disk, s.host.disk),
            map p | p in s.procs :: if s.procs[p].pc == Probe then s.procs[p] else Killed(s.procs[p]))
  }

  ghost predicate Init(s: State) {
    && s.host == Host(Nobody, Nobody, Nobody)
    && forall p | p in s.procs :: s.procs[p].pc == Probe && s.procs[p].lease == FRESH
  }

  /** A probe under the lock does not miss a standing reservation; any other probe may err. */
  predicate Truthful(h: Host, pc: Pc, reply: Reply) {
    pc == Recheck && h.entry != Nobody ==> !reply.blind
  }

  predicate Honest(s: State, e: Event) {
    e.Call? && e.pid in s.procs ==> Truthful(s.host, s.procs[e.pid].pc, e.reply)
  }

  /** A run: any interleaving of events from an initial host. */
  ghost predicate IsRun(ss: seq<State>, es: seq<Event>) {
    && |ss| == |es| + 1
    && Init(ss[0])
    && forall i {:trigger es[i]} | 0 <= i < |es| :: ss[i + 1] == Apply(ss[i], es[i])
  }

  /** No probe under the lock misses a standing reservation in the first `n` steps. */
  ghost predicate HonestUntil(ss: seq<State>, es: seq<Event>, n: nat)
    requires n <= |es| < |ss|
  {
    forall i | 0 <= i < n :: Honest(ss[i], es[i])
  }

  // ----- the invariant -----

  predicate HoldsLock(r: Proc) { r.pc == Recheck || r.lease.locked }

  predicate Ended(pc: Pc) { Returned(pc) || pc.FailClosed? || pc.Dead? }

  /** The entry is this lease's own and survives a crash. */
  predicate Durable(h: Host, p: Pid) { h.entry == By(p) && h.disk == By(p) }

  predicate Gone(h: Host) { h.entry == Nobody && h.disk == Nobody }

  predicate NotOthers(h: Host, p: Pid) { h.entry == Nobody || h.entry == By(p) }

  /** The flags of a lease that writes, removes or restores its reservation under the lock. */
  function During(g: Stage, uncertain: bool): Lease {
    Lease(true, g != Creating, g == Finalizing, false, uncertain)
  }

  /** The flags of a lease at each program point. */
  predicate FlagsOk(r: Proc) {
    var l := r.lease;
    match r.pc
    case Probe | OpenLock | TakeLock | Recheck | Refused => l == FRESH
    case MakeEntry(_) | WriteEntry(_) | SyncEntry(_) | SyncNew(_) => l == During(r.pc.stage, false)
    case DropPartial(g) => l == During(g, true)
    case DropEntry => l == During(Creating, true)
    case Working(_) | Unlock => l == FRESH.(locked := true, reserved := true)
    case Publishing => l == FRESH.(reserved := true)
    case Reopen | Retake => l == FRESH.(reserved := true, published := true)
    case RemoveEntry(_) | SyncRemoval(_) | RestoreProbe(_) | SyncOld(_) =>
      r.pc.stage != Creating && l == During(r.pc.stage, false)
    case Release => l == During(Finalizing, false)
    case AbortRelease(removed, requested) =>
      removed == requested &&
      if removed then l == During(Aborting, false)
      else l.locked && !l.uncertain && !l.closed && (WellFormed(r.args) ==> l.reserved)
    case Accepted | Rejected => !l.locked && l.closed && !l.uncertain && !l.reserved
    case FailClosed => l.locked <==> !l.closed
    case Dead => !l.locked
  }

  /** What a lease at each program point knows about the reservation. */
  predicate EntryOk(h: Host, p: Pid, r: Proc) {
    match r.pc
    case Probe | OpenLock | TakeLock | Recheck | Refused | Accepted | Rejected =>
      h.entry != By(p) && h.disk != By(p)
    case MakeEntry(g) => if g == Creating then h.entry == Nobody else NotOthers(h, p)
    case SyncRemoval(_) => h.entry == Nobody
    case WriteEntry(_) | SyncEntry(_) | SyncNew(_) | DropPartial(_) | SyncOld(_) => h.entry == By(p)
    case DropEntry | RestoreProbe(_) => NotOthers(h, p)
    case Working(_) | Unlock | Publishing | Reopen | Retake | RemoveEntry(_) => Durable(h, p)
    case Release => Gone(h)
    case AbortRelease(removed, _) =>
      if removed then Gone(h) else if r.lease.reserved then Durable(h, p) else h.entry == Nobody
    case FailClosed =>
      if r.lease.locked then NotOthers(h, p) else WellFormed(r.args) ==> Durable(h, p)
    case Dead => true
  }

  predicate ProcOk(h: Host, p: Pid, r: Proc) {
    (h.lock == By(p) <==> HoldsLock(r)) && FlagsOk(r) && EntryOk(h, p, r)
  }

  predicate Holds(s: State, p: Pid) {
    p in s.procs ==> ProcOk(s.host, p, s.procs[p])
  }

  predicate Known(s: State, o: Owner) { o.By? ==> o.pid in s.procs }

  ghost predicate Inv(s: State) {
    && Known(s, s.host.lock) && Known(s, s.host.entry) && Known(s, s.host.disk)
    && forall p: Pid :: Holds(s, p)
  }

  // ----- preservation -----

  /** A process's own system call keeps its own part of the invariant. */
  ghost predicate OwnKept(h: Host, p: Pid, r: Proc, reply: Reply) {
    var answer := Answer(h, p, r.pc, reply);
    ProcOk(HostAfter(h, p, r.pc, answer), p, AfterCall(r, answer, reply.more))
  }

  lemma OwnAcquire(h: Host, p: Pid, r: Proc, reply: Reply)
    requires ProcOk(h, p, r) && Truthful(h, r.pc, reply) && Outside(r.pc)
    ensures OwnKept(h, p, r, reply)
  {
  }

  lemma OwnMake(h: Host, p: Pid, r: Proc, reply: Reply)
    requires ProcOk(h, p, r) && r.pc.MakeEntry?
    ensures OwnKept(h, p, r, reply)
  {
  }

  lemma OwnDrop(h: Host, p: Pid, r: Proc, reply: Reply)
    requires ProcOk(h, p, r) && (r.pc.DropPartial? || r.pc.DropEntry?)
    ensures OwnKept(h, p, r, reply)
  {
  }

  lemma OwnWrite(h: Host, p: Pid, r: Proc, reply: Reply)
    requires ProcOk(h, p, r)
    requires r.pc.MakeEntry? || r.pc.WriteEntry? || r.pc.SyncEntry? || r.pc.DropPartial? || r.pc.DropEntry?
    ensures OwnKept(h, p, r, reply)
  {
    if r.pc.MakeEntry? {
      OwnMake(h, p, r, reply);
    } else if r.pc.DropPartial? || r.pc.DropEntry? {
      OwnDrop(h, p, r, reply);
    }
  }

  lemma OwnSyncNew(h: Host, p: Pid, r: Proc, reply: Reply)
    requires ProcOk(h, p, r) && r.pc.SyncNew?
    ensures OwnKept(h, p, r, reply)
  {
    var answer := Answer(h, p, r.pc, reply);
    assert HostAfter(h, p, r.pc, answer) == if answer then h.(disk := h.entry) else h;
    var t := AfterCall(r, answer, reply.more);
    if !answer {
      assert t == Proc(FailClosed, Unsure(r.lease), r.args);
    } else if r.pc.stage == Creating {
      assert t == Proc(Working(false), Restored(r.lease), r.args);
    } else {
      assert t == r.(pc := if r.pc.stage == Aborting then FailClosed else AbortRelease(false, false));
    }
  }

  lemma OwnSyncOld(h: Host, p: Pid, r: Proc, reply: Reply)
    requires ProcOk(h, p, r) && r.pc.SyncOld?
    ensures OwnKept(h, p, r, reply)
  {
    var answer := Answer(h, p, r.pc, reply);
    assert HostAfter(h, p, r.pc, answer) == if answer then h.(disk := h.entry) else h;
  }

  lemma OwnRemove(h: Host, p: Pid, r: Proc, reply: Reply)
    requires ProcOk(h, p, r) && (r.pc.RemoveEntry? || r.pc.SyncRemoval?)
    ensures OwnKept(h, p, r, reply)
  {
  }

  lemma OwnRelease(h: Host, p: Pid, r: Proc, reply: Reply)
    requires ProcOk(h, p, r) && (r.pc.Release? || r.pc.RestoreProbe?)
    ensures OwnKept(h, p, r, reply)
  {
  }

  lemma OwnAbort(h: Host, p: Pid, r: Proc, reply: Reply)
    requires ProcOk(h, p, r) && r.pc.AbortRelease?
    ensures OwnKept(h, p, r, reply)
  {
  }

  lemma OwnPublish(h: Host, p: Pid, r: Proc, reply: Reply)
    requires ProcOk(h, p, r) && (r.pc.Reopen? || r.pc.Retake?)
    ensures OwnKept(h, p, r, reply)
  {
  }

  lemma OwnUnlock(h: Host, p: Pid, r: Proc, reply: Reply)
    requires ProcOk(h, p, r) && r.pc.Unlock?
    ensures OwnKept(h, p, r, reply)
  {
  }

  /** A process that waits for a decision, or has ended, makes no system call. */
  lemma OwnIdle(h: Host, p: Pid, r: Proc, reply: Reply)
    requires ProcOk(h, p, r)
    requires r.pc.Working? || r.pc.Publishing? || Ended(r.pc)
    ensures OwnKept(h, p, r, reply)
  {
    var answer := Answer(h, p, r.pc, reply);
    assert HostAfter(h, p, r.pc, answer) == h;
    assert AfterCall(r, answer, reply.more) == r;
  }

  lemma OwnCall(h: Host, p: Pid, r: Proc, reply: Reply)
    requires ProcOk(h, p, r) && Truthful(h, r.pc, reply)
    ensures OwnKept(h, p, r, reply)
  {
    match r.pc
    case Probe | OpenLock | TakeLock | Recheck => OwnAcquire(h, p, r, reply);
    case MakeEntry(_) | WriteEntry(_) | SyncEntry(_) | DropPartial(_) | DropEntry => OwnWrite(h, p, r, reply);
    case SyncNew(_) => OwnSyncNew(h, p, r, reply);
    case SyncOld(_) => OwnSyncOld(h, p, r, reply);
    case RemoveEntry(_) | SyncRemoval(_) => OwnRemove(h, p, r, reply);
    case Release | RestoreProbe(_) => OwnRelease(h, p, r, reply);
    case AbortRelease(_, _) => OwnAbort(h, p, r, reply);
    case Unlock => OwnUnlock(h, p, r, reply);
    case Reopen | Retake => OwnPublish(h, p, r, reply);
    case _ => OwnIdle(h, p, r, reply);
  }

  lemma OwnDecision(h: Host, p: Pid, r: Proc, d: Decision)
    requires ProcOk(h, p, r)
    ensures ProcOk(h, p, AfterDecision(r, d))
  {
  }

  /** A process's system call keeps every other process's part of the invariant. */
  lemma ForeignCall(h: Host, p: Pid, r: Proc, reply: Reply, q: Pid, other: Proc)
    requires p != q && ProcOk(h, p, r) && ProcOk(h, q, other) && Truthful(h, r.pc, reply)
    ensures ProcOk(HostAfter(h, p, r.pc, Answer(h, p, r.pc, reply)), q, other)
  {
  }

  lemma CallKeepsInv(s: State, p: Pid, reply: Reply)
    requires Inv(s) && p in s.procs && Truthful(s.host, s.procs[p].pc, reply)
    ensures Inv(Apply(s, Call(p, reply)))
  {
    var t := Apply(s, Call(p, reply));
    assert Holds(s, p);
    forall q: Pid
      ensures Holds(t, q)
    {
      if p == q {
        OwnCall(s.host, p, s.procs[p], reply);
      } else if q in s.procs {
        assert Holds(s, q);
        ForeignCall(s.host, p, s.procs[p], reply, q, s.procs[q]);
      }
    }
  }

  lemma DecisionKeepsInv(s: State, p: Pid, d: Decision)
    requires Inv(s) && p in s.procs
    ensures Inv(Apply(s, Decide(p, d)))
  {
    var t := Apply(s, Decide(p, d));
    forall q: Pid
      ensures Holds(t, q)
    {
      assert Holds(s, q);
      if p == q { OwnDecision(s.host, p, s.procs[p], d); }
    }
  }

  lemma OtherDeath(h: Host, p: Pid, q: Pid, r: Proc)
    requires ProcOk(h, q, r) && p != q
    ensures ProcOk(LetGo(h, p), q, r)
  {
    assert LetGo(h, p) == h || LetGo(h, p) == h.(lock := Nobody);
  }

  lemma OwnDeath(h: Host, p: Pid, r: Proc)
    requires ProcOk(h, p, r)
    ensures ProcOk(LetGo(h, p), p, Killed(r))
  {
  }

  lemma WriteBackKeepsProc(h: Host, q: Pid, r: Proc)
    requires ProcOk(h, q, r)
    ensures ProcOk(h.(disk := h.entry), q, r)
  {
  }

  lemma CrashKeepsProc(h: Host, q: Pid, r: Proc)
    requires ProcOk(h, q, r)
    ensures ProcOk(Host(Nobody, h.disk, h.disk), q, if r.pc == Probe then r else Killed(r))
  {
  }

  lemma DeathKeepsInv(s: State, p: Pid)
    requires Inv(s) && p in s.procs
    ensures Inv(Apply(s, Die(p)))
  {
    var t := Apply(s, Die(p));
    forall q: Pid
      ensures Holds(t, q)
    {
      assert Holds(s, q);
      if q == p {
        OwnDeath(s.host, p, s.procs[p]);
      } else if q in s.procs {
        OtherDeath(s.host, p, q, s.procs[q]);
      }
    }
  }

  lemma WriteBackKeepsInv(s: State)
    requires Inv(s)
    ensures Inv(Apply(s, WriteBack))
  {
    var t := Apply(s, WriteBack);
    forall q: Pid
      ensures Holds(t, q)
    {
      assert Holds(s, q);
      if q in s.procs { WriteBackKeepsProc(s.host, q, s.procs[q]); }
    }
  }

  lemma CrashKeepsInv(s: State)
    requires Inv(s)
    ensures Inv(Apply(s, Crash))
  {
    var t := Apply(s, Crash);
    forall q: Pid
      ensures Holds(t, q)
    {
      assert Holds(s, q);
      if q in s.procs { CrashKeepsProc(s.host, q, s.procs[q]); }
    }
  }

  /** Every event with truthful probes keeps the invariant. */
  lemma StepKeepsInv(s: State, e: Event)
    requires Inv(s) && Honest(s, e)
    ensures Inv(Apply(s, e))
  {
    match e
    case Call(p, reply) => if p in s.procs { CallKeepsInv(s, p, reply); }
    case Decide(p, d) => if p in s.procs { DecisionKeepsInv(s, p, d); }
    case Die(p) => if p in s.procs { DeathKeepsInv(s, p); }
    case WriteBack => WriteBackKeepsInv(s);
    case Crash => CrashKeepsInv(s);
  }
}
