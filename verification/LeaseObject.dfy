/**
 The lease object of one process: the code of `ExclusiveRun`, statement by statement, run on a
 host where every other process may act before each system call. Each method is proved to make
 exactly the machine's moves, so every fact the machine keeps holds of the running code.
 */
module LeaseObject {
  import opened Reservation
  import opened Protocol

  /** A system call of the lease and the host's answer: success, or for a probe, "exists". */
  datatype Asked = Asked(call: Pc, answer: bool)

  /** The answer a run hopes for: no reservation to the probes of `acquire`, success to every other call. */
  predicate Good(a: Asked) {
    if a.call.Probe? || a.call.Recheck? then !a.answer else a.answer
  }

  /** Every call after these was answered as hoped for. */
  predicate Smooth(before: seq<Asked>, after: seq<Asked>) {
    before <= after && forall i | |before| <= i < |after| :: Good(after[i])
  }

  /** The calls after these were answered as hoped for exactly when `ok`, counted from any earlier point. */
  ghost predicate Went(before: seq<Asked>, after: seq<Asked>, ok: bool) {
    before <= after && forall first | first <= before :: Smooth(first, after) <==> Smooth(first, before) && ok
  }

  lemma OneCall(calls: seq<Asked>, a: Asked)
    ensures Went(calls, calls + [a], Good(a))
  {
    forall first | first <= calls
      ensures Smooth(first, calls + [a]) <==> Smooth(first, calls) && Good(a)
    {
      assert (calls + [a])[|calls|] == a;
      assert forall i | 0 <= i < |calls| :: (calls + [a])[i] == calls[i];
    }
  }

  lemma StaysRough(before: seq<Asked>, mid: seq<Asked>, after: seq<Asked>)
    requires Went(before, mid, false) && mid <= after
    ensures Went(before, after, false)
  {
    forall first | first <= before
      ensures !Smooth(first, after)
    {
      assert !Smooth(first, mid);
      var i :| |first| <= i < |mid| && !Good(mid[i]);
      assert after[i] == mid[i];
    }
  }

  lemma FollowsLater(before: seq<Asked>, mid: seq<Asked>, after: seq<Asked>, stage: Stage, ok: bool)
    requires Went(before, mid, true) && RestoreFollows(mid, after, stage, ok)
    ensures RestoreFollows(before, after, stage, ok)
  {
    var failed :| Went(mid, failed, false) && RestoreWent(failed, after, stage, ok);
    assert Went(before, failed, false);
  }

  lemma WentSmooth(before: seq<Asked>, after: seq<Asked>, ok: bool)
    requires Went(before, after, ok)
    ensures Smooth(before, after) <==> ok
  {
    assert Smooth(before, before);
  }

  /** The reservation was probed for, and the calls after the probe were answered as hoped for exactly when `ok`. */
  ghost predicate RestoreWent(before: seq<Asked>, after: seq<Asked>, stage: Stage, ok: bool) {
    exists present :: Went(before + [Asked(RestoreProbe(stage), present)], after, ok)
  }

  /** Some call failed, and a restore followed it. */
  ghost predicate RestoreFollows(before: seq<Asked>, after: seq<Asked>, stage: Stage, ok: bool) {
    exists failed :: Went(before, failed, false) && RestoreWent(failed, after, stage, ok)
  }

  function Yes(call: Pc): Asked { Asked(call, true) }

  /** The host as process `me` meets it, and the calls that `me` has made. */
  class World {
    var s: State
    ghost var calls: seq<Asked>
    const me: Pid

    constructor (s: State, me: Pid)
      requires Inv(s) && me in s.procs
      ensures this.s == s && this.me == me && Valid() && calls == []
    {
      this.s, this.me, calls := s, me, [];
    }

    ghost predicate Valid()
      reads this
    {
      Inv(s) && me in s.procs
    }

    function Self(): Proc
      requires me in s.procs
      reads this
    {
      s.procs[me]
    }

    /** An event that is not a move of this process: another's move or death, or a write-back. */
    predicate Foreign(e: Event)
      reads this
    {
      match e
      case Call(p, _) => p != me && Honest(s, e)
      case Decide(p, _) => p != me
      case Die(p) => p != me
      case WriteBack => true
      case Crash => false
    }

    /** Any number of foreign events, in any order. */
    method Interfere()
      requires Valid()
      modifies this`s
      ensures Valid() && Self() == old(Self())
    {
      var n: nat := *;
      while n > 0
        invariant Valid() && Self() == old(Self())
      {
        var e: Event := *;
        if Foreign(e) {
          StepKeepsInv(s, e);
          s := Apply(s, e);
        }
        n := n - 1;
      }
    }

    /**
     The pending system call, answered as the host and the kernel please. Probes may err, except
     that the one under the lock does not miss a standing reservation.
     */
    method Sys() returns (answer: bool)
      requires Valid() && !Self().pc.WriteEntry?
      modifies this
      ensures Valid() && Self() == AfterCall(old(Self()), answer, false)
      ensures calls == old(calls) + [Asked(old(Self()).pc, answer)]
      ensures Went(old(calls), calls, Good(Asked(old(Self()).pc, answer)))
    {
      ghost var asked := Self().pc;
      Interfere();
      var ok: bool := *;
      var blind: bool := *;
      if !Truthful(s.host, Self().pc, Reply(ok, false, blind)) { blind := false; }
      var reply := Reply(ok, false, blind);
      answer := Answer(s.host, me, Self().pc, reply);
      CallKeepsInv(s, me, reply);
      s := Apply(s, Call(me, reply));
      OneCall(calls, Asked(asked, answer));
      calls := calls + [Asked(asked, answer)];
    }

    /** One `write` of up to `remaining` bytes; zero is no progress or an error. */
    method Write(remaining: nat) returns (count: nat)
      requires Valid() && Self().pc.WriteEntry? && remaining > 0
      modifies this
      ensures Valid() && count <= remaining
      ensures Self() == AfterCall(old(Self()), count > 0, count < remaining)
      ensures calls == old(calls) + [Asked(old(Self()).pc, count > 0)]
      ensures Went(old(calls), calls, count > 0)
    {
      ghost var asked := Self().pc;
      Interfere();
      count := *;
      if count > remaining { count := remaining; }
      var reply := Reply(count > 0, count < remaining, false);
      CallKeepsInv(s, me, reply);
      s := Apply(s, Call(me, reply));
      OneCall(calls, Asked(asked, count > 0));
      calls := calls + [Asked(asked, count > 0)];
    }

    /** A move of the controller itself. */
    method Decide(d: Decision)
      requires Valid()
      modifies this`s
      ensures Valid() && Self() == AfterDecision(old(Self()), d)
    {
      DecisionKeepsInv(s, me, d);
      s := Apply(s, Event.Decide(me, d));
    }
  }

  /** The calls of a completed removal at publication, and at a failure without doubt. */
  const FINALIZATION: seq<Asked> :=
    [Yes(Reopen), Yes(Retake), Yes(RemoveEntry(Finalizing)), Yes(SyncRemoval(Finalizing)), Yes(Release)]
  const REMOVAL: seq<Asked> :=
    [Yes(RemoveEntry(Aborting)), Yes(SyncRemoval(Aborting)), Yes(AbortRelease(true, true))]

  /** All calls after these were writes. */
  predicate Writes(before: seq<Asked>, after: seq<Asked>, stage: Stage) {
    before <= after && forall i | |before| <= i < |after| :: after[i].call == WriteEntry(stage)
  }

  /** The file was created, filled and synced by the calls after these. */
  predicate Filled(before: seq<Asked>, after: seq<Asked>, stage: Stage) {
    && |before| + 2 < |after| && before + [Yes(MakeEntry(stage))] <= after
    && Writes(before + [Yes(MakeEntry(stage))], after[..|after| - 1], stage)
    && after[|after| - 1] == Yes(SyncEntry(stage))
  }

  /** Whether an abort that keeps the reservation gives the lock up: only with the path certain. */
  predicate Releases(l: Lease) { l.locked && !l.uncertain }

  class ExclusiveRun {
    const w: World
    /** What the controller passes to `create_reservation`. */
    const args: Args
    /** The object's own flags. */
    var flags: Lease

    constructor (w: World)
      requires w.Valid() && w.Self().pc == Probe
      ensures this.w == w && Coherent() && At(Probe) && flags == FRESH && args == w.Self().args
    {
      this.w, this.args := w, w.s.procs[w.me].args;
      flags := FRESH;
      new;
      assert Holds(w.s, w.me);
    }

    ghost predicate Coherent()
      reads this, w
    {
      w.Valid() && w.Self().args == args
    }

    /** The next system call or decision is `pc`, and the object's flags are the machine's. */
    ghost predicate At(pc: Pc)
      requires w.me in w.s.procs
      reads this, w
    {
      w.Self() == Proc(pc, flags, args)
    }

    /** The code has raised: the machine stands where `abort(remove)` begins with these flags. */
    ghost predicate Failed(remove: bool)
      requires w.me in w.s.procs
      reads this, w
    {
      w.Self() == EnterAbort(flags, args, remove)
    }

    /** A restore has raised, out of `abort` or into the controller's failure path. */
    ghost predicate Raised(stage: Stage, l: Lease)
      requires w.me in w.s.procs
      reads this, w
    {
      w.Self() == Raise(l, args, stage)
    }

    method Acquire() returns (ok: bool)
      requires Coherent() && At(Probe)
      modifies this, w
      ensures Coherent()
      ensures !ok ==> At(Refused)
      ensures ok ==> flags == FRESH.(locked := true)
      ensures ok ==> if WellFormed(args) then At(MakeEntry(Creating)) else Failed(false)
      ensures Went(old(w.calls), w.calls, ok)
      ensures ok ==> w.calls == old(w.calls) + [Asked(Probe, false), Yes(OpenLock), Yes(TakeLock), Asked(Recheck, false)]
      ensures |w.calls| <= |old(w.calls)| + 4
    {
      assert Holds(w.s, w.me);
      if flags.closed || flags.locked { return false; }
      var present := w.Sys();
      if present { return false; }
      var fd := w.Sys();
      if !fd { return false; }
      var taken := w.Sys();
      if !taken { return false; }
      present := w.Sys();
      if present { return false; }
      flags := flags.(locked := true);
      return true;
    }

    /** The write loop: every successful write makes progress. */
    method WriteAll(stage: Stage) returns (ok: bool)
      requires Coherent() && At(WriteEntry(stage))
      modifies w
      ensures Coherent()
      ensures ok ==> At(SyncEntry(stage))
      ensures !ok ==> w.Self() == Proc(DropPartial(stage), Unsure(flags), args)
      ensures Went(old(w.calls), w.calls, ok)
      ensures Writes(old(w.calls), w.calls, stage) && w.calls != old(w.calls)
    {
      var raw := Raw(args);
      var written := 0;
      while written < |raw|
        invariant Coherent() && written <= |raw|
        invariant At(if written < |raw| then WriteEntry(stage) else SyncEntry(stage))
        invariant Went(old(w.calls), w.calls, true)
        invariant Writes(old(w.calls), w.calls, stage) && (written > 0 ==> w.calls != old(w.calls))
      {
        var count := w.Write(|raw| - written);
        if count == 0 { return false; }
        written := written + count;
      }
      return true;
    }

    /** Creates and fills the file; on failure the machine already counts the path as uncertain. */
    method WriteReservationFile(stage: Stage) returns (ok: bool)
      requires Coherent() && At(MakeEntry(stage))
      modifies this, w
      ensures Coherent() && (flags == old(flags) || flags == Unsure(old(flags)))
      ensures ok ==> flags == old(flags) && At(SyncNew(stage))
      ensures !ok && stage == Creating ==> w.Self() == Proc(DropEntry, Unsure(flags), args)
      ensures !ok && stage != Creating ==> Raised(stage, Unsure(flags))
      ensures Went(old(w.calls), w.calls, ok)
      ensures ok ==> Filled(old(w.calls), w.calls, stage)
    {
      var created := w.Sys();
      if !created { return false; }
      ok := WriteAll(stage);
      if ok { ok := w.Sys(); }
      if !ok {
        flags := Unsure(flags);
        var _ := w.Sys();
      }
    }

    /** The reservation is on disk again, or the path stays uncertain; either way the caller raises. */
    method RestoreReservation(stage: Stage)
      requires Coherent() && At(RestoreProbe(stage)) && stage != Creating
      modifies this, w
      ensures Coherent() && Raised(stage, flags)
      ensures flags == Restored(old(flags)) || flags == Unsure(old(flags))
      ensures old(w.calls) <= w.calls && RestoreWent(old(w.calls), w.calls, stage, !flags.uncertain)
    {
      var present := w.Sys();
      ghost var probed := w.calls;
      var ok;
      if present {
        ok := w.Sys();
      } else {
        ok := WriteReservationFile(stage);
        if ok { ok := w.Sys(); }
      }
      assert Raised(stage, if ok then Restored(flags) else Unsure(flags));
      flags := if ok then Restored(flags) else Unsure(flags);
      assert Went(probed, w.calls, ok);
    }

    method CreateReservation() returns (ok: bool)
      requires Coherent() && flags == FRESH.(locked := true)
      requires if WellFormed(args) then At(MakeEntry(Creating)) else Failed(false)
      modifies this, w
      ensures Coherent()
      ensures ok ==> flags == FRESH.(locked := true, reserved := true) && At(Working(false))
      ensures !ok ==> Failed(false)
      ensures ok ==> WellFormed(args)
      ensures Went(old(w.calls), w.calls, ok || !WellFormed(args))
      ensures !WellFormed(args) ==> w.calls == old(w.calls)
      ensures ok ==> w.calls != [] && Filled(old(w.calls), w.calls[..|w.calls| - 1], Creating)
      ensures ok ==> w.calls[|w.calls| - 1] == Yes(SyncNew(Creating))
    {
      if !flags.locked || flags.reserved { return false; }
      if !WellFormed(args) { return false; }
      ok := WriteReservationFile(Creating);
      if !ok {
        flags := Unsure(flags);
        var _ := w.Sys();
        return false;
      }
      ok := w.Sys();
      flags := if ok then Restored(flags) else Unsure(flags);
    }

    method ReleaseLockForPublication() returns (ok: bool)
      requires Coherent() && At(Working(false)) && flags == FRESH.(locked := true, reserved := true)
      modifies this, w
      ensures Coherent()
      ensures ok ==> flags == FRESH.(reserved := true) && At(Publishing)
      ensures !ok ==> flags == old(flags) && Failed(false)
      ensures Went(old(w.calls), w.calls, ok)
      ensures w.calls == old(w.calls) + [Asked(Protocol.Unlock, ok)]
    {
      if !flags.locked || !flags.reserved { return false; }
      w.Decide(Proceed);
      ok := w.Sys();
      if ok { flags := flags.(locked := false); }
    }

    method MarkPublished() returns (ok: bool)
      requires Coherent() && At(Publishing) && flags == FRESH.(reserved := true)
      modifies this, w
      ensures Coherent() && ok
      ensures flags == FRESH.(reserved := true, published := true) && At(Reopen)
      ensures w.calls == old(w.calls)
    {
      if flags.locked || !flags.reserved || flags.published { return false; }
      flags := flags.(published := true);
      w.Decide(Proceed);
      return true;
    }

    method AcquireFinalizationLock() returns (ok: bool)
      requires Coherent() && At(Reopen) && flags == FRESH.(reserved := true, published := true)
      modifies this, w
      ensures Coherent()
      ensures ok ==> flags == During(Finalizing, false) && At(RemoveEntry(Finalizing))
      ensures !ok ==> flags == old(flags) && Failed(false)
      ensures Went(old(w.calls), w.calls, ok)
      ensures ok ==> w.calls == old(w.calls) + [Yes(Reopen), Yes(Retake)]
    {
      if flags.closed || flags.locked { return false; }
      var fd := w.Sys();
      if !fd { return false; }
      ok := w.Sys();
      if ok { flags := flags.(locked := true); }
    }

    /** Unlinks the reservation and syncs its directory; a failure restores it and raises. */
    method RemoveReservation(stage: Stage) returns (ok: bool)
      requires Coherent() && At(RemoveEntry(stage)) && stage != Creating && flags == During(stage, false)
      modifies this, w
      ensures Coherent()
      ensures ok ==> flags == old(flags) && At(if stage == Finalizing then Release else AbortRelease(true, true))
      ensures !ok ==> Raised(stage, flags) && flags.locked
      ensures Went(old(w.calls), w.calls, ok)
      ensures ok ==> w.calls == old(w.calls) + [Yes(RemoveEntry(stage)), Yes(SyncRemoval(stage))]
      ensures !ok ==> RestoreFollows(old(w.calls), w.calls, stage, !flags.uncertain)
    {
      ok := w.Sys();
      if ok { ok := w.Sys(); }
      if !ok {
        ghost var failed := w.calls;
        RestoreReservation(stage);
        StaysRough(old(w.calls), failed, w.calls);
      }
    }

    method FinalizePublication() returns (ok: bool)
      requires Coherent() && At(Reopen) && flags == FRESH.(reserved := true, published := true)
      modifies this, w
      ensures Coherent()
      ensures ok ==> At(Accepted)
      ensures !ok ==> Failed(false)
      ensures Went(old(w.calls), w.calls, ok)
      ensures ok ==> w.calls == old(w.calls) + FINALIZATION
      ensures !ok && flags.locked ==> RestoreFollows(old(w.calls), w.calls, Finalizing, !flags.uncertain)
    {
      if !flags.published || !flags.reserved { return false; }
      ok := AcquireFinalizationLock();
      if !ok { return; }
      ghost var retaken := w.calls;
      ok := RemoveReservation(Finalizing);
      if !ok {
        FollowsLater(old(w.calls), retaken, w.calls, Finalizing, !flags.uncertain);
        return;
      }
      ok := w.Sys();
      if !ok {
        ghost var failed := w.calls;
        RestoreReservation(Finalizing);
        StaysRough(old(w.calls), failed, w.calls);
        return;
      }
      flags := flags.(locked := false, reserved := false, closed := true);
    }

    /** Brings the machine from the controller's failure to the start of `abort`. */
    method EnterFailure(remove: bool)
      requires Coherent()
      requires || At(Working(false)) || (At(Working(true)) && !remove)
               || (At(Publishing) && !remove) || (Failed(false) && !remove)
      modifies w
      ensures Coherent() && Failed(remove)
      ensures w.calls == old(w.calls)
    {
      if w.s.procs[w.me].pc.Working? || w.s.procs[w.me].pc.Publishing? {
        w.Decide(Fail(remove));
      }
    }

    method Abort(remove: bool) returns (ok: bool)
      requires Coherent() && Failed(remove)
      requires remove ==> flags == FRESH.(locked := true, reserved := true)
      modifies this, w
      ensures Coherent()
      ensures w.Self().pc == if ok && remove then Rejected else FailClosed
      ensures remove ==> Went(old(w.calls), w.calls, ok)
      ensures remove && ok ==> w.calls == old(w.calls) + REMOVAL
      ensures remove && !ok ==> RestoreFollows(old(w.calls), w.calls, Aborting, !flags.uncertain)
      ensures !remove && Releases(old(flags)) ==> w.calls == old(w.calls) + [Asked(AbortRelease(false, false), ok)]
      ensures !remove && !Releases(old(flags)) ==> w.calls == old(w.calls)
      ensures !remove && !Releases(old(flags)) ==> (ok <==> !old(flags).locked)
      ensures ok <==> !flags.locked
    {
      var removed := false;
      if remove && flags.reserved {
        if !flags.locked { return false; }
        removed := RemoveReservation(Aborting);
        if !removed { return false; }
      }
      if flags.locked {
        if flags.uncertain { return false; }
        ok := w.Sys();
        if !ok {
          ghost var failed := w.calls;
          if removed {
            RestoreReservation(Aborting);
            StaysRough(old(w.calls), failed, w.calls);
          }
          return false;
        }
      }
      flags := Closed(flags, removed);
      return true;
    }
  }
}
