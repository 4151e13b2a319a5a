/** The cleanup transaction: the resource ledger and the publication order of one run. */
module Cleanup {

  datatype Kind = Children | Containers | Mounts | Fds | PrivateDirs

  datatype Resource = Resource(kind: Kind, token: string)

  datatype CleanupResult = CleanupResult(
    accepted: bool, failClosed: bool, stagingPresent: bool, outputPresent: bool, reservationPresent: bool)

  datatype Ledger = Ledger(
    resources: set<Resource>, lockHeld: bool, sourceUnchanged: bool, cacheUnchanged: bool,
    staging: bool, reservation: bool, unlocked: bool, output: bool, accepted: bool, failed: bool)

  const OPENED := Ledger({}, true, true, true, false, false, false, false, false, false)

  predicate Live(t: Ledger) { !t.accepted && !t.failed }

  predicate NoResources(t: Ledger) { t.resources == {} && t.sourceUnchanged && t.cacheUnchanged }

  /** How far publication has come: 0 nothing, 1 staged, 2 reserved, 3 unlocked, 4 published, 5 removed. */
  function Progress(t: Ledger): nat {
    if t.output then (if t.reservation then 4 else 5)
    else if t.unlocked then 3
    else if t.reservation then 2
    else if t.staging then 1
    else 0
  }

  /** The only flag combination at each point of the publication order. */
  predicate AtProgress(t: Ledger, n: nat) {
    && t.staging == (1 <= n <= 3)
    && t.reservation == (2 <= n <= 4)
    && t.unlocked == (n >= 3)
    && t.lockHeld == (n < 3)
    && t.output == (n >= 4)
  }

  /**
   What every order of calls keeps: the flags follow the publication order, a staged report has
   no resources and unchanged manifests, and an accepted run has completed all five steps.
   */
  predicate Consistent(t: Ledger) {
    && !(t.accepted && t.failed)
    && (!t.failed ==> Progress(t) <= 5 && AtProgress(t, Progress(t)))
    && (!t.failed && t.staging ==> NoResources(t))
    && (t.accepted ==> Progress(t) == 5 && NoResources(t))
  }

  function Result(t: Ledger): CleanupResult {
    CleanupResult(t.accepted, t.reservation || t.lockHeld, t.staging, t.output, t.reservation)
  }

  class CleanupTransaction {
    var t: Ledger

    constructor ()
      ensures t == OPENED && Consistent(t)
    {
      t := OPENED;
    }

    /** Refused once staged; once the output is published `staging` is down and it is taken again. */
    method Attach(r: Resource) returns (ok: bool)
      requires Consistent(t)
      modifies this
      ensures Consistent(t)
      ensures ok <==> Live(old(t)) && !old(t).staging && r.token != ""
      ensures t == if ok then old(t).(resources := old(t).resources + {r}) else old(t)
    {
      if t.accepted || t.failed || t.staging || r.token == "" { return false; }
      t := t.(resources := t.resources + {r});
      return true;
    }

    method Remove(r: Resource) returns (ok: bool)
      requires Consistent(t)
      modifies this
      ensures Consistent(t)
      ensures ok <==> Live(old(t)) && r in old(t).resources
      ensures t == if ok then old(t).(resources := old(t).resources - {r}) else old(t)
    {
      if t.accepted || t.failed || r !in t.resources { return false; }
      t := t.(resources := t.resources - {r});
      return true;
    }

    /** A manifest once seen changed stays changed. */
    method SetManifestState(sourceUnchanged: bool, cacheUnchanged: bool) returns (ok: bool)
      requires Consistent(t)
      modifies this
      ensures Consistent(t)
      ensures ok <==> Live(old(t)) && !old(t).staging
      ensures t == if ok then old(t).(sourceUnchanged := old(t).sourceUnchanged && sourceUnchanged,
                                      cacheUnchanged := old(t).cacheUnchanged && cacheUnchanged)
                   else old(t)
    {
      if t.accepted || t.failed || t.staging { return false; }
      t := t.(sourceUnchanged := t.sourceUnchanged && sourceUnchanged,
              cacheUnchanged := t.cacheUnchanged && cacheUnchanged);
      return true;
    }

    method StageReport() returns (ok: bool)
      requires Consistent(t)
      modifies this
      ensures Consistent(t)
      ensures ok <==> Live(old(t)) && Progress(old(t)) == 0 && NoResources(old(t))
      ensures t == if ok then old(t).(staging := true) else old(t)
      ensures ok ==> Progress(t) == 1
    {
      if t.accepted || t.failed || !t.lockHeld || t.unlocked || t.staging { return false; }
      if t.resources != {} || !t.sourceUnchanged || !t.cacheUnchanged { return false; }
      t := t.(staging := true);
      return true;
    }

    method CreateReservation() returns (ok: bool)
      requires Consistent(t)
      modifies this
      ensures Consistent(t)
      ensures ok <==> Live(old(t)) && Progress(old(t)) == 1
      ensures t == if ok then old(t).(reservation := true) else old(t)
      ensures ok ==> Progress(t) == 2
    {
      if t.accepted || t.failed || !t.staging || !t.lockHeld || t.reservation { return false; }
      t := t.(reservation := true);
      return true;
    }

    method ReleaseLock() returns (ok: bool)
      requires Consistent(t)
      modifies this
      ensures Consistent(t)
      ensures ok <==> Live(old(t)) && Progress(old(t)) == 2
      ensures t == if ok then old(t).(lockHeld := false, unlocked := true) else old(t)
      ensures ok ==> Progress(t) == 3
    {
      if t.accepted || t.failed || !t.reservation || !t.lockHeld { return false; }
      t := t.(lockHeld := false, unlocked := true);
      return true;
    }

    method PublishOutput() returns (ok: bool)
      requires Consistent(t)
      modifies this
      ensures Consistent(t)
      ensures ok <==> Live(old(t)) && Progress(old(t)) == 3
      ensures t == if ok then old(t).(output := true, staging := false) else old(t)
      ensures ok ==> Progress(t) == 4
    {
      if t.accepted || t.failed || !t.unlocked || !t.reservation || !t.staging || t.output { return false; }
      t := t.(output := true, staging := false);
      return true;
    }

    method RemoveReservation() returns (ok: bool)
      requires Consistent(t)
      modifies this
      ensures Consistent(t)
      ensures ok <==> Live(old(t)) && Progress(old(t)) == 4
      ensures t == if ok then old(t).(reservation := false) else old(t)
      ensures ok ==> Progress(t) == 5
    {
      if t.accepted || t.failed || !t.output || !t.reservation { return false; }
      t := t.(reservation := false);
      return true;
    }

    /** The ledger is checked again: a resource attached after publication refuses acceptance. */
    method Accept() returns (ok: bool, result: CleanupResult)
      requires Consistent(t)
      modifies this
      ensures Consistent(t)
      ensures ok <==> Live(old(t)) && Progress(old(t)) == 5 && NoResources(old(t))
      ensures t == if ok then old(t).(accepted := true) else old(t)
      ensures ok ==> result == CleanupResult(true, false, false, true, false)
    {
      result := Result(t);
      if t.accepted || t.failed { return false, result; }
      if t.resources != {} || !t.sourceUnchanged || !t.cacheUnchanged { return false, result; }
      if !t.output || t.reservation || t.lockHeld { return false, result; }
      t := t.(accepted := true);
      return true, Result(t);
    }

    /**
     A clean abort drops staging, output and lock, and the reservation if it was removed; a failed
     cleanup keeps or installs the reservation before it drops the lock.
     */
    method Abort(cleanupSucceeded: bool, removeSucceeded: bool) returns (ok: bool, result: CleanupResult)
      requires Consistent(t)
      modifies this
      ensures Consistent(t)
      ensures ok <==> Live(old(t)) &&
                      if cleanupSucceeded then old(t).resources == {}
                      else old(t).reservation || old(t).lockHeld
      ensures !ok ==> t == old(t)
      ensures ok && cleanupSucceeded ==> t == old(t).(
                staging := false, output := false, lockHeld := false, unlocked := true, failed := true,
                reservation := old(t).reservation && !removeSucceeded)
      ensures ok && !cleanupSucceeded ==> t == old(t).(
                reservation := true, lockHeld := false, unlocked := true, failed := true)
      ensures result == Result(t)
    {
      result := Result(t);
      if t.accepted || t.failed || (cleanupSucceeded && t.resources != {}) { return false, result; }
      if cleanupSucceeded {
        t := t.(resources := {}, staging := false, output := false);
        if t.reservation && removeSucceeded { t := t.(reservation := false); }
        t := t.(lockHeld := false, unlocked := true);
      } else {
        if !t.reservation {
          if !t.lockHeld { return false, result; }
          t := t.(reservation := true);
        }
        t := t.(lockHeld := false, unlocked := true);
      }
      t := t.(failed := true);
      return true, Result(t);
    }
  }
}
