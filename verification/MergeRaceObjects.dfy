/** The remote and the transaction as objects whose fields change step by step. */
module MergeRaceObjects {
  import opened Common
  import opened FirstParent
  import opened MergeRace

  class DisposableRemote {
    var r: Remote

    /** Refused when a commit is malformed, or the candidate is not a direct child of the base or clashes with it. */
    static method Create(base: Commit, candidate: Commit) returns (remote: DisposableRemote?)
      ensures remote == null <==>
              !WellFormed(base) || !WellFormed(candidate) ||
              candidate.parents != [base.oid] || (candidate.oid == base.oid && candidate != base)
      ensures remote != null ==>
                fresh(remote) && Filed(remote.r) && !remote.r.blocked && remote.r.target == Some(base.oid) &&
                remote.r.commits.Keys == {base.oid, candidate.oid} && remote.r.base == base.oid
    {
      if !WellFormed(base) || !WellFormed(candidate) { return null; }
      if candidate.parents != [base.oid] { return null; }
      if candidate.oid == base.oid && candidate != base { return null; }
      remote := new DisposableRemote(base, candidate);
    }

    constructor (base: Commit, candidate: Commit)
      ensures r == Remote(TARGET_REF, base.oid, map[base.oid := base][candidate.oid := candidate],
                          Some(base.oid), None, None, false, {}, false)
    {
      r := Remote(TARGET_REF, base.oid, map[base.oid := base][candidate.oid := candidate],
                  Some(base.oid), None, None, false, {}, false);
    }

    method AddCommit(c: Commit) returns (ok: bool)
      modifies this
      ensures ok == Takes(old(r), Mutation.AddCommit(c)) && r == Attempted(old(r), Mutation.AddCommit(c))
    {
      if !WellFormed(c) { return false; }
      if c.oid in r.commits && r.commits[c.oid] != c { return false; }
      r := r.(commits := r.commits[c.oid := c]);
      ok := true;
    }

    method ReplaceCommit(c: Commit) returns (ok: bool)
      modifies this
      ensures ok == Takes(old(r), Mutation.ReplaceCommit(c)) && r == Attempted(old(r), Mutation.ReplaceCommit(c))
    {
      if !WellFormed(c) || c.oid !in r.commits { return false; }
      r := r.(commits := r.commits[c.oid := c]);
      ok := true;
    }

    method RemoveCommit(oid: Oid) returns (ok: bool)
      modifies this
      ensures ok == Takes(old(r), Mutation.RemoveCommit(oid)) && r == Attempted(old(r), Mutation.RemoveCommit(oid))
    {
      if !IsHex40(oid) { return false; }
      if oid == r.base || r.target == Some(oid) { return false; }
      r := r.(commits := r.commits - {oid});
      ok := true;
    }

    method SetTarget(target: Option<Oid>) returns (ok: bool)
      modifies this
      ensures ok == Takes(old(r), Mutation.SetTarget(target)) && r == Attempted(old(r), Mutation.SetTarget(target))
    {
      if target.Some? && (!IsHex40(target.value) || target.value !in r.commits) { return false; }
      r := r.(target := target);
      ok := true;
    }

    /** The commit is filed first; a malformed response is refused with the commit already there. */
    method QueueMerge(c: Commit, response: Option<Oid>) returns (ok: bool)
      modifies this
      ensures ok == Takes(old(r), Mutation.QueueMerge(c, response))
      ensures r == Attempted(old(r), Mutation.QueueMerge(c, response))
    {
      ok := AddCommit(c);
      if !ok { return; }
      if response.Some? && !IsHex40(response.value) { return false; }
      r := r.(queued := Some(Queued(c, response)));
    }

    /** The response is what was queued with the merge. */
    method Merge() returns (ok: bool, response: Option<Oid>)
      modifies this
      ensures ok == Takes(old(r), ApplyMerge) && r == Attempted(old(r), ApplyMerge)
      ensures ok ==> response == old(r).queued.value.response
    {
      if r.blocked || r.queued.None? { return false, None; }
      var merge := r.queued.value;
      r := r.(target := Some(merge.commit.oid), lastMerge := Some(merge.commit.oid), queued := None);
      return true, merge.response;
    }

    method SetFetchFailure(oid: Oid, value: bool) returns (ok: bool)
      modifies this
      ensures ok == Takes(old(r), Mutation.SetFetchFailure(oid, value))
      ensures r == Attempted(old(r), Mutation.SetFetchFailure(oid, value))
    {
      ok := IsHex40(oid);
      if !ok { return; }
      if value { r := r.(fetchFails := r.fetchFails + {oid}); }
      else { r := r.(fetchFails := r.fetchFails - {oid}); }
    }

    method Revert(oid: Oid) returns (ok: bool)
      modifies this
      ensures ok == Takes(old(r), Mutation.Revert(oid)) && r == Attempted(old(r), Mutation.Revert(oid))
    {
      if !IsHex40(oid) || r.revertFails || r.target != Some(oid) || r.blocked { return false; }
      r := r.(target := Some(r.base));
      ok := true;
    }

    method SetRevertFailure(value: bool)
      modifies this
      ensures r == Attempted(old(r), Mutation.SetRevertFailure(value))
    {
      r := r.(revertFails := value);
    }

    method MoveRef(ref: string)
      modifies this
      ensures r == Attempted(old(r), Mutation.MoveRef(ref))
    {
      r := r.(ref := ref);
    }

    method Block()
      modifies this
      ensures r == Attempted(old(r), Mutation.Block)
    {
      r := r.(blocked := true);
    }

    /** Any change of the remote, by the method that makes it. */
    method Mutate(m: Mutation)
      modifies this
      ensures r == Attempted(old(r), m)
    {
      match m
      case AddCommit(c) => var _ := AddCommit(c);
      case ReplaceCommit(c) => var _ := ReplaceCommit(c);
      case RemoveCommit(oid) => var _ := RemoveCommit(oid);
      case SetTarget(target) => var _ := SetTarget(target);
      case QueueMerge(c, response) => var _ := QueueMerge(c, response);
      case ApplyMerge => var _, _ := Merge();
      case SetFetchFailure(oid, value) => var _ := SetFetchFailure(oid, value);
      case SetRevertFailure(value) => SetRevertFailure(value);
      case Revert(oid) => var _ := Revert(oid);
      case Block => Block();
      case MoveRef(ref) => MoveRef(ref);
    }

    /** The walk over the objects the remote holds now. */
    method Contains(oid: Oid) returns (s: Search)
      ensures s == Searched(View(r), r.target, oid)
    {
      s := FirstParentContains(View(r), r.target, oid, r.commits.Keys);
    }
  }

  class MergeRaceTransaction {
    const hash: Hash
    const remote: DisposableRemote
    var tx: Tx

    constructor (hash: Hash, remote: DisposableRemote, base: Oid, candidate: Oid, tree: Oid)
      requires Forms(remote.r, base, candidate, tree)
      ensures this.hash == hash && this.remote == remote && tx == Started(base, candidate, tree)
    {
      this.hash, this.remote := hash, remote;
      tx := Started(base, candidate, tree);
    }

    /** Refused unless the remote holds the candidate as a direct child of the base, with the bound tree. */
    static method Create(hash: Hash, remote: DisposableRemote, base: Oid, candidate: Oid, tree: Oid)
      returns (t: MergeRaceTransaction?)
      ensures t != null <==> Forms(remote.r, base, candidate, tree)
      ensures t != null ==> fresh(t) && t.remote == remote && t.tx == Started(base, candidate, tree)
    {
      if remote.r.ref != TARGET_REF || base != remote.r.base { return null; }
      var c := Fetch(remote.r, candidate);
      if c.None? || c.value.parents != [base] || c.value.tree != tree { return null; }
      t := new MergeRaceTransaction(hash, remote, base, candidate, tree);
    }

    ghost function W(): World
      reads this, remote
    {
      World(remote.r, tx)
    }

    method Fail(revert: bool, block: bool)
      modifies this, remote
      ensures W() == Refused(old(W()), revert, block)
    {
      tx := tx.(artifact := None);
      if block {
        remote.Block();
        tx := tx.(phase := Phase.Blocked);
      } else if revert && tx.merge.Some? {
        var ok := remote.Revert(tx.merge.value.oid);
        if ok {
          tx := tx.(phase := Reverted);
        } else {
          remote.Block();
          tx := tx.(phase := Phase.Blocked);
        }
      } else {
        tx := tx.(phase := Rejected);
      }
    }

    method Precheck(local: Oid) returns (ok: bool)
      modifies this, remote
      ensures W() == Acted(hash, old(W()), Action.Precheck(local))
      ensures ok <==> old(tx).phase == New && tx.phase == Prechecked
    {
      if tx.phase != New { return false; }
      if remote.r.ref != TARGET_REF { Fail(false, false); return false; }
      if local != tx.base { Fail(false, false); return false; }
      if remote.r.target != Some(tx.base) { Fail(false, false); return false; }
      tx := tx.(phase := Prechecked);
      ok := true;
    }

    method Merge() returns (ok: bool)
      modifies this, remote
      ensures W() == Acted(hash, old(W()), MergeNow)
      ensures ok <==> old(tx).phase == Prechecked && tx.phase == Merged
    {
      if tx.phase != Prechecked { return false; }
      if remote.r.ref != TARGET_REF { Fail(false, false); return false; }
      if remote.r.target != Some(tx.base) { Fail(false, false); return false; }
      var merged, response := remote.Merge();
      if !merged || response.None? || response != remote.r.lastMerge { Fail(false, true); return false; }
      var c := Fetch(remote.r, response.value);
      if c.None? || c.value.oid != response.value { Fail(false, true); return false; }
      tx := tx.(merge := c, phase := Merged);
      ok := true;
    }

    method VerifyMerge() returns (ok: bool)
      modifies this, remote
      ensures W() == Acted(hash, old(W()), Action.VerifyMerge)
      ensures ok <==> old(tx).phase == Merged && tx.phase == Verified
    {
      if tx.phase != Merged { return false; }
      if tx.merge.None? { Fail(false, true); return false; }
      if tx.merge.value.parents != [tx.base, tx.candidate] { Fail(true, false); return false; }
      if tx.merge.value.tree != tx.tree { Fail(true, false); return false; }
      tx := tx.(phase := Verified);
      ok := true;
    }

    method StoreArtifact(a: Artifact) returns (ok: bool)
      modifies this, remote
      ensures W() == Acted(hash, old(W()), Action.StoreArtifact(a))
      ensures ok <==> old(tx).phase == Verified && tx.phase == Staged
    {
      if tx.phase != Verified { return false; }
      if tx.merge.None? { Fail(false, true); return false; }
      if !Matches(hash, a, tx.merge.value) { Fail(true, false); return false; }
      tx := tx.(artifact := Some(a), phase := Staged);
      ok := true;
    }

    method TamperArtifact(change: Option<Artifact>) returns (ok: bool)
      modifies this, remote
      ensures W() == Acted(hash, old(W()), Tamper(change))
      ensures ok <==> old(tx).phase == Staged && tx.phase == Staged
    {
      if tx.phase != Staged { return false; }
      if tx.artifact.None? || change.None? || !WellSigned(change.value) { Fail(true, false); return false; }
      tx := tx.(artifact := change);
      ok := true;
    }

    method Finalize() returns (ok: bool)
      modifies this, remote
      ensures W() == Acted(hash, old(W()), Action.Finalize)
      ensures ok <==> old(tx).phase == Staged && tx.phase == Accepted
    {
      if tx.phase != Staged { return false; }
      if remote.r.ref != TARGET_REF { Fail(false, false); return false; }
      if tx.merge.None? { Fail(false, true); return false; }
      var retained := remote.Contains(tx.merge.value.oid);
      if retained != Found { Fail(false, false); return false; }
      var final := Fetch(remote.r, tx.merge.value.oid);
      if final.None? { Fail(false, false); return false; }
      if tx.artifact.None? || !Matches(hash, tx.artifact.value, final.value) { Fail(true, false); return false; }
      tx := tx.(phase := Accepted, advanced := true);
      ok := true;
    }

    method Act(a: Action)
      modifies this, remote
      ensures W() == Acted(hash, old(W()), a)
    {
      match a
      case Precheck(local) => var _ := Precheck(local);
      case MergeNow => var _ := Merge();
      case VerifyMerge => var _ := VerifyMerge();
      case StoreArtifact(artifact) => var _ := StoreArtifact(artifact);
      case Tamper(change) => var _ := TamperArtifact(change);
      case Finalize => var _ := Finalize();
    }

    /**
     Any interleaving of calls of the transaction with changes of the remote. The lifecycle has
     advanced exactly when the transaction is accepted, an artifact is kept exactly while it is staged
     or accepted, and a blocked transaction leaves a blocked remote. If nobody altered the artifact,
     an accepted transaction found its verified merge retained at the final call. A merge it holds was
     applied by its own merge call on an unmoved target.
     */
    method Drive(es: seq<Event>)
      requires Filed(remote.r) && tx == Started(tx.base, tx.candidate, tx.tree)
      modifies this, remote
      ensures W() == Run(hash, old(W()), es) && Safe(W()) && SameBinding(old(tx), tx)
      ensures tx.advanced <==> tx.phase == Accepted
      ensures tx.artifact.Some? <==> tx.phase in {Staged, Accepted}
      ensures tx.phase == Phase.Blocked ==> remote.r.blocked
      ensures NoTamper(es) && tx.phase == Accepted ==>
                exists k | 0 <= k < |es| ::
                  es[k] == Locally(Action.Finalize) && RetainedAt(hash, old(W()), es, k, tx.merge)
      ensures tx.merge.Some? ==>
                exists k | 0 <= k < |es| ::
                  es[k] == Locally(MergeNow) && AdoptedAt(hash, old(W()), es, k, tx.merge.value)
    {
      ghost var w0 := W();
      for i := 0 to |es|
        invariant W() == Run(hash, w0, es[..i])
      {
        match es[i] {
          case Remotely(m) => remote.Mutate(m);
          case Locally(a) => Act(a);
        }
        RunSplits(hash, w0, es[..i], es[i]);
        assert es[..i + 1] == es[..i] + [es[i]];
      }
      assert es[..|es|] == es;
      DriveConcludes(hash, w0, es);
    }
  }

  /** After the first `k` events the remote still held the merge that `tx` verified. */
  ghost predicate RetainedAt(hash: Hash, w: World, es: seq<Event>, k: nat, merge: Option<Commit>)
    requires k < |es|
  {
    Retained(Run(hash, w, es[..k])) && Run(hash, w, es[..k]).tx.merge == merge
  }

  /** The event after the first `k` is the merge call that applied `merge`. */
  ghost predicate AdoptedAt(hash: Hash, w: World, es: seq<Event>, k: nat, merge: Commit)
    requires k < |es|
  {
    Adopts(Run(hash, w, es[..k]), merge)
  }

  lemma DriveConcludes(hash: Hash, w: World, es: seq<Event>)
    requires Filed(w.remote) && w.tx == Started(w.tx.base, w.tx.candidate, w.tx.tree)
    ensures Safe(Run(hash, w, es)) && SameBinding(w.tx, Run(hash, w, es).tx)
    ensures
      var tx := Run(hash, w, es).tx;
      NoTamper(es) && tx.phase == Accepted ==>
        exists k | 0 <= k < |es| :: es[k] == Locally(Finalize) && RetainedAt(hash, w, es, k, tx.merge)
    ensures
      var tx := Run(hash, w, es).tx;
      tx.merge.Some? ==>
        exists k | 0 <= k < |es| :: es[k] == Locally(MergeNow) && AdoptedAt(hash, w, es, k, tx.merge.value)
  {
    RunKeepsSafe(hash, w, es);
    var tx := Run(hash, w, es).tx;
    if NoTamper(es) && tx.phase == Accepted {
      var k := AcceptedMergeIsVerified(hash, w, es);
      assert RetainedAt(hash, w, es, k, tx.merge);
    }
    if tx.merge.Some? {
      var k := MergeAdoptsApplied(hash, w, es);
      assert AdoptedAt(hash, w, es, k, tx.merge.value);
    }
  }
}
