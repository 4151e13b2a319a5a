/** Where each call of the merge transaction leaves the transaction and the remote, for every safe world. */
module MergeRaceOutcomes {
  import opened Common
  import opened FirstParent
  import opened MergeRace

  /** The merge stands on the target, and the remote would take it back. */
  predicate Revertible(w: World) {
    && w.tx.merge.Some? && w.remote.target == Some(w.tx.merge.value.oid)
    && !w.remote.blocked && !w.remote.revertFails
  }

  /** A held merge is taken off the target, or else transaction and remote are blocked; nothing else changes. */
  predicate TakenOff(w: World, v: World) {
    && v.tx == w.tx.(artifact := None, phase := if Revertible(w) then Reverted else Phase.Blocked)
    && v.remote == if Revertible(w) then w.remote.(target := Some(w.remote.base)) else w.remote.(blocked := true)
  }

  /** The transaction ends without touching the remote. */
  predicate LeftAlone(w: World, v: World) { v == w.(tx := w.tx.(artifact := None, phase := Rejected)) }

  /** Transaction and remote are blocked, whatever the remote had done. */
  predicate BlockedBoth(v: World) { v.tx.phase == Phase.Blocked && v.remote.blocked && v.tx.artifact.None? }

  predicate HasBoundShape(w: World) {
    w.tx.merge.Some? && w.tx.merge.value.parents == [w.tx.base, w.tx.candidate] && w.tx.merge.value.tree == w.tx.tree
  }

  /** The precheck passes exactly on the accepted ref with local and remote target at the base. */
  lemma PrecheckOutcome(hash: Hash, w: World, local: Oid)
    requires Safe(w) && w.tx.phase == New
    ensures var v := Acted(hash, w, Precheck(local));
            if w.remote.ref == TARGET_REF && local == w.tx.base && w.remote.target == Some(w.tx.base)
            then v == w.(tx := w.tx.(phase := Prechecked)) else LeftAlone(w, v)
  {
  }

  /** The remote has a queued merge, is not blocked, answers with that merge, and can be read at it. */
  predicate Answers(r: Remote) {
    && !r.blocked && r.queued.Some? && r.queued.value.response == Some(r.queued.value.commit.oid)
    && r.queued.value.commit.oid in r.commits && r.queued.value.commit.oid !in r.fetchFails
  }

  /**
   A merge on a moved ref or target does not reach the remote. Otherwise it is adopted exactly when the
   remote answers with what it applied and can be read there; every doubt blocks both sides.
   */
  lemma MergeOutcome(hash: Hash, w: World)
    requires Safe(w) && w.tx.phase == Prechecked
    ensures var v := Acted(hash, w, MergeNow);
            if w.remote.ref != TARGET_REF || w.remote.target != Some(w.tx.base) then LeftAlone(w, v)
            else if !Answers(w.remote) then BlockedBoth(v)
            else
              var oid := w.remote.queued.value.commit.oid;
              && v.remote == w.remote.(target := Some(oid), lastMerge := Some(oid), queued := None)
              && v.tx == w.tx.(phase := Merged, merge := Some(w.remote.commits[oid]))
  {
  }

  /** A merge with other parents or another tree is taken off the target. */
  lemma VerifyOutcome(hash: Hash, w: World)
    requires Safe(w) && w.tx.phase == Merged
    ensures var v := Acted(hash, w, VerifyMerge);
            if HasBoundShape(w) then v == w.(tx := w.tx.(phase := Verified)) else TakenOff(w, v)
  {
  }

  /** An artifact that is not the merge's own takes the merge off the target. */
  lemma StoreOutcome(hash: Hash, w: World, a: Artifact)
    requires Safe(w) && w.tx.phase == Verified
    ensures var v := Acted(hash, w, StoreArtifact(a));
            if a == FromCommit(hash, w.tx.merge.value)
            then v == w.(tx := w.tx.(phase := Staged, artifact := Some(a))) else TakenOff(w, v)
  {
    MatchesIsBijective(hash, a, a, w.tx.merge.value, w.tx.merge.value);
  }

  /** A change that leaves no well-formed artifact takes the merge off the target. */
  lemma TamperOutcome(hash: Hash, w: World, change: Option<Artifact>)
    requires Safe(w) && w.tx.phase == Staged
    ensures var v := Acted(hash, w, Tamper(change));
            if change.Some? && WellSigned(change.value) then v == w.(tx := w.tx.(artifact := change)) else TakenOff(w, v)
  {
  }

  /** The final call can see the merge: the ref is the accepted one, the merge is on its chain and readable. */
  ghost predicate Visible(w: World) {
    && w.remote.ref == TARGET_REF && w.tx.merge.Some?
    && OnChain(View(w.remote), w.remote.target, w.tx.merge.value.oid)
    && w.tx.merge.value.oid in w.remote.commits && w.tx.merge.value.oid !in w.remote.fetchFails
  }

  /**
   The final call leaves the remote alone when it cannot see the merge, accepts exactly when the object
   it sees is the one the stored artifact signs, and takes any other object off the target.
   */
  lemma FinalOutcome(hash: Hash, w: World)
    requires Safe(w) && w.tx.phase == Staged
    ensures var v := Acted(hash, w, Finalize);
            if !Visible(w) then LeftAlone(w, v)
            else if w.tx.artifact.value == FromCommit(hash, w.remote.commits[w.tx.merge.value.oid])
            then v == w.(tx := w.tx.(phase := Accepted, advanced := true))
            else TakenOff(w, v)
  {
    if w.tx.merge.value.oid in w.remote.commits {
      var final := w.remote.commits[w.tx.merge.value.oid];
      MatchesIsBijective(hash, w.tx.artifact.value, w.tx.artifact.value, final, final);
    }
  }

  /** A call out of turn changes nothing. */
  lemma OutOfTurn(hash: Hash, w: World, a: Action)
    requires w.tx.phase != (match a
                            case Precheck(_) => New
                            case MergeNow => Prechecked
                            case VerifyMerge => Merged
                            case StoreArtifact(_) => Verified
                            case Tamper(_) | Finalize => Staged)
    ensures Acted(hash, w, a) == w
  {
  }

  /**
   A transaction that holds a merge and ends rejected ends there by its final call, and only because
   that call could not see the merge: a merge it can see is never left on the target unaccepted.
   */
  lemma RejectedHeldMergeWasUnseen(hash: Hash, w: World, a: Action)
    requires Safe(w) && w.tx.merge.Some? && w.tx.phase != Rejected && Acted(hash, w, a).tx.phase == Rejected
    ensures a == Finalize && w.tx.phase == Staged && !Visible(w)
  {
    match a
    case Precheck(local) =>
    case MergeNow =>
    case VerifyMerge => if w.tx.phase == Merged { VerifyOutcome(hash, w); }
    case StoreArtifact(artifact) => if w.tx.phase == Verified { StoreOutcome(hash, w, artifact); }
    case Tamper(change) => if w.tx.phase == Staged { TamperOutcome(hash, w, change); }
    case Finalize => if w.tx.phase == Staged { FinalOutcome(hash, w); }
  }

  // ----- the remote -----

  /** The walk goes from a readable commit to the first of its parents. */
  lemma WalkFollowsFirstParent(r: Remote, oid: Oid, parent: Oid)
    ensures Next(View(r), Some(oid)) == Some(parent) <==>
              Fetch(r, oid).Some? && |Fetch(r, oid).value.parents| > 0 && Fetch(r, oid).value.parents[0] == parent
  {
  }

  /** The commit a change names. */
  function Named(m: Mutation): Option<Oid> {
    match m
    case AddCommit(c) => Some(c.oid)
    case ReplaceCommit(c) => Some(c.oid)
    case RemoveCommit(oid) => Some(oid)
    case QueueMerge(c, _) => Some(c.oid)
    case _ => None
  }

  /** Only a replacement gives a filed identity other bytes, only a removal unfiles one, and only the one it names. */
  lemma ObjectsStay(r: Remote, m: Mutation, oid: Oid)
    requires oid in r.commits
    ensures oid !in Attempted(r, m).commits ==> m == RemoveCommit(oid) && oid != r.base && r.target != Some(oid)
    ensures oid in Attempted(r, m).commits && Attempted(r, m).commits[oid] != r.commits[oid] ==>
              m.ReplaceCommit? && m.commit.oid == oid && Attempted(r, m).commits[oid] == m.commit
  {
  }

  /** The only ways a target moves: set to a filed commit or to none, a queued merge, or back to the base. */
  lemma TargetMoves(r: Remote, m: Mutation)
    requires Attempted(r, m).target != r.target
    ensures || (m.SetTarget? && Attempted(r, m).target == m.target && (m.target.Some? ==> m.target.value in r.commits))
            || (m.ApplyMerge? && !r.blocked && r.queued.Some? &&
                Attempted(r, m).target == Some(r.queued.value.commit.oid))
            || (m.Revert? && !r.blocked && !r.revertFails && r.target == Some(m.oid) &&
                Attempted(r, m).target == Some(r.base))
  {
  }

  /** Every change that can be made is made: a refused one has its reason. */
  lemma ChangesAreMade(r: Remote, m: Mutation)
    ensures
      var v := Attempted(r, m);
      match m
      case AddCommit(c) => WellFormed(c) && c.oid !in r.commits ==> c.oid in v.commits && v.commits[c.oid] == c
      case ReplaceCommit(c) => WellFormed(c) && c.oid in r.commits ==> v.commits[c.oid] == c
      case RemoveCommit(oid) => IsHex40(oid) && oid != r.base && r.target != Some(oid) ==> oid !in v.commits
      case SetTarget(t) => (t.Some? ==> IsHex40(t.value) && t.value in r.commits) ==> v.target == t
      case QueueMerge(c, response) =>
        WellFormed(c) && c.oid !in r.commits && IsResponse(response) ==>
          v.queued == Some(Queued(c, response)) && c.oid in v.commits
      case ApplyMerge => !r.blocked && r.queued.Some? ==> v.queued.None? && v.lastMerge == Some(r.queued.value.commit.oid)
      case SetFetchFailure(oid, value) => IsHex40(oid) ==> (oid in v.fetchFails <==> value)
      case SetRevertFailure(value) => v.revertFails == value
      case Revert(oid) =>
        IsHex40(oid) && !r.blocked && !r.revertFails && r.target == Some(oid) ==> v.target == Some(r.base)
      case Block => v.blocked
      case MoveRef(ref) => v.ref == ref
  {
  }

  /** The base commit stays filed and the base stays the base, through every run. */
  lemma {:induction false} BaseStays(hash: Hash, w: World, es: seq<Event>)
    requires w.remote.base in w.remote.commits
    ensures Run(hash, w, es).remote.base == w.remote.base && w.remote.base in Run(hash, w, es).remote.commits
    decreases |es|
  {
    if es != [] {
      BaseStep(hash, w, es[0]);
      BaseStays(hash, After(hash, w, es[0]), es[1..]);
    }
  }

  lemma BaseStep(hash: Hash, w: World, e: Event)
    requires w.remote.base in w.remote.commits
    ensures After(hash, w, e).remote.base == w.remote.base && w.remote.base in After(hash, w, e).remote.commits
  {
    match e
    case Remotely(m) =>
    case Locally(a) => ActionKeepsObjects(hash, w, a);
  }

  predicate SameObjects(r: Remote, s: Remote) { s.base == r.base && s.commits == r.commits }

  lemma RefusalKeepsObjects(w: World, revert: bool, block: bool)
    ensures SameObjects(w.remote, Refused(w, revert, block).remote)
  {
  }

  /** No call of the transaction files, replaces or removes an object. */
  lemma ActionKeepsObjects(hash: Hash, w: World, a: Action)
    ensures SameObjects(w.remote, Acted(hash, w, a).remote)
  {
    RefusalKeepsObjects(w, false, false);
    RefusalKeepsObjects(w, false, true);
    RefusalKeepsObjects(w, true, false);
    if w.tx.phase == Due(a) {
      match a
      case MergeNow => MergeKeepsObjects(w);
      case Finalize => FinalKeepsObjects(hash, w);
      case _ =>
    }
  }

  lemma MergeKeepsObjects(w: World)
    ensures SameObjects(w.remote, DoMerge(w).remote)
  {
  }

  lemma FinalKeepsObjects(hash: Hash, w: World)
    ensures SameObjects(w.remote, DoFinalize(hash, w).remote)
  {
  }
}
