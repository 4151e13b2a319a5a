/** The merge transaction against a remote that may change between any two of its steps. */
module MergeRace {
  import opened Common
  import opened FirstParent

  const SIGNATURE_DOMAIN := "merge-verification-test-signature\0"

  // ----- commits and artifacts -----

  datatype Commit = Commit(oid: Oid, parents: seq<Oid>, tree: Oid, raw: string)

  datatype Artifact = Artifact(oid: Oid, raw: string, parents: seq<Oid>, tree: Oid, signature: string)

  type Hash = string -> string

  /** A digest function whose results are spelled as 64 hexadecimal digits. */
  ghost predicate SpellsHex(hash: Hash) { forall x :: IsHex64(hash(x)) }

  predicate AreIds(ids: seq<Oid>) {
    (forall i | 0 <= i < |ids| :: IsHex40(ids[i])) && forall i, j | 0 <= i < j < |ids| :: ids[i] != ids[j]
  }

  /** What the constructor of a commit demands. */
  predicate WellFormed(c: Commit) { IsHex40(c.oid) && AreIds(c.parents) && IsHex40(c.tree) && IsHex64(c.raw) }

  /** What the constructor of an artifact demands. */
  predicate WellSigned(a: Artifact) {
    IsHex40(a.oid) && IsHex64(a.raw) && |a.parents| == 2 && AreIds(a.parents) && IsHex40(a.tree) && IsHex64(a.signature)
  }

  function Lines(ss: seq<string>): string {
    if ss == [] then "" else ss[0] + "\n" + Lines(ss[1..])
  }

  function Payload(oid: Oid, raw: string, parents: seq<Oid>, tree: Oid): string {
    oid + "\n" + raw + "\n" + Lines(parents) + tree + "\n"
  }

  function FromCommit(hash: Hash, c: Commit): Artifact {
    Artifact(c.oid, c.raw, c.parents, c.tree, hash(SIGNATURE_DOMAIN + Payload(c.oid, c.raw, c.parents, c.tree)))
  }

  predicate HasValidSignature(hash: Hash, a: Artifact) {
    a.signature == hash(SIGNATURE_DOMAIN + Payload(a.oid, a.raw, a.parents, a.tree))
  }

  predicate Matches(hash: Hash, a: Artifact, c: Commit) {
    a.oid == c.oid && a.raw == c.raw && a.parents == c.parents && a.tree == c.tree && HasValidSignature(hash, a)
  }

  /** An artifact matches one commit only, and a commit is matched by one artifact only. */
  lemma MatchesIsBijective(hash: Hash, a: Artifact, b: Artifact, c: Commit, d: Commit)
    ensures Matches(hash, a, c) <==> a == FromCommit(hash, c)
    ensures Matches(hash, a, c) && Matches(hash, a, d) ==> c == d
    ensures Matches(hash, a, c) && Matches(hash, b, c) ==> a == b
  {
  }

  lemma {:induction false} LinesLength(ids: seq<Oid>)
    requires forall i | 0 <= i < |ids| :: IsHex40(ids[i])
    ensures |Lines(ids)| == 41 * |ids|
  {
    if ids != [] { LinesLength(ids[1..]); }
  }

  lemma {:induction false} LinesDetermine(a: seq<Oid>, b: seq<Oid>)
    requires (forall i | 0 <= i < |a| :: IsHex40(a[i])) && forall i | 0 <= i < |b| :: IsHex40(b[i])
    requires Lines(a) == Lines(b)
    ensures a == b
  {
    LinesLength(a);
    LinesLength(b);
    if a != [] {
      assert Lines(a)[..40] == a[0] && Lines(b)[..40] == b[0];
      assert Lines(a)[41..] == Lines(a[1..]) && Lines(b)[41..] == Lines(b[1..]);
      LinesDetermine(a[1..], b[1..]);
      assert a == [a[0]] + a[1..] && b == [b[0]] + b[1..];
    }
  }

  lemma PayloadParts(c: Commit)
    requires WellFormed(c)
    ensures var (p, n) := (Payload(c.oid, c.raw, c.parents, c.tree), 41 * |c.parents|);
            |p| == 147 + n && p[..40] == c.oid && p[41..105] == c.raw &&
            p[106..106 + n] == Lines(c.parents) && p[106 + n..146 + n] == c.tree
  {
    LinesLength(c.parents);
    var p := Payload(c.oid, c.raw, c.parents, c.tree);
    assert p == c.oid + "\n" + (c.raw + "\n" + (Lines(c.parents) + (c.tree + "\n")));
  }

  /** The signed text covers the whole commit: equal texts are those of equal commits. */
  lemma PayloadDetermines(c: Commit, d: Commit)
    requires WellFormed(c) && WellFormed(d)
    requires Payload(c.oid, c.raw, c.parents, c.tree) == Payload(d.oid, d.raw, d.parents, d.tree)
    ensures c == d
  {
    PayloadParts(c);
    PayloadParts(d);
    LinesDetermine(c.parents, d.parents);
  }

  // ----- the remote -----

  datatype Queued = Queued(commit: Commit, response: Option<Oid>)

  datatype Remote = Remote(
    ref: string,
    base: Oid,
    commits: map<Oid, Commit>,
    target: Option<Oid>,
    queued: Option<Queued>,
    lastMerge: Option<Oid>,
    revertFails: bool,
    fetchFails: set<Oid>,
    blocked: bool)

  /** Objects are well formed and filed under their own identity. */
  ghost predicate Filed(r: Remote) {
    forall oid | oid in r.commits :: r.commits[oid].oid == oid && WellFormed(r.commits[oid])
  }

  function Fetch(r: Remote, oid: Oid): Option<Commit> {
    if oid in r.fetchFails || oid !in r.commits then None else Some(r.commits[oid])
  }

  function NodeAt(r: Remote, oid: Oid): Node {
    match Fetch(r, oid)
    case None => Unreadable
    case Some(c) => if c.parents == [] then Root else Child(c.parents[0])
  }

  function View(r: Remote): Graph {
    oid => NodeAt(r, oid)
  }

  /** What anyone may do to the remote between two steps of the transaction. */
  datatype Mutation =
    | AddCommit(commit: Commit)
    | ReplaceCommit(commit: Commit)
    | RemoveCommit(oid: Oid)
    | SetTarget(target: Option<Oid>)
    | QueueMerge(commit: Commit, response: Option<Oid>)
    | ApplyMerge
    | SetFetchFailure(oid: Oid, value: bool)
    | SetRevertFailure(value: bool)
    | Revert(oid: Oid)
    | Block
    | MoveRef(ref: string)

  predicate IsResponse(response: Option<Oid>) { response.Some? ==> IsHex40(response.value) }

  /** An identity is never filed with different bytes. */
  predicate Fits(r: Remote, c: Commit) { WellFormed(c) && (c.oid in r.commits ==> r.commits[c.oid] == c) }

  /** Whether the remote takes the whole change. */
  predicate Takes(r: Remote, m: Mutation) {
    match m
    case AddCommit(c) => Fits(r, c)
    case ReplaceCommit(c) => WellFormed(c) && c.oid in r.commits
    case RemoveCommit(oid) => IsHex40(oid) && oid != r.base && r.target != Some(oid)
    case SetTarget(t) => t.Some? ==> IsHex40(t.value) && t.value in r.commits
    case QueueMerge(c, response) => Fits(r, c) && IsResponse(response)
    case ApplyMerge => !r.blocked && r.queued.Some?
    case SetFetchFailure(oid, _) => IsHex40(oid)
    case Revert(oid) => IsHex40(oid) && !r.revertFails && r.target == Some(oid) && !r.blocked
    case _ => true
  }

  function Mutated(r: Remote, m: Mutation): Remote
    requires Takes(r, m)
  {
    match m
    case AddCommit(c) => r.(commits := r.commits[c.oid := c])
    case ReplaceCommit(c) => r.(commits := r.commits[c.oid := c])
    case RemoveCommit(oid) => r.(commits := r.commits - {oid})
    case SetTarget(t) => r.(target := t)
    case QueueMerge(c, response) => r.(commits := r.commits[c.oid := c], queued := Some(Queued(c, response)))
    case ApplyMerge =>
      var merge := r.queued.value.commit.oid;
      r.(target := Some(merge), lastMerge := Some(merge), queued := None)
    case SetFetchFailure(oid, value) =>
      r.(fetchFails := if value then r.fetchFails + {oid} else r.fetchFails - {oid})
    case SetRevertFailure(value) => r.(revertFails := value)
    case Revert(_) => r.(target := Some(r.base))
    case Block => r.(blocked := true)
    case MoveRef(ref) => r.(ref := ref)
  }

  /** A refused change leaves the remote as it was, but queueing files the commit before it checks the response. */
  function Attempted(r: Remote, m: Mutation): Remote {
    if Takes(r, m) then Mutated(r, m)
    else if m.QueueMerge? && Fits(r, m.commit) then Mutated(r, AddCommit(m.commit))
    else r
  }

  // ----- the transaction -----

  datatype Phase = New | Prechecked | Merged | Verified | Staged | Accepted | Rejected | Reverted | Blocked

  datatype Tx = Tx(
    base: Oid,
    candidate: Oid,
    tree: Oid,
    phase: Phase,
    merge: Option<Commit>,
    artifact: Option<Artifact>,
    advanced: bool)

  datatype World = World(remote: Remote, tx: Tx)

  /** Whether the transaction can be formed, and how it starts. */
  predicate Forms(r: Remote, base: Oid, candidate: Oid, tree: Oid) {
    r.ref == TARGET_REF && base == r.base &&
    var c := Fetch(r, candidate);
    c.Some? && c.value.parents == [base] && c.value.tree == tree
  }

  function Started(base: Oid, candidate: Oid, tree: Oid): Tx {
    Tx(base, candidate, tree, New, None, None, false)
  }

  function Refused(w: World, revert: bool, block: bool): World {
    var tx := w.tx.(artifact := None);
    if block then World(Attempted(w.remote, Block), tx.(phase := Phase.Blocked))
    else if revert && tx.merge.Some? then
      if Takes(w.remote, Revert(tx.merge.value.oid))
      then World(Mutated(w.remote, Revert(tx.merge.value.oid)), tx.(phase := Reverted))
      else World(Attempted(w.remote, Block), tx.(phase := Phase.Blocked))
    else World(w.remote, tx.(phase := Rejected))
  }

  datatype Action =
    | Precheck(local: Oid)
    | MergeNow
    | VerifyMerge
    | StoreArtifact(artifact: Artifact)
    | Tamper(change: Option<Artifact>)
    | Finalize

  function Due(a: Action): Phase {
    match a
    case Precheck(_) => New
    case MergeNow => Prechecked
    case VerifyMerge => Merged
    case StoreArtifact(_) => Verified
    case Tamper(_) => Staged
    case Finalize => Staged
  }

  function DoPrecheck(w: World, local: Oid): World {
    if w.remote.ref != TARGET_REF || local != w.tx.base || w.remote.target != Some(w.tx.base)
    then Refused(w, false, false)
    else w.(tx := w.tx.(phase := Prechecked))
  }

  function DoMerge(w: World): World {
    if w.remote.ref != TARGET_REF || w.remote.target != Some(w.tx.base) then Refused(w, false, false)
    else if !Takes(w.remote, ApplyMerge) then Refused(w, false, true)
    else
      var response := w.remote.queued.value.response;
      var r := Mutated(w.remote, ApplyMerge);
      if response.None? || response != r.lastMerge then Refused(w.(remote := r), false, true)
      else
        var c := Fetch(r, response.value);
        if c.None? || c.value.oid != response.value then Refused(w.(remote := r), false, true)
        else World(r, w.tx.(merge := c, phase := Merged))
  }

  function DoVerify(w: World): World {
    if w.tx.merge.None? then Refused(w, false, true)
    else if w.tx.merge.value.parents != [w.tx.base, w.tx.candidate] || w.tx.merge.value.tree != w.tx.tree
    then Refused(w, true, false)
    else w.(tx := w.tx.(phase := Verified))
  }

  function DoStore(hash: Hash, w: World, a: Artifact): World {
    if w.tx.merge.None? then Refused(w, false, true)
    else if !Matches(hash, a, w.tx.merge.value) then Refused(w, true, false)
    else w.(tx := w.tx.(artifact := Some(a), phase := Staged))
  }

  /** `None` stands for a change of an unknown field. */
  function DoTamper(w: World, change: Option<Artifact>): World {
    if w.tx.artifact.None? || change.None? || !WellSigned(change.value) then Refused(w, true, false)
    else w.(tx := w.tx.(artifact := change))
  }

  ghost function DoFinalize(hash: Hash, w: World): World {
    if w.remote.ref != TARGET_REF then Refused(w, false, false)
    else if w.tx.merge.None? then Refused(w, false, true)
    else
      var oid := w.tx.merge.value.oid;
      if Searched(View(w.remote), w.remote.target, oid) != Found then Refused(w, false, false)
      else
        var final := Fetch(w.remote, oid);
        if final.None? then Refused(w, false, false)
        else if w.tx.artifact.None? || !Matches(hash, w.tx.artifact.value, final.value) then Refused(w, true, false)
        else w.(tx := w.tx.(phase := Accepted, advanced := true))
  }

  /** An action out of turn changes nothing. */
  ghost function Acted(hash: Hash, w: World, a: Action): World {
    if w.tx.phase != Due(a) then w
    else
      match a
      case Precheck(local) => DoPrecheck(w, local)
      case MergeNow => DoMerge(w)
      case VerifyMerge => DoVerify(w)
      case StoreArtifact(artifact) => DoStore(hash, w, artifact)
      case Tamper(change) => DoTamper(w, change)
      case Finalize => DoFinalize(hash, w)
  }

  // ----- every interleaving -----

  datatype Event = Remotely(mutation: Mutation) | Locally(action: Action)

  ghost function After(hash: Hash, w: World, e: Event): World {
    match e
    case Remotely(m) => w.(remote := Attempted(w.remote, m))
    case Locally(a) => Acted(hash, w, a)
  }

  ghost function Run(hash: Hash, w: World, es: seq<Event>): World
    decreases |es|
  {
    if es == [] then w else Run(hash, After(hash, w, es[0]), es[1..])
  }

  lemma {:induction false} RunSplits(hash: Hash, w: World, es: seq<Event>, e: Event)
    ensures Run(hash, w, es + [e]) == After(hash, Run(hash, w, es), e)
    decreases |es|
  {
    if es == [] {
      assert (es + [e])[1..] == [];
    } else {
      assert (es + [e])[1..] == es[1..] + [e];
      RunSplits(hash, After(hash, w, es[0]), es[1..], e);
    }
  }

  /** What the transaction knows in each phase. */
  predicate Coherent(tx: Tx) {
    (tx.advanced <==> tx.phase == Accepted) &&
    (tx.artifact.Some? <==> tx.phase in {Staged, Accepted}) &&
    (tx.phase in {New, Prechecked} ==> tx.merge.None?) &&
    (tx.phase in {Merged, Verified, Staged, Accepted, Reverted} ==> tx.merge.Some?) &&
    (tx.phase in {Verified, Staged, Accepted} ==>
       tx.merge.value.parents == [tx.base, tx.candidate] && tx.merge.value.tree == tx.tree)
  }

  predicate Over(p: Phase) { p in {Accepted, Rejected, Reverted, Phase.Blocked} }

  ghost predicate Safe(w: World) {
    && Coherent(w.tx) && Filed(w.remote) && (w.tx.phase == Phase.Blocked ==> w.remote.blocked)
    && (w.tx.merge.Some? ==> WellFormed(w.tx.merge.value))
  }

  lemma MutationKeepsSafe(w: World, m: Mutation)
    requires Safe(w)
    ensures Safe(w.(remote := Attempted(w.remote, m)))
  {
  }

  lemma ActionKeepsSafe(hash: Hash, w: World, a: Action)
    requires Safe(w)
    ensures Safe(Acted(hash, w, a)) && SameBinding(w.tx, Acted(hash, w, a).tx)
  {
    if w.tx.phase == Due(a) {
      match a
      case Precheck(local) => PrecheckKeepsSafe(w, local);
      case MergeNow => MergeKeepsSafe(w);
      case VerifyMerge => VerifyKeepsSafe(w);
      case StoreArtifact(artifact) => StoreKeepsSafe(hash, w, artifact);
      case Tamper(change) => TamperKeepsSafe(w, change);
      case Finalize => FinalizeKeepsSafe(hash, w);
    }
  }

  /** Every refusal ends the transaction safely. */
  lemma RefusedIsSafe(w: World, revert: bool, block: bool)
    requires Filed(w.remote) && !w.tx.advanced && (w.tx.merge.Some? ==> WellFormed(w.tx.merge.value))
    ensures Safe(Refused(w, revert, block)) && SameBinding(w.tx, Refused(w, revert, block).tx)
    ensures Refused(w, revert, block).tx.merge == w.tx.merge
    ensures Over(Refused(w, revert, block).tx.phase)
  {
  }

  lemma PrecheckKeepsSafe(w: World, local: Oid)
    requires Safe(w) && w.tx.phase == New
    ensures Safe(DoPrecheck(w, local)) && SameBinding(w.tx, DoPrecheck(w, local).tx)
  {
  }

  lemma MergeKeepsSafe(w: World)
    requires Safe(w) && w.tx.phase == Prechecked
    ensures Safe(DoMerge(w)) && SameBinding(w.tx, DoMerge(w).tx)
  {
  }

  lemma VerifyKeepsSafe(w: World)
    requires Safe(w) && w.tx.phase == Merged
    ensures Safe(DoVerify(w)) && SameBinding(w.tx, DoVerify(w).tx)
  {
  }

  lemma StoreKeepsSafe(hash: Hash, w: World, a: Artifact)
    requires Safe(w) && w.tx.phase == Verified
    ensures Safe(DoStore(hash, w, a)) && SameBinding(w.tx, DoStore(hash, w, a).tx)
  {
  }

  lemma TamperKeepsSafe(w: World, change: Option<Artifact>)
    requires Safe(w) && w.tx.phase == Staged
    ensures Safe(DoTamper(w, change)) && SameBinding(w.tx, DoTamper(w, change).tx)
  {
  }

  lemma FinalizeKeepsSafe(hash: Hash, w: World)
    requires Safe(w) && w.tx.phase == Staged
    ensures Safe(DoFinalize(hash, w)) && SameBinding(w.tx, DoFinalize(hash, w).tx)
  {
    RefusedIsSafe(w, false, false);
    RefusedIsSafe(w, false, true);
    RefusedIsSafe(w, true, false);
    var v := DoFinalize(hash, w);
    assert v == w.(tx := w.tx.(phase := Accepted, advanced := true)) ||
           v == Refused(w, false, false) || v == Refused(w, false, true) || v == Refused(w, true, false);
  }

  predicate SameBinding(a: Tx, b: Tx) {
    a.base == b.base && a.candidate == b.candidate && a.tree == b.tree
  }

  lemma {:induction false} RunKeepsSafe(hash: Hash, w: World, es: seq<Event>)
    requires Safe(w)
    ensures Safe(Run(hash, w, es)) && SameBinding(w.tx, Run(hash, w, es).tx)
    decreases |es|
  {
    if es != [] {
      match es[0] {
        case Remotely(m) => MutationKeepsSafe(w, m);
        case Locally(a) => ActionKeepsSafe(hash, w, a);
      }
      RunKeepsSafe(hash, After(hash, w, es[0]), es[1..]);
    }
  }

  /**
   From any remote the transaction can be formed on, through every interleaving: the lifecycle has
   advanced exactly when the transaction is accepted, an artifact is stored exactly when it is staged
   or accepted, and a blocked transaction leaves a blocked remote.
   */
  lemma EveryInterleaving(hash: Hash, r: Remote, base: Oid, candidate: Oid, tree: Oid, es: seq<Event>)
    requires Filed(r) && Forms(r, base, candidate, tree)
    ensures var w := Run(hash, World(r, Started(base, candidate, tree)), es);
            (w.tx.advanced <==> w.tx.phase == Accepted) &&
            (w.tx.artifact.Some? <==> w.tx.phase in {Staged, Accepted}) &&
            (w.tx.phase == Phase.Blocked ==> w.remote.blocked)
  {
    RunKeepsSafe(hash, World(r, Started(base, candidate, tree)), es);
  }

  /**
   At the moment of acceptance the merge is on the target's first-parent chain, its refetched object
   is the one the stored artifact signs, and that object is the verified merge exactly when the
   stored artifact is the one that was staged for it.
   */
  lemma AcceptanceBinds(hash: Hash, w: World, e: Event)
    requires Safe(w) && w.tx.phase != Accepted && After(hash, w, e).tx.phase == Accepted
    ensures w.tx.merge.Some? && w.tx.artifact.Some? && w.remote.ref == TARGET_REF
    ensures var merge := w.tx.merge.value;
            OnChain(View(w.remote), w.remote.target, merge.oid) &&
            Fetch(w.remote, merge.oid).Some? &&
            merge.parents == [w.tx.base, w.tx.candidate] && merge.tree == w.tx.tree
    ensures var merge := w.tx.merge.value;
            var final := Fetch(w.remote, merge.oid).value;
            w.tx.artifact.value == FromCommit(hash, final) &&
            (final == merge <==> w.tx.artifact.value == FromCommit(hash, merge))
  {
    var merge := w.tx.merge.value;
    var final := Fetch(w.remote, merge.oid).value;
    MatchesIsBijective(hash, w.tx.artifact.value, FromCommit(hash, merge), final, merge);
  }

  predicate IsTamper(e: Event) { e.Locally? && e.action.Tamper? }

  predicate NoTamper(es: seq<Event>) { forall i | 0 <= i < |es| :: !IsTamper(es[i]) }

  /** Without tampering, a staged artifact is the one that signs the verified merge. */
  predicate Untouched(hash: Hash, tx: Tx) {
    tx.phase in {Staged, Accepted} ==>
      tx.merge.Some? && tx.artifact == Some(FromCommit(hash, tx.merge.value))
  }

  lemma {:induction false} RunStaysUntouched(hash: Hash, w: World, es: seq<Event>)
    requires Safe(w) && Untouched(hash, w.tx) && NoTamper(es)
    ensures Untouched(hash, Run(hash, w, es).tx)
    decreases |es|
  {
    if es != [] {
      var v := After(hash, w, es[0]);
      RunKeepsSafe(hash, w, es[..1]);
      assert Run(hash, w, es[..1]) == v by { assert es[..1] == [es[0]] && es[..1][1..] == []; }
      assert Untouched(hash, v.tx) by {
        if es[0] == Locally(Finalize) {
          StepUntouchedFinalize(hash, w);
        } else {
          StepUntouched(hash, w, es[0]);
        }
      }
      RunStaysUntouched(hash, v, es[1..]);
    }
  }

  lemma StepUntouched(hash: Hash, w: World, e: Event)
    requires Safe(w) && Untouched(hash, w.tx) && !IsTamper(e) && e != Locally(Finalize)
    ensures Untouched(hash, After(hash, w, e).tx)
  {
  }

  lemma StepUntouchedFinalize(hash: Hash, w: World)
    requires Safe(w) && Untouched(hash, w.tx)
    ensures Untouched(hash, After(hash, w, Locally(Finalize)).tx)
  {
  }

  /** The held merge is what the remote returns for it now, has the bound parents and tree, and is on the chain. */
  ghost predicate Retained(w: World) {
    && w.tx.merge.Some? && Fetch(w.remote, w.tx.merge.value.oid) == w.tx.merge
    && w.tx.merge.value.parents == [w.tx.base, w.tx.candidate] && w.tx.merge.value.tree == w.tx.tree
    && OnChain(View(w.remote), w.remote.target, w.tx.merge.value.oid)
  }

  /**
   In a run where nobody alters the stored artifact, acceptance means that the final call found the
   verified merge: parents (base, candidate), the candidate tree, unchanged on the remote, and on the
   target's first-parent chain.
   */
  lemma {:induction false} AcceptedMergeIsVerified(hash: Hash, w: World, es: seq<Event>) returns (k: nat)
    requires Safe(w) && w.tx.phase == New && NoTamper(es) && Run(hash, w, es).tx.phase == Accepted
    ensures k < |es| && es[k] == Locally(Finalize) && Retained(Run(hash, w, es[..k]))
    ensures Run(hash, w, es).tx == Run(hash, w, es[..k]).tx.(phase := Accepted, advanced := true)
    decreases |es|
  {
    var (fs, e) := (es[..|es| - 1], es[|es| - 1]);
    assert es == fs + [e];
    RunSplits(hash, w, fs, e);
    RunKeepsSafe(hash, w, fs);
    var u := Run(hash, w, fs);
    if u.tx.phase == Accepted {
      k := AcceptedMergeIsVerified(hash, w, fs);
      assert es[..k] == fs[..k];
      EndIsFinal(hash, u, [e]);
      assert [e][1..] == [];
    } else {
      k := |fs|;
      assert es[..k] == fs;
      RunStaysUntouched(hash, w, fs);
      AcceptanceBinds(hash, u, e);
    }
  }

  /** A step that leaves a merge set either found it set, or is the merge call that adopted it. */
  lemma StepKeepsMerge(hash: Hash, w: World, e: Event)
    requires Safe(w)
    ensures w.tx.merge.Some? ==> After(hash, w, e).tx.merge == w.tx.merge
    ensures w.tx.merge.None? && After(hash, w, e).tx.merge.Some? ==> e == Locally(MergeNow) && w.tx.phase == Prechecked
  {
    if e.Locally? && w.tx.phase == Due(e.action) && e != Locally(MergeNow) {
      RefusedIsSafe(w, false, false);
      RefusedIsSafe(w, false, true);
      RefusedIsSafe(w, true, false);
      if e.action == Finalize { FinalizeKeepsMerge(hash, w); }
    }
  }

  lemma FinalizeKeepsMerge(hash: Hash, w: World)
    ensures DoFinalize(hash, w).tx.merge == w.tx.merge
  {
  }

  /** The merge call of this step applied `merge` to an unmoved target and read it back. */
  ghost predicate Adopts(w: World, merge: Commit) {
    var v := DoMerge(w);
    && w.tx.phase == Prechecked && w.remote.ref == TARGET_REF && w.remote.target == Some(w.tx.base)
    && v.remote.target == Some(merge.oid) && v.remote.lastMerge == Some(merge.oid)
    && Fetch(v.remote, merge.oid) == Some(merge)
  }

  /**
   Whenever a transaction holds a merge, one earlier step of its run was the merge call that applied
   it: the target stood at the base before that call, at the merge after it, and the merge is the
   object the remote then held.
   */
  lemma {:induction false} MergeAdoptsApplied(hash: Hash, w: World, es: seq<Event>) returns (k: nat)
    requires Safe(w) && w.tx.merge.None? && Run(hash, w, es).tx.merge.Some?
    ensures k < |es| && es[k] == Locally(MergeNow)
    ensures Adopts(Run(hash, w, es[..k]), Run(hash, w, es).tx.merge.value)
    ensures Run(hash, w, es[..k]).tx.base == w.tx.base
    decreases |es|
  {
    var (fs, e) := (es[..|es| - 1], es[|es| - 1]);
    assert es == fs + [e];
    RunSplits(hash, w, fs, e);
    RunKeepsSafe(hash, w, fs);
    var u := Run(hash, w, fs);
    StepKeepsMerge(hash, u, e);
    if u.tx.merge.Some? {
      k := MergeAdoptsApplied(hash, w, fs);
      assert es[..k] == fs[..k];
    } else {
      k := |fs|;
      assert es[..k] == fs;
      MergeCallAdopts(u);
    }
  }

  lemma MergeCallAdopts(w: World)
    requires Safe(w) && w.tx.phase == Prechecked && DoMerge(w).tx.merge.Some?
    ensures Adopts(w, DoMerge(w).tx.merge.value)
  {
    RefusedIsSafe(w, false, false);
  }

  /** A transaction ends reverted exactly by moving the target from its merge back to the base. */
  lemma RevertRestoresBase(hash: Hash, w: World, a: Action)
    requires Safe(w) && w.tx.phase != Reverted && Acted(hash, w, a).tx.phase == Reverted
    ensures w.tx.merge.Some? && w.remote.target == Some(w.tx.merge.value.oid) && !w.remote.blocked
    ensures Acted(hash, w, a).remote == w.remote.(target := Some(w.remote.base))
  {
  }

  /** The last phase is kept whatever happens afterwards. */
  lemma {:induction false} EndIsFinal(hash: Hash, w: World, es: seq<Event>)
    requires Over(w.tx.phase)
    ensures Run(hash, w, es).tx == w.tx
    decreases |es|
  {
    if es != [] { EndIsFinal(hash, After(hash, w, es[0]), es[1..]); }
  }

  // ----- what an altered artifact allows -----

  function Id(c: char): Oid { seq(40, _ => c) }

  function Digest(c: char): string { seq(64, _ => c) }

  const BASE := Id('b')
  const CANDIDATE := Id('c')
  const MERGE := Id('d')
  const TREE := Id('1')

  function Base(): Commit { Commit(BASE, [], Id('0'), Digest('0')) }
  function Candidate(): Commit { Commit(CANDIDATE, [BASE], TREE, Digest('1')) }
  function Merge(): Commit { Commit(MERGE, [BASE, CANDIDATE], TREE, Digest('2')) }
  function Swapped(): Commit { Commit(MERGE, [BASE, CANDIDATE], Id('2'), Digest('3')) }

  lemma IdsDiffer(c: char, d: char)
    ensures Id(c) == Id(d) <==> c == d
  {
    assert Id(c)[0] == c && Id(d)[0] == d;
  }

  lemma FixtureIsWellFormed()
    ensures BASE != CANDIDATE && BASE != MERGE && CANDIDATE != MERGE && TREE != Id('2')
    ensures WellFormed(Base()) && WellFormed(Candidate()) && WellFormed(Merge()) && WellFormed(Swapped())
  {
    IdsDiffer('b', 'c');
    IdsDiffer('b', 'd');
    IdsDiffer('c', 'd');
    IdsDiffer('1', '2');
  }

  function Fixture(): Remote {
    Remote(TARGET_REF, BASE, map[BASE := Base(), CANDIDATE := Candidate()], Some(BASE), None, None, false, {}, false)
  }

  function AlteredRun(hash: Hash): seq<Event> {
    [Remotely(QueueMerge(Merge(), Some(MERGE))), Locally(Precheck(BASE)), Locally(MergeNow), Locally(VerifyMerge),
     Locally(StoreArtifact(FromCommit(hash, Merge()))), Remotely(ReplaceCommit(Swapped())),
     Locally(Tamper(Some(FromCommit(hash, Swapped()))))]
  }

  function Applied(): Remote {
    Fixture().(commits := Fixture().commits[MERGE := Merge()], target := Some(MERGE), lastMerge := Some(MERGE))
  }

  const START := Started(BASE, CANDIDATE, TREE)

  lemma HonestMerge(hash: Hash)
    ensures Run(hash, World(Fixture(), START), AlteredRun(hash)[..3]) ==
            World(Applied(), START.(phase := Merged, merge := Some(Merge())))
  {
    FixtureIsWellFormed();
    var es := AlteredRun(hash);
    var w0 := World(Fixture(), START);
    assert es[..1] == [] + [es[0]] && es[..2] == es[..1] + [es[1]] && es[..3] == es[..2] + [es[2]];
    RunSplits(hash, w0, [], es[0]);
    RunSplits(hash, w0, es[..1], es[1]);
    RunSplits(hash, w0, es[..2], es[2]);
  }

  function StagedWith(a: Artifact): Tx { START.(phase := Staged, merge := Some(Merge()), artifact := Some(a)) }

  /** The transaction has staged the honest merge. */
  lemma HonestStaging(hash: Hash)
    ensures Run(hash, World(Fixture(), START), AlteredRun(hash)[..5]) ==
            World(Applied(), StagedWith(FromCommit(hash, Merge())))
  {
    var es := AlteredRun(hash);
    var w0 := World(Fixture(), START);
    HonestMerge(hash);
    assert es[..4] == es[..3] + [es[3]] && es[..5] == es[..4] + [es[4]];
    RunSplits(hash, w0, es[..3], es[3]);
    RunSplits(hash, w0, es[..4], es[4]);
  }

  /** Object and artifact have been replaced together. */
  lemma SwappedStaging(hash: Hash)
    requires SpellsHex(hash)
    ensures Run(hash, World(Fixture(), START), AlteredRun(hash)) ==
            World(Applied().(commits := Applied().commits[MERGE := Swapped()]),
                  StagedWith(FromCommit(hash, Swapped())))
  {
    FixtureIsWellFormed();
    var es := AlteredRun(hash);
    var w0 := World(Fixture(), START);
    HonestStaging(hash);
    assert es[..6] == es[..5] + [es[5]] && es == es[..6] + [es[6]];
    RunSplits(hash, w0, es[..5], es[5]);
    RunSplits(hash, w0, es[..6], es[6]);
  }

  lemma FixtureForms(hash: Hash)
    requires SpellsHex(hash)
    ensures Forms(Fixture(), BASE, CANDIDATE, TREE) && Filed(Fixture())
    ensures WellSigned(FromCommit(hash, Merge())) && WellSigned(FromCommit(hash, Swapped()))
  {
    FixtureIsWellFormed();
  }

  /** The final call finds the swapped merge at the head of the chain, signed by the swapped artifact. */
  lemma SwappedIsAccepted(hash: Hash, w: World)
    requires w == World(Applied().(commits := Applied().commits[MERGE := Swapped()]),
                        StagedWith(FromCommit(hash, Swapped())))
    ensures After(hash, w, Locally(Finalize)).tx.phase == Accepted && Fetch(w.remote, MERGE) == Some(Swapped())
  {
    assert Iterate(View(w.remote), w.remote.target, 0) == Some(MERGE);
  }

  /**
   Acceptance alone does not bind the verified merge: when the object and the stored artifact are
   replaced together by well-formed ones, the transaction accepts a commit whose tree is not the
   candidate's.
   */
  lemma AlteredArtifactIsAccepted(hash: Hash)
    requires SpellsHex(hash)
    ensures Forms(Fixture(), BASE, CANDIDATE, TREE) && Filed(Fixture())
    ensures WellFormed(Merge()) && WellFormed(Swapped())
    ensures WellSigned(FromCommit(hash, Merge())) && WellSigned(FromCommit(hash, Swapped()))
    ensures var w := Run(hash, World(Fixture(), START), AlteredRun(hash));
            After(hash, w, Locally(Finalize)).tx.phase == Accepted &&
            Fetch(w.remote, MERGE).Some? && Fetch(w.remote, MERGE).value.tree != w.tx.tree
  {
    FixtureIsWellFormed();
    FixtureForms(hash);
    SwappedStaging(hash);
    SwappedIsAccepted(hash, Run(hash, World(Fixture(), START), AlteredRun(hash)));
  }
}
