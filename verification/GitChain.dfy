/** The candidate's first-parent chain, and the review record checked against it twice. */
module GitChain {
  import opened Common

  type Oid = string

  datatype Commit = Commit(oid: Oid, sha256: string, tree: Oid, parents: seq<Oid>)

  /** Commits as the reader returns them, each under its own identity. */
  type Commits = Oid -> Option<Commit>

  ghost predicate Faithful(read: Commits) {
    forall oid :: read(oid).Some? ==> read(oid).value.oid == oid
  }

  function Oids(chain: seq<Commit>): (os: seq<Oid>)
    ensures |os| == |chain| && forall i | 0 <= i < |chain| :: os[i] == chain[i].oid
  {
    seq(|chain|, i requires 0 <= i < |chain| => chain[i].oid)
  }

  predicate Distinct(os: seq<Oid>) { forall i, j | 0 <= i < j < |os| :: os[i] != os[j] }

  /** The commit before position `i` of a chain that starts after `baseline`. */
  function Before(baseline: Oid, chain: seq<Commit>, i: nat): Oid
    requires i <= |chain|
  {
    if i == 0 then baseline else chain[i - 1].oid
  }

  predicate LinkAt(baseline: Oid, chain: seq<Commit>, i: nat)
    requires i < |chain|
  {
    chain[i].parents == [Before(baseline, chain, i)]
  }

  /** A duplicate-free path of single-parent commits from the baseline, exclusive, to the candidate. */
  predicate IsChain(baseline: Oid, candidate: Oid, chain: seq<Commit>) {
    chain != [] && chain[|chain| - 1].oid == candidate && Distinct(Oids(chain)) && baseline !in Oids(chain) &&
    forall i | 0 <= i < |chain| :: LinkAt(baseline, chain, i)
  }

  ghost predicate Readable(read: Commits, chain: seq<Commit>) {
    forall i | 0 <= i < |chain| :: read(chain[i].oid) == Some(chain[i])
  }

  // ----- binding the chain -----

  /** The end of a chain, down to but not including `current`. */
  ghost predicate Tail(read: Commits, baseline: Oid, candidate: Oid, current: Oid, tail: seq<Commit>) {
    Readable(read, tail) && Distinct(Oids(tail)) && baseline !in Oids(tail) &&
    candidate == Before(current, tail, |tail|) &&
    forall i | 0 <= i < |tail| :: LinkAt(current, tail, i)
  }

  /** The same without distinctness: readable commits, each the only parent of the next, none of them the baseline. */
  ghost predicate Trail(read: Commits, baseline: Oid, candidate: Oid, current: Oid, tail: seq<Commit>) {
    && candidate == Before(current, tail, |tail|)
    && forall i | 0 <= i < |tail| :: StepAt(read, baseline, current, tail, i)
  }

  predicate StepAt(read: Commits, baseline: Oid, current: Oid, tail: seq<Commit>, i: nat)
    requires i < |tail|
  {
    read(tail[i].oid) == Some(tail[i]) && tail[i].oid != baseline && LinkAt(current, tail, i)
  }

  lemma TailIsTrail(read: Commits, baseline: Oid, candidate: Oid, current: Oid, tail: seq<Commit>)
    requires Tail(read, baseline, candidate, current, tail)
    ensures Trail(read, baseline, candidate, current, tail)
  {
    forall i | 0 <= i < |tail|
      ensures StepAt(read, baseline, current, tail, i)
    {
      assert Oids(tail)[i] == tail[i].oid;
    }
  }

  lemma TrailShrinks(read: Commits, baseline: Oid, candidate: Oid, current: Oid, tail: seq<Commit>)
    requires Trail(read, baseline, candidate, current, tail) && tail != []
    ensures Trail(read, baseline, candidate, tail[0].oid, tail[1..])
    ensures read(tail[0].oid) == Some(tail[0]) && tail[0].oid != baseline && tail[0].parents == [current]
  {
    assert StepAt(read, baseline, current, tail, 0);
    var rest := tail[1..];
    forall i | 0 <= i < |rest|
      ensures StepAt(read, baseline, tail[0].oid, rest, i)
    {
      assert StepAt(read, baseline, current, tail, i + 1);
    }
  }

  /** Every chain ends in the commits walked so far; `n` is where they begin. */
  lemma {:induction false} TrailOfChain(
      read: Commits, baseline: Oid, candidate: Oid, current: Oid, tail: seq<Commit>, chain: seq<Commit>) returns (n: nat)
    requires Trail(read, baseline, candidate, current, tail)
    requires chain != [] && chain[|chain| - 1].oid == candidate
    requires Readable(read, chain) && forall i | 0 <= i < |chain| :: LinkAt(baseline, chain, i)
    ensures n <= |chain| && chain[n..] == tail && current == Before(baseline, chain, n)
    decreases |tail|
  {
    if tail == [] {
      n := |chain|;
    } else {
      TrailShrinks(read, baseline, candidate, current, tail);
      var (first, rest) := (tail[0], tail[1..]);
      n := TrailOfChain(read, baseline, candidate, first.oid, rest, chain);
      TailOneMore(read, baseline, current, first, rest, chain, n);
      assert tail == [first] + rest;
      n := n - 1;
    }
  }

  lemma TailOneMore(
      read: Commits, baseline: Oid, current: Oid, first: Commit, rest: seq<Commit>, chain: seq<Commit>, n: nat)
    requires read(first.oid) == Some(first) && first.oid != baseline && first.parents == [current]
    requires Readable(read, chain) && forall i | 0 <= i < |chain| :: LinkAt(baseline, chain, i)
    requires n <= |chain| && chain[n..] == rest && first.oid == Before(baseline, chain, n)
    ensures n > 0 && chain[n - 1..] == [first] + rest && current == Before(baseline, chain, n - 1)
  {
    SameCommit(read, baseline, chain, n, first);
    SuffixGrows(chain, n, rest);
    assert LinkAt(baseline, chain, n - 1);
  }

  lemma TailOfChain(
      read: Commits, baseline: Oid, candidate: Oid, current: Oid, tail: seq<Commit>, chain: seq<Commit>) returns (n: nat)
    requires Tail(read, baseline, candidate, current, tail)
    requires IsChain(baseline, candidate, chain) && Readable(read, chain)
    ensures n <= |chain| && chain[n..] == tail && current == Before(baseline, chain, n)
  {
    TailIsTrail(read, baseline, candidate, current, tail);
    n := TrailOfChain(read, baseline, candidate, current, tail, chain);
  }

  /** The commit read under an identity of the chain is the chain's own. */
  lemma SameCommit(read: Commits, baseline: Oid, chain: seq<Commit>, n: nat, c: Commit)
    requires Readable(read, chain) && n <= |chain| && Before(baseline, chain, n) == c.oid && c.oid != baseline
    requires read(c.oid) == Some(c)
    ensures n > 0 && chain[n - 1] == c
  {
    assert read(chain[n - 1].oid) == Some(chain[n - 1]);
  }

  lemma SuffixGrows(chain: seq<Commit>, n: nat, rest: seq<Commit>)
    requires 0 < n <= |chain| && chain[n..] == rest
    ensures chain[n - 1..] == [chain[n - 1]] + rest
  {
  }

  lemma TailGrows(read: Commits, baseline: Oid, candidate: Oid, current: Oid, tail: seq<Commit>, c: Commit)
    requires Tail(read, baseline, candidate, current, tail) && current != baseline && current !in Oids(tail)
    requires read(current) == Some(c) && c.oid == current && |c.parents| == 1
    ensures Tail(read, baseline, candidate, c.parents[0], [c] + tail)
    ensures Oids([c] + tail) == [current] + Oids(tail)
  {
    var longer := [c] + tail;
    assert Oids(longer) == [current] + Oids(tail);
    forall i | 0 <= i < |longer|
      ensures LinkAt(c.parents[0], longer, i)
    {
      if i > 0 { assert longer[i] == tail[i - 1] && LinkAt(current, tail, i - 1); }
    }
  }

  /** Short of the baseline, a chain goes on: a new commit, readable, with one parent. */
  lemma ChainGoesOn(
      read: Commits, baseline: Oid, candidate: Oid, current: Oid, tail: seq<Commit>, chain: seq<Commit>)
    requires Tail(read, baseline, candidate, current, tail) && current != baseline
    requires IsChain(baseline, candidate, chain) && Readable(read, chain)
    ensures current !in Oids(tail) && read(current).Some? && |read(current).value.parents| == 1
    ensures |tail| < |chain|
  {
    var n := TailOfChain(read, baseline, candidate, current, tail, chain);
    assert n > 0 && chain[n - 1].oid == current && LinkAt(baseline, chain, n - 1);
    assert read(chain[n - 1].oid) == Some(chain[n - 1]);
    EarlierIsNew(chain, n - 1);
  }

  /** A commit of a chain does not come again after its place. */
  lemma EarlierIsNew(chain: seq<Commit>, i: nat)
    requires Distinct(Oids(chain)) && i < |chain|
    ensures chain[i].oid !in Oids(chain[i + 1..])
  {
    var (os, rest) := (Oids(chain), chain[i + 1..]);
    forall k | 0 <= k < |rest|
      ensures Oids(rest)[k] != chain[i].oid
    {
      assert rest[k] == chain[i + 1 + k] && os[i + 1 + k] != os[i];
    }
  }

  lemma BaselineNotInside(baseline: Oid, candidate: Oid, chain: seq<Commit>, n: nat)
    requires IsChain(baseline, candidate, chain) && n <= |chain|
    ensures n > 0 ==> Before(baseline, chain, n) != baseline
  {
    if n > 0 { assert Oids(chain)[n - 1] == chain[n - 1].oid; }
  }

  lemma ChainIsTail(read: Commits, baseline: Oid, candidate: Oid, tail: seq<Commit>, chain: seq<Commit>)
    requires Tail(read, baseline, candidate, baseline, tail)
    requires IsChain(baseline, candidate, chain) && Readable(read, chain)
    ensures chain == tail
  {
    var n := TailOfChain(read, baseline, candidate, baseline, tail, chain);
    BaselineNotInside(baseline, candidate, chain, n);
  }

  function Reversed(s: seq<Commit>): seq<Commit> {
    if s == [] then [] else [s[|s| - 1]] + Reversed(s[..|s| - 1])
  }

  lemma ReversedGrows(s: seq<Commit>, c: Commit)
    ensures Reversed(s + [c]) == [c] + Reversed(s)
  {
    assert (s + [c])[..|s|] == s;
  }

  /** Whether `chain` is the candidate's readable chain within the bound. */
  ghost predicate Reachable(read: Commits, baseline: Oid, candidate: Oid, chain: seq<Commit>) {
    IsChain(baseline, candidate, chain) && Readable(read, chain) && |chain| <= MAX_ENTRIES
  }

  /** What can be bound: well-formed identities, the local target at the baseline, and such a chain. */
  ghost predicate Bound(read: Commits, baseline: Oid, candidate: Oid, target: Oid, chain: seq<Commit>) {
    IsHex40(baseline) && IsHex40(candidate) && target == baseline && Reachable(read, baseline, candidate, chain)
  }

  lemma AnyChainGoesOn(read: Commits, baseline: Oid, candidate: Oid, current: Oid, tail: seq<Commit>)
    requires Tail(read, baseline, candidate, current, tail) && current != baseline
    ensures forall chain | Reachable(read, baseline, candidate, chain) ::
              current !in Oids(tail) && read(current).Some? && |read(current).value.parents| == 1 && |tail| < MAX_ENTRIES
  {
    forall chain | Reachable(read, baseline, candidate, chain)
      ensures current !in Oids(tail) && read(current).Some? && |read(current).value.parents| == 1 && |tail| < MAX_ENTRIES
    {
      ChainGoesOn(read, baseline, candidate, current, tail, chain);
    }
  }

  lemma DifferentEnds(read: Commits, baseline: Oid, candidate: Oid)
    ensures forall chain | Reachable(read, baseline, candidate, chain) :: baseline != candidate
  {
    forall chain | Reachable(read, baseline, candidate, chain)
      ensures baseline != candidate
    {
      assert candidate == Oids(chain)[|chain| - 1];
    }
  }

  /** The loop from the candidate down to the baseline. */
  method WalkChain(read: Commits, baseline: Oid, candidate: Oid) returns (r: Option<seq<Commit>>)
    requires Faithful(read) && baseline != candidate
    ensures r.Some? ==> Reachable(read, baseline, candidate, r.value)
    ensures forall chain | Reachable(read, baseline, candidate, chain) :: r == Some(chain)
  {
    var walked: seq<Commit> := [];
    var current := candidate;
    var visited: set<Oid> := {};
    while current != baseline
      invariant Tail(read, baseline, candidate, current, Reversed(walked)) && |Reversed(walked)| == |walked| <= MAX_ENTRIES
      invariant forall x :: x in visited <==> x in Oids(Reversed(walked))
      invariant walked == [] ==> current == candidate
      decreases MAX_ENTRIES - |walked|
    {
      ghost var tail := Reversed(walked);
      AnyChainGoesOn(read, baseline, candidate, current, tail);
      if current in visited { return None; }
      visited := visited + {current};
      var c := read(current);
      if c.None? || |c.value.parents| != 1 { return None; }
      TailGrows(read, baseline, candidate, current, tail, c.value);
      ReversedGrows(walked, c.value);
      walked := walked + [c.value];
      current := c.value.parents[0];
      if |walked| > MAX_ENTRIES { return None; }
    }
    ghost var tail := Reversed(walked);
    forall chain | Reachable(read, baseline, candidate, chain)
      ensures chain == tail
    {
      ChainIsTail(read, baseline, candidate, tail, chain);
    }
    return Some(Reversed(walked));
  }

  /**
   The binder finds the candidate's chain exactly when there is one within the bound and the local
   target still stands at the baseline, and it is then the only one. Cycles, merges, roots and
   unreadable commits before the baseline are refused.
   */
  method BindChain(read: Commits, baseline: Oid, candidate: Oid, target: Oid) returns (r: Option<seq<Commit>>)
    requires Faithful(read)
    ensures r.Some? ==> Bound(read, baseline, candidate, target, r.value)
    ensures forall chain | Bound(read, baseline, candidate, target, chain) :: r == Some(chain)
  {
    if !IsHex40(baseline) || !IsHex40(candidate) || !IsHex40(target) { return None; }
    DifferentEnds(read, baseline, candidate);
    if baseline == candidate { return None; }
    if target != baseline { return None; }
    r := WalkChain(read, baseline, candidate);
  }

  // ----- the review record -----

  datatype State = Clean | Fixed

  datatype Review = Review(head: Oid, base: Oid, state: State, repairs: seq<Oid>)

  function IndexOf(os: seq<Oid>, x: Oid): (i: nat)
    requires x in os
    ensures i < |os| && os[i] == x && x !in os[..i]
  {
    if os[0] == x then 0
    else
      var i := IndexOf(os[1..], x);
      assert os[..i + 1] == [os[0]] + os[1..][..i];
      i + 1
  }

  /** The binder's test. */
  predicate BinderAccepts(baseline: Oid, candidate: Oid, chain: seq<Commit>, r: Review) {
    var os := Oids(chain);
    r.base == baseline &&
    match r.state
    case Clean => r.head == candidate && r.repairs == []
    case Fixed =>
      (r.head == baseline || r.head in os) &&
      var expected := if r.head == baseline then os else os[IndexOf(os, r.head) + 1..];
      expected != [] && r.repairs == expected && r.repairs[|r.repairs| - 1] == candidate
  }

  function ById(chain: seq<Commit>): map<Oid, Commit> {
    if chain == [] then map[]
    else
      var last := chain[|chain| - 1];
      ById(chain[..|chain| - 1])[last.oid := last]
  }

  /** Each listed commit has the one before it as its only parent, starting from `previous`. */
  predicate Linked(m: map<Oid, Commit>, previous: Oid, os: seq<Oid>)
    decreases |os|
  {
    os == [] || (os[0] in m && m[os[0]].parents == [previous] && Linked(m, os[0], os[1..]))
  }

  /** What the report says about a revision itself. */
  datatype Revision = Revision(sha256: string, tree: Oid, parents: seq<Oid>)

  function RevisionOf(c: Commit): Revision { Revision(c.sha256, c.tree, c.parents) }

  /** The verifier's test of the reported commits and of the candidate's own facts. */
  predicate VerifierAcceptsChain(baseline: Oid, candidate: Oid, revision: Revision, chain: seq<Commit>) {
    var os := Oids(chain);
    && os != [] && Distinct(os) && baseline !in os && os[|os| - 1] == candidate && Linked(ById(chain), baseline, os)
    && candidate in ById(chain)
    && var last := ById(chain)[candidate];
       revision.parents == last.parents && last.tree == revision.tree && revision.sha256 == last.sha256
  }

  /** The verifier's test of the review record. */
  predicate VerifierAcceptsReview(baseline: Oid, candidate: Oid, chain: seq<Commit>, r: Review) {
    var os := Oids(chain);
    match r.state
    case Clean => r.head == candidate && r.repairs == []
    case Fixed =>
      r.head != candidate && r.repairs != [] && r.head != baseline && r.head in os &&
      os[IndexOf(os, r.head) + 1..] == r.repairs &&
      Linked(ById(chain), r.head, r.repairs) && r.repairs[|r.repairs| - 1] == candidate
  }

  lemma {:induction false} ByIdHolds(chain: seq<Commit>, i: nat)
    requires Distinct(Oids(chain)) && i < |chain|
    ensures chain[i].oid in ById(chain) && ById(chain)[chain[i].oid] == chain[i]
  {
    if i < |chain| - 1 {
      var front := chain[..|chain| - 1];
      assert forall k | 0 <= k < |front| :: Oids(front)[k] == Oids(chain)[k];
      assert Oids(chain)[i] != Oids(chain)[|chain| - 1];
      ByIdHolds(front, i);
    }
  }

  /** In a chain, every suffix is linked to the commit before it. */
  lemma {:induction false} SuffixLinked(baseline: Oid, candidate: Oid, chain: seq<Commit>, i: nat)
    requires IsChain(baseline, candidate, chain) && i <= |chain|
    ensures Linked(ById(chain), Before(baseline, chain, i), Oids(chain)[i..])
    decreases |chain| - i
  {
    var os := Oids(chain);
    if i < |chain| {
      ByIdHolds(chain, i);
      assert LinkAt(baseline, chain, i);
      SuffixLinked(baseline, candidate, chain, i + 1);
      assert os[i..][0] == os[i] && os[i..][1..] == os[i + 1..];
    }
  }

  /** Links checked by identity are the links of the commits themselves. */
  lemma {:induction false} LinkedIsChain(baseline: Oid, chain: seq<Commit>, i: nat, k: nat)
    requires Distinct(Oids(chain)) && i <= k < |chain|
    requires Linked(ById(chain), Before(baseline, chain, i), Oids(chain)[i..])
    ensures LinkAt(baseline, chain, k)
    decreases k - i
  {
    var os := Oids(chain);
    ByIdHolds(chain, i);
    assert os[i..][0] == os[i] && os[i..][1..] == os[i + 1..];
    if i < k { LinkedIsChain(baseline, chain, i + 1, k); }
  }

  /** The verifier accepts exactly the chains from the baseline to the candidate, with the candidate's own facts. */
  lemma VerifierIffChain(baseline: Oid, candidate: Oid, revision: Revision, chain: seq<Commit>)
    ensures VerifierAcceptsChain(baseline, candidate, revision, chain) <==>
            IsChain(baseline, candidate, chain) && revision == RevisionOf(chain[|chain| - 1])
  {
    var os := Oids(chain);
    assert os[0..] == os;
    if chain != [] && Distinct(os) { ByIdHolds(chain, |chain| - 1); }
    if IsChain(baseline, candidate, chain) { SuffixLinked(baseline, candidate, chain, 0); }
    if VerifierAcceptsChain(baseline, candidate, revision, chain) {
      forall k | 0 <= k < |chain|
        ensures LinkAt(baseline, chain, k)
      {
        LinkedIsChain(baseline, chain, 0, k);
      }
    }
  }

  /** The verifier accepts every bound chain with the candidate as the reader returns it. */
  lemma ChainPassesVerifier(read: Commits, baseline: Oid, candidate: Oid, target: Oid, chain: seq<Commit>)
    requires Bound(read, baseline, candidate, target, chain)
    ensures read(candidate).Some?
    ensures VerifierAcceptsChain(baseline, candidate, RevisionOf(read(candidate).value), chain)
  {
    assert read(chain[|chain| - 1].oid) == Some(chain[|chain| - 1]);
    VerifierIffChain(baseline, candidate, RevisionOf(read(candidate).value), chain);
  }

  /**
   On a bound chain and a record for the baseline, the two tests agree except on a fixed review whose
   head is the baseline itself: there the verifier always refuses, and the binder accepts exactly
   when the repairs are the whole chain.
   */
  lemma ReviewsAgree(baseline: Oid, candidate: Oid, chain: seq<Commit>, r: Review)
    requires IsChain(baseline, candidate, chain) && r.base == baseline
    ensures r.state == Fixed && r.head == baseline ==>
              !VerifierAcceptsReview(baseline, candidate, chain, r) &&
              (BinderAccepts(baseline, candidate, chain, r) <==> r.repairs == Oids(chain))
    ensures !(r.state == Fixed && r.head == baseline) ==>
              (BinderAccepts(baseline, candidate, chain, r) <==> VerifierAcceptsReview(baseline, candidate, chain, r))
  {
    var os := Oids(chain);
    assert os[|os| - 1] == candidate;
    if r.state == Fixed && r.head != baseline && r.head in os { FixedAgree(baseline, candidate, chain, r); }
  }

  lemma FixedAgree(baseline: Oid, candidate: Oid, chain: seq<Commit>, r: Review)
    requires IsChain(baseline, candidate, chain) && r.base == baseline
    requires r.state == Fixed && r.head != baseline && r.head in Oids(chain)
    ensures BinderAccepts(baseline, candidate, chain, r) <==> VerifierAcceptsReview(baseline, candidate, chain, r)
  {
    var os := Oids(chain);
    var i := IndexOf(os, r.head);
    assert os[|os| - 1] == candidate;
    assert i == |os| - 1 ==> r.head == candidate;
    SuffixLinked(baseline, candidate, chain, i + 1);
    if i < |os| - 1 {
      assert os[i + 1..][|os| - i - 2] == candidate;
      assert os[i] != os[|os| - 1];
    }
  }

  /** The chain is the reviewed commits, ending at the head, followed by the repairs. */
  predicate Divides(os: seq<Oid>, reviewed: seq<Oid>, r: Review) {
    reviewed != [] && reviewed[|reviewed| - 1] == r.head && os == reviewed + r.repairs
  }

  /** The verifier's test on identities alone. */
  predicate SuffixFits(os: seq<Oid>, candidate: Oid, r: Review) {
    match r.state
    case Clean => r.head == candidate && r.repairs == []
    case Fixed => r.head != candidate && r.repairs != [] && r.head in os && os[IndexOf(os, r.head) + 1..] == r.repairs
  }

  lemma AcceptedIffSuffix(baseline: Oid, candidate: Oid, chain: seq<Commit>, r: Review)
    requires IsChain(baseline, candidate, chain)
    ensures VerifierAcceptsReview(baseline, candidate, chain, r) <==> SuffixFits(Oids(chain), candidate, r)
  {
    var os := Oids(chain);
    if r.state == Fixed && SuffixFits(os, candidate, r) {
      var i := IndexOf(os, r.head);
      SuffixLinked(baseline, candidate, chain, i + 1);
      LastOfSuffix(os, i + 1);
    }
  }

  lemma LastOfSuffix(os: seq<Oid>, i: nat)
    requires i < |os|
    ensures os[i..][|os| - i - 1] == os[|os| - 1]
  {
  }

  lemma IndexIs(os: seq<Oid>, i: nat)
    requires Distinct(os) && i < |os|
    ensures IndexOf(os, os[i]) == i
  {
  }

  lemma FitsIsDivided(os: seq<Oid>, candidate: Oid, r: Review) returns (reviewed: seq<Oid>)
    requires os != [] && os[|os| - 1] == candidate && SuffixFits(os, candidate, r)
    ensures Divides(os, reviewed, r) && (r.state == Clean <==> r.repairs == [])
  {
    if r.state == Clean {
      reviewed := os;
    } else {
      var i := IndexOf(os, r.head);
      reviewed := os[..i + 1];
      assert os == os[..i + 1] + os[i + 1..];
    }
  }

  lemma DividedFits(os: seq<Oid>, candidate: Oid, r: Review, reviewed: seq<Oid>)
    requires Distinct(os) && os != [] && os[|os| - 1] == candidate
    requires Divides(os, reviewed, r) && (r.state == Clean <==> r.repairs == [])
    ensures SuffixFits(os, candidate, r)
  {
    var n := |reviewed|;
    assert os[n - 1] == r.head && os[n..] == r.repairs;
    IndexIs(os, n - 1);
    if r.state == Fixed { assert os[n - 1] != os[|os| - 1]; }
  }

  /** A clean review covers the whole chain, and a fixed one all of it but the repairs, of which there are some. */
  lemma ReviewDividesChain(baseline: Oid, candidate: Oid, chain: seq<Commit>, r: Review)
    requires IsChain(baseline, candidate, chain)
    ensures VerifierAcceptsReview(baseline, candidate, chain, r) <==>
              (r.state == Clean <==> r.repairs == []) && exists reviewed :: Divides(Oids(chain), reviewed, r)
  {
    var os := Oids(chain);
    AcceptedIffSuffix(baseline, candidate, chain, r);
    if SuffixFits(os, candidate, r) { var reviewed := FitsIsDivided(os, candidate, r); }
    if (r.state == Clean <==> r.repairs == []) && exists reviewed :: Divides(os, reviewed, r) {
      var reviewed :| Divides(os, reviewed, r);
      DividedFits(os, candidate, r, reviewed);
    }
  }

  /** Every chain has a record on which the two tests part. */
  lemma BaselineHeadParts(baseline: Oid, candidate: Oid, chain: seq<Commit>)
    requires IsChain(baseline, candidate, chain)
    ensures var r := Review(baseline, baseline, Fixed, Oids(chain));
            BinderAccepts(baseline, candidate, chain, r) && !VerifierAcceptsReview(baseline, candidate, chain, r)
  {
    ReviewsAgree(baseline, candidate, chain, Review(baseline, baseline, Fixed, Oids(chain)));
  }
}
