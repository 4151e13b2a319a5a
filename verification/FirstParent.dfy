/** First-parent walks over an object graph that may be cyclic and may have holes. */
module FirstParent {
  import opened Common

  type Oid = string

  /** What reading an object says about its first parent. */
  datatype Node = Unreadable | Root | Child(parent: Oid)

  type Graph = Oid -> Node

  function Next(g: Graph, at: Option<Oid>): Option<Oid> {
    if at.Some? && g(at.value).Child? then Some(g(at.value).parent) else None
  }

  /** The `k`-th first-parent iterate; it exists only while every object before it is readable. */
  function Iterate(g: Graph, start: Option<Oid>, k: nat): Option<Oid> {
    if k == 0 then start else Next(g, Iterate(g, start, k - 1))
  }

  ghost predicate OnChain(g: Graph, start: Option<Oid>, oid: Oid) {
    exists k: nat :: Iterate(g, start, k) == Some(oid)
  }

  ghost predicate Broken(g: Graph, start: Option<Oid>) {
    exists k: nat :: HoleAt(g, start, k)
  }

  predicate HoleAt(g: Graph, start: Option<Oid>, k: nat) {
    var at := Iterate(g, start, k);
    at.Some? && g(at.value).Unreadable?
  }

  /** `path` lists the first iterates, all of them distinct, readable and not `oid`. */
  ghost predicate Walked(g: Graph, start: Option<Oid>, oid: Oid, path: seq<Oid>) {
    (forall k: nat | k < |path| :: Iterate(g, start, k) == Some(path[k])) &&
    (forall k | 0 <= k < |path| :: path[k] != oid && !g(path[k]).Unreadable?) &&
    (forall j, k | 0 <= j < k < |path| :: path[j] != path[k])
  }

  /** Once the chain ends, no later object is on it. */
  lemma {:induction false} EndedBefore(g: Graph, start: Option<Oid>, n: nat, k: nat)
    requires Iterate(g, start, n) == None && n <= k
    ensures Iterate(g, start, k) == None
    decreases k
  {
    if k > n { EndedBefore(g, start, n, k - 1); }
  }

  /** Once the chain returns to a walked object, it stays among them. */
  lemma {:induction false} CaughtIn(g: Graph, start: Option<Oid>, oid: Oid, path: seq<Oid>, j: nat, k: nat)
    requires Walked(g, start, oid, path) && j < |path| && Iterate(g, start, |path|) == Some(path[j])
    ensures Iterate(g, start, k).Some? ==> Iterate(g, start, k).value in path
    decreases k
  {
    if k > |path| {
      CaughtIn(g, start, oid, path, j, k - 1);
      var at := Iterate(g, start, k - 1);
      if at.Some? {
        var i: nat :| i < |path| && path[i] == at.value;
        assert Iterate(g, start, i) == at;
        assert Iterate(g, start, i + 1) == Iterate(g, start, k);
      }
    }
  }

  /** A walk that stops without meeting `oid` or a hole never would. */
  lemma StoppedWalk(g: Graph, start: Option<Oid>, oid: Oid, path: seq<Oid>)
    requires Walked(g, start, oid, path)
    requires var at := Iterate(g, start, |path|); at.None? || at.value in path
    ensures !OnChain(g, start, oid) && !Broken(g, start)
  {
    var at := Iterate(g, start, |path|);
    forall k: nat
      ensures Iterate(g, start, k).Some? ==> Iterate(g, start, k).value in path
    {
      if at.None? {
        if k >= |path| { EndedBefore(g, start, |path|, k); }
      } else {
        var j: nat :| j < |path| && path[j] == at.value;
        CaughtIn(g, start, oid, path, j, k);
      }
    }
  }

  /** A walk that meets a hole before `oid` never meets `oid`. */
  lemma BrokenWalk(g: Graph, start: Option<Oid>, oid: Oid, path: seq<Oid>)
    requires Walked(g, start, oid, path) && HoleAt(g, start, |path|) && Iterate(g, start, |path|) != Some(oid)
    ensures !OnChain(g, start, oid) && Broken(g, start)
  {
    forall k: nat
      ensures Iterate(g, start, k) != Some(oid)
    {
      if k > |path| {
        assert Iterate(g, start, |path| + 1) == None;
        EndedBefore(g, start, |path| + 1, k);
      }
    }
  }

  lemma WalkGrows(g: Graph, start: Option<Oid>, oid: Oid, path: seq<Oid>, x: Oid)
    requires Walked(g, start, oid, path) && Iterate(g, start, |path|) == Some(x) && x !in path
    requires x != oid && !g(x).Unreadable?
    ensures Walked(g, start, oid, path + [x]) && Iterate(g, start, |path| + 1) == Next(g, Some(x))
  {
  }

  // ----- comparing before fetching -----

  datatype Search = Found | Absent | Failed

  /** The outcome of a search for `oid`, from the chain alone. */
  ghost function Searched(g: Graph, start: Option<Oid>, oid: Oid): Search {
    if OnChain(g, start, oid) then Found
    else if Broken(g, start) then Failed
    else Absent
  }

  /**
   The search compares each object before it fetches it. It ends on every graph with finitely many
   readable objects, finds `oid` exactly when `oid` is on the chain, and fails exactly when the chain
   breaks before reaching it.
   */
  method FirstParentContains(g: Graph, start: Option<Oid>, oid: Oid, ghost known: set<Oid>) returns (r: Search)
    requires forall x | !g(x).Unreadable? :: x in known
    ensures r == Searched(g, start, oid)
  {
    var current := start;
    var seen: set<Oid> := {};
    ghost var path: seq<Oid> := [];
    while current.Some? && current.value !in seen
      invariant Walked(g, start, oid, path) && Iterate(g, start, |path|) == current
      invariant seen <= known && forall x :: x in seen <==> x in path
      decreases known - seen
    {
      var at := current.value;
      seen := seen + {at};
      if at == oid { return Found; }
      if g(at).Unreadable? {
        BrokenWalk(g, start, oid, path);
        return Failed;
      }
      WalkGrows(g, start, oid, path, at);
      path := path + [at];
      current := Next(g, current);
    }
    StoppedWalk(g, start, oid, path);
    return Absent;
  }

  // ----- reading before comparing, within a bound -----


  datatype Observation = Observed | Unavailable | TooLong | Cycle | Missing

  /** `oid` is a readable object among the first `bound` of the chain. */
  ghost predicate WithinReach(g: Graph, start: Option<Oid>, oid: Oid, bound: nat) {
    !g(oid).Unreadable? && exists k: nat :: k < bound && Iterate(g, start, k) == Some(oid)
  }

  /**
   The walk reads each object before it compares it. It meets the merge exactly when the merge is a
   readable object within the bound; when it neither breaks nor runs out of bound, that is exactly
   when the merge is on the chain, cycles included.
   */
  method ObserveMerge(g: Graph, target: Oid, merge: Oid) returns (r: Observation)
    ensures r == Observed <==> WithinReach(g, Some(target), merge, MAX_ENTRIES)
    ensures r in {Observed, Cycle, Missing} ==> (r == Observed <==> OnChain(g, Some(target), merge))
    ensures r == Unavailable ==> Broken(g, Some(target))
    ensures r == Cycle ==> forall k: nat :: Iterate(g, Some(target), k).Some?
    ensures r == Missing ==> exists k: nat :: Iterate(g, Some(target), k).None?
    ensures r == TooLong ==> exists path: seq<Oid> :: |path| == MAX_ENTRIES && Walked(g, Some(target), merge, path)
  {
    ghost var start := Some(target);
    var current := Some(target);
    var visited: set<Oid> := {};
    ghost var path: seq<Oid> := [];
    while current.Some? && current.value !in visited
      invariant Walked(g, start, merge, path) && Iterate(g, start, |path|) == current
      invariant |visited| == |path| <= MAX_ENTRIES && forall x :: x in visited <==> x in path
      decreases MAX_ENTRIES - |visited|
    {
      var at := current.value;
      if |visited| >= MAX_ENTRIES { return TooLong; }
      visited := visited + {at};
      if g(at).Unreadable? {
        assert HoleAt(g, start, |path|);
        if at != merge { BrokenWalk(g, start, merge, path); }
        return Unavailable;
      }
      if at == merge { return Observed; }
      WalkGrows(g, start, merge, path, at);
      path := path + [at];
      current := Next(g, current);
    }
    StoppedWalk(g, start, merge, path);
    if current.Some? {
      ghost var j: nat :| j < |path| && path[j] == current.value;
      NeverEnds(g, start, merge, path, j);
      return Cycle;
    }
    return Missing;
  }

  /** A chain that returns to a walked object goes on for ever. */
  lemma NeverEnds(g: Graph, start: Option<Oid>, oid: Oid, path: seq<Oid>, j: nat)
    requires Walked(g, start, oid, path) && j < |path| && Iterate(g, start, |path|) == Some(path[j])
    ensures forall k: nat :: Iterate(g, start, k).Some?
  {
    forall k: nat
      ensures Iterate(g, start, k).Some?
    {
      GoesOn(g, start, oid, path, j, k);
    }
  }

  lemma {:induction false} GoesOn(g: Graph, start: Option<Oid>, oid: Oid, path: seq<Oid>, j: nat, k: nat)
    requires Walked(g, start, oid, path) && j < |path| && Iterate(g, start, |path|) == Some(path[j])
    ensures Iterate(g, start, k).Some?
    decreases k
  {
    if k > |path| {
      GoesOn(g, start, oid, path, j, k - 1);
      CaughtIn(g, start, oid, path, j, k - 1);
      var i: nat :| i < |path| && path[i] == Iterate(g, start, k - 1).value;
      assert Iterate(g, start, i + 1) == Iterate(g, start, k);
      assert i + 1 < |path| || Iterate(g, start, i + 1) == Some(path[j]);
    }
  }

  /** Where no object is missing and the chain is within the bound, the two walks agree. */
  lemma WalksAgree(g: Graph, target: Oid, merge: Oid, path: seq<Oid>)
    requires Walked(g, Some(target), merge, path) && |path| < MAX_ENTRIES && !g(merge).Unreadable?
    requires var at := Iterate(g, Some(target), |path|); at.None? || at.value in path || at.value == merge
    ensures Searched(g, Some(target), merge) == Found <==> WithinReach(g, Some(target), merge, MAX_ENTRIES)
  {
    var at := Iterate(g, Some(target), |path|);
    if at == Some(merge) {
    } else {
      StoppedWalk(g, Some(target), merge, path);
    }
  }
}
