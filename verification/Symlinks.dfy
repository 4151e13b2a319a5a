/** Symlink targets inside a layout, and the cycle check over the link graph. */
module Symlinks {
  import opened Common
  import opened Layout
  import opened Text

  type Links = map<Parts, Parts>

  function Parent(p: Parts): Parts { if p == [] then [] else p[..|p| - 1] }

  /** Text rules on one target component: valid UTF-8, not a dot name, and not `.git` under case folding. */
  type Components = string -> bool

  /** The target of a link, resolved against the link's own directory; it must be a node of the tree. */
  function Target(ok: Components, nodes: set<Parts>, link: Parts, payload: string): (t: Option<Parts>)
    requires link != []
    ensures t.Some? ==> t.value in nodes && Parent(link) < t.value
  {
    if payload == "" || '\0' in payload || payload[0] == '/' then None
    else
      var parts := Split(payload, '/');
      if exists i :: 0 <= i < |parts| && (parts[i] == "" || !ok(parts[i])) then None
      else if Parent(link) + parts !in nodes then None
      else Some(Parent(link) + parts)
  }

  /** The payload spells these names, separated by slashes. */
  ghost predicate SpellsNames(ok: Components, names: seq<string>, payload: string) {
    && names != [] && Without(names, '/') && '\0' !in payload && payload == Joined(names, '/')
    && forall i | 0 <= i < |names| :: names[i] != "" && ok(names[i])
  }

  lemma SpelledFirst(ok: Components, names: seq<string>, payload: string)
    requires SpellsNames(ok, names, payload)
    ensures payload != "" && payload[0] != '/'
  {
    assert payload[0] == names[0][0];
  }

  /** A target is accepted exactly when it is a node below the link's directory, at the names that the payload spells. */
  lemma TargetIff(ok: Components, nodes: set<Parts>, link: Parts, payload: string, t: Parts)
    requires link != []
    ensures Target(ok, nodes, link, payload) == Some(t) <==>
              Parent(link) < t && t in nodes && SpellsNames(ok, t[|Parent(link)|..], payload)
  {
    var d := Parent(link);
    if Target(ok, nodes, link, payload) == Some(t) {
      JoinedSplit(payload, '/');
      assert t[|d|..] == Split(payload, '/');
    }
    if d < t && t in nodes && SpellsNames(ok, t[|d|..], payload) {
      SplitJoined(t[|d|..], '/');
      SpelledFirst(ok, t[|d|..], payload);
      assert t == d + t[|d|..];
    }
  }

  /** Every link points at a node below its own directory. */
  predicate Resolved(nodes: set<Parts>, links: Links) {
    forall x | x in links :: x != [] && links[x] in nodes && Parent(x) < links[x]
  }

  // ----- following links -----

  function Hop(links: Links, x: Parts): Parts { if x in links then links[x] else x }

  function Hops(links: Links, x: Parts, k: nat): Parts { if k == 0 then x else Hop(links, Hops(links, x, k - 1)) }

  predicate ReturnsIn(links: Links, x: Parts, k: nat) { k >= 1 && Hops(links, x, k) == x }

  ghost predicate Acyclic(links: Links) { forall x, k | x in links :: !ReturnsIn(links, x, k) }

  predicate LeavesIn(links: Links, x: Parts, k: nat) { Hops(links, x, k) !in links }

  lemma {:induction false} HopsAdd(links: Links, x: Parts, j: nat, k: nat)
    ensures Hops(links, x, j + k) == Hops(links, Hops(links, x, j), k)
    decreases k
  {
    if k > 0 { HopsAdd(links, x, j, k - 1); }
  }

  /** Once off the links, a walk stays where it is. */
  lemma {:induction false} StaysOut(links: Links, x: Parts, j: nat, k: nat)
    requires LeavesIn(links, x, j)
    ensures Hops(links, x, j + k) == Hops(links, x, j)
    decreases k
  {
    if k > 0 { StaysOut(links, x, j, k - 1); }
  }

  /** A node on a cycle never gets off the links. */
  lemma {:induction false} CycleNeverLeaves(links: Links, x: Parts, n: nat, k: nat)
    requires x in links && ReturnsIn(links, x, n)
    ensures !LeavesIn(links, x, k)
  {
    if LeavesIn(links, x, k) {
      Laps(links, x, n, k);
      // After k laps the walk is back at the link x, though it had left the links by then.
      assert k * n >= k by { assert n >= 1; }
      StaysOut(links, x, k, k * n - k);
    }
  }

  lemma {:induction false} Laps(links: Links, x: Parts, n: nat, laps: nat)
    requires ReturnsIn(links, x, n)
    ensures Hops(links, x, laps * n) == x
    decreases laps
  {
    if laps > 0 {
      Laps(links, x, n, laps - 1);
      assert laps * n == (laps - 1) * n + n;
      HopsAdd(links, x, (laps - 1) * n, n);
    }
  }

  // ----- the check -----

  /** `path` lists the distinct links visited from `start`. */
  ghost predicate Visited(links: Links, start: Parts, path: seq<Parts>) {
    (forall k | 0 <= k < |path| :: path[k] == Hops(links, start, k) && path[k] in links) &&
    (forall j, k | 0 <= j < k < |path| :: path[j] != path[k])
  }

  lemma {:induction false} VisitedIsShort(links: Links, path: seq<Parts>)
    requires (forall k | 0 <= k < |path| :: path[k] in links) && (forall j, k | 0 <= j < k < |path| :: path[j] != path[k])
    ensures |path| <= |links|
  {
    if path != [] {
      var x := path[|path| - 1];
      var fewer := links - {x};
      assert fewer.Keys == links.Keys - {x};
      assert |fewer| == |fewer.Keys| && |links| == |links.Keys|;
      VisitedIsShort(fewer, path[..|path| - 1]);
    }
  }

  lemma FoundCycle(links: Links, start: Parts, path: seq<Parts>)
    requires Visited(links, start, path) && Hops(links, start, |path|) in path
    ensures !Acyclic(links)
  {
    var j :| 0 <= j < |path| && path[j] == Hops(links, start, |path|);
    HopsAdd(links, start, j, |path| - j);
    assert ReturnsIn(links, path[j], |path| - j);
  }

  /** From this link the walk ends off the links, in no more hops than there are links. */
  ghost predicate Ends(links: Links, start: Parts) { exists k: nat :: k <= |links| && LeavesIn(links, start, k) }

  method CheckFrom(links: Links, start: Parts) returns (ok: bool)
    requires start in links
    ensures ok ==> Ends(links, start)
    ensures !ok ==> !Acyclic(links)
  {
    var current := start;
    var seen: set<Parts> := {};
    ghost var path: seq<Parts> := [];
    while current in links
      invariant Visited(links, start, path) && current == Hops(links, start, |path|)
      invariant seen <= links.Keys && forall x :: x in seen <==> x in path
      decreases links.Keys - seen
    {
      if current in seen {
        FoundCycle(links, start, path);
        return false;
      }
      seen := seen + {current};
      path := path + [current];
      current := links[current];
    }
    VisitedIsShort(links, path);
    assert LeavesIn(links, start, |path|);
    ok := true;
  }

  /** The check passes exactly when the link graph has no cycle. */
  method CheckAll(links: Links) returns (ok: bool)
    ensures ok <==> Acyclic(links)
    ensures ok ==> forall x | x in links :: Ends(links, x)
  {
    var rest := links.Keys;
    while rest != {}
      invariant rest <= links.Keys && forall x | x in links.Keys - rest :: Ends(links, x)
      decreases rest
    {
      var start :| start in rest;
      ok := CheckFrom(links, start);
      if !ok { return; }
      rest := rest - {start};
    }
    AcyclicIffEnds(links);
    ok := true;
  }

  // ----- where links lead -----

  lemma ParentExtends(a: Parts, b: Parts)
    requires Parent(a) < b
    ensures Parent(a) <= Parent(b)
  {
    assert b[..|Parent(a)|] == Parent(a);
  }

  /** Every hop stays below the directory that holds the first link. */
  lemma {:induction false} StaysBelow(nodes: set<Parts>, links: Links, x: Parts, k: nat)
    requires Resolved(nodes, links) && x in links
    ensures Parent(x) < Hops(links, x, k) && (k >= 1 ==> Hops(links, x, k) in nodes)
    decreases k
  {
    if k == 0 {
      assert Parent(x) == x[..|x| - 1];
    } else {
      StaysBelow(nodes, links, x, k - 1);
      var y := Hops(links, x, k - 1);
      if y in links { ParentExtends(x, y); }
      if k == 1 { assert y == x; }
    }
  }

  /**
   In an acyclic graph of resolved links, every link reaches a node that is not a link, in at most as
   many hops as there are links, and never leaves its own parent directory on the way.
   */
  lemma LinksLeadInside(nodes: set<Parts>, links: Links, x: Parts)
    requires Resolved(nodes, links) && x in links && Ends(links, x)
    ensures exists k: nat :: k <= |links| && Hops(links, x, k) in nodes && Hops(links, x, k) !in links
    ensures forall j: nat :: Parent(x) < Hops(links, x, j)
  {
    var k: nat :| k <= |links| && LeavesIn(links, x, k);
    StaysBelow(nodes, links, x, k);
    forall j: nat
      ensures Parent(x) < Hops(links, x, j)
    {
      StaysBelow(nodes, links, x, j);
    }
  }

  /** Without cycles every link ends, by the check's own walk. */
  lemma {:induction false} AcyclicEnds(links: Links, start: Parts, path: seq<Parts>)
    requires Acyclic(links) && Visited(links, start, path) && |path| <= |links|
    ensures Ends(links, start)
    decreases |links| - |path|
  {
    var current := Hops(links, start, |path|);
    if current !in links {
      assert LeavesIn(links, start, |path|);
    } else {
      if current in path { FoundCycle(links, start, path); }
      VisitedIsShort(links, path + [current]);
      AcyclicEnds(links, start, path + [current]);
    }
  }

  /** The graph is acyclic exactly when every link ends. */
  lemma AcyclicIffEnds(links: Links)
    ensures Acyclic(links) <==> forall x | x in links :: Ends(links, x)
  {
    if Acyclic(links) {
      forall x | x in links
        ensures Ends(links, x)
      {
        AcyclicEnds(links, x, []);
      }
    }
    if forall x | x in links :: Ends(links, x) {
      forall x, k | x in links
        ensures !ReturnsIn(links, x, k)
      {
        var j: nat :| j <= |links| && LeavesIn(links, x, j);
        if ReturnsIn(links, x, k) { CycleNeverLeaves(links, x, k, j); }
      }
    }
  }

  // ----- both loops -----

  /** Each symlink's target, when every one of them is accepted. */
  method ResolveAll(ok: Components, nodes: set<Parts>, payloads: map<Parts, string>) returns (r: Option<Links>)
    requires [] !in payloads
    ensures r.Some? <==> forall x | x in payloads :: Target(ok, nodes, x, payloads[x]).Some?
    ensures r.Some? ==>
              r.value.Keys == payloads.Keys && Resolved(nodes, r.value) &&
              forall x | x in payloads :: Target(ok, nodes, x, payloads[x]) == Some(r.value[x])
  {
    var links: Links := map[];
    var rest := payloads.Keys;
    while rest != {}
      invariant rest <= payloads.Keys && links.Keys == payloads.Keys - rest
      invariant forall x | x in links :: Target(ok, nodes, x, payloads[x]) == Some(links[x])
      decreases rest
    {
      var x :| x in rest;
      var t := Target(ok, nodes, x, payloads[x]);
      if t.None? { return None; }
      links := links[x := t.value];
      rest := rest - {x};
    }
    return Some(links);
  }

  /**
   Symlink validation succeeds exactly when every target is accepted and the links they form have no
   cycle; every link then leads, inside its own directory, to a node that is not a link.
   */
  method ValidateSymlinks(ok: Components, nodes: set<Parts>, payloads: map<Parts, string>) returns (r: Option<Links>)
    requires [] !in payloads
    ensures r.Some? ==>
              r.value.Keys == payloads.Keys && Resolved(nodes, r.value) && Acyclic(r.value) &&
              (forall x | x in payloads :: Target(ok, nodes, x, payloads[x]) == Some(r.value[x])) &&
              forall x | x in payloads :: Ends(r.value, x)
    ensures r.None? ==>
              forall links: Links |
                links.Keys == payloads.Keys &&
                (forall x | x in payloads :: Target(ok, nodes, x, payloads[x]) == Some(links[x])) ::
                !Acyclic(links)
  {
    r := ResolveAll(ok, nodes, payloads);
    if r.None? { return; }
    var acyclic := CheckAll(r.value);
    if !acyclic {
      forall links: Links |
        links.Keys == payloads.Keys &&
        (forall x | x in payloads :: Target(ok, nodes, x, payloads[x]) == Some(links[x]))
        ensures links == r.value
      {
      }
      r := None;
    }
  }
}
