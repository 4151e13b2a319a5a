/** The walk as an object with shared path and cycle state, and the two-tree diff of its inventories. */
module GitClosure {
  import opened Common
  import opened Order
  import opened GitTree
  import opened GitWalk

  class TreeWalk {
    const src: Source
    var active: set<Bytes>
    var seen: set<string>
    var rows: seq<Row>

    constructor (src: Source)
      ensures this.src == src && active == {} && seen == {} && rows == []
    {
      this.src, this.active, this.seen, this.rows := src, {}, {}, [];
    }

    /** The recursion over trees; the tree is active only while it is being walked. */
    method Tree(oid: Bytes, prefix: seq<Bytes>, depth: nat) returns (ok: bool)
      modifies this
      ensures active == old(active)
      ensures var w := WalkTree(src, oid, prefix, old(active), old(seen), old(rows), depth);
              if ok then w == Walked(rows, seen) else w == Refused
      decreases MAX_DEPTH + 1 - depth, 1
    {
      if depth > MAX_DEPTH || oid in active { return false; }
      active := active + {oid};
      var es := src.trees(oid);
      if es.None? {
        active := active - {oid};
        return false;
      }
      ok := AllEntries(es.value, prefix, depth);
      active := active - {oid};
    }

    method AllEntries(es: seq<Entry>, prefix: seq<Bytes>, depth: nat) returns (ok: bool)
      requires depth <= MAX_DEPTH
      modifies this
      ensures active == old(active)
      ensures var w := WalkEntries(src, es, prefix, old(active), old(seen), old(rows), depth);
              if ok then w == Walked(rows, seen) else w == Refused
      decreases MAX_DEPTH + 1 - depth, 0, 1
    {
      var i := 0;
      ghost var goal := WalkEntries(src, es, prefix, active, seen, rows, depth);
      assert es[0..] == es;
      while i < |es|
        invariant 0 <= i <= |es| && active == old(active)
        invariant goal == WalkEntries(src, es[i..], prefix, active, seen, rows, depth)
      {
        assert es[i..][0] == es[i] && es[i..][1..] == es[i + 1..];
        ok := OneEntry(es[i], prefix, depth);
        if !ok { return; }
        i := i + 1;
      }
      ok := true;
    }

    method OneEntry(e: Entry, prefix: seq<Bytes>, depth: nat) returns (ok: bool)
      requires depth <= MAX_DEPTH
      modifies this
      ensures active == old(active)
      ensures var w := WalkEntry(src, e, prefix, old(active), old(seen), old(rows), depth);
              if ok then w == Walked(rows, seen) else w == Refused
      decreases MAX_DEPTH + 1 - depth, 0, 0
    {
      var parts := prefix + [e.name];
      var key := src.fold(Join(parts));
      if key.None? || key.value in seen { return false; }
      seen := seen + {key.value};
      if KindOf(e) == Kind.Tree {
        ok := Tree(e.oid, parts, depth + 1);
        return;
      }
      var row := RowOf(src, prefix, [e.name], e);
      if row.None? { return false; }
      rows := rows + [row.value];
      ok := |rows| <= MAX_ENTRIES;
    }
  }

  // ----- inventories -----

  predicate DistinctPaths(rows: seq<Row>) { forall i, j | 0 <= i < j < |rows| :: rows[i].path != rows[j].path }

  predicate HasPath(rows: seq<Row>, p: Bytes) { exists i :: 0 <= i < |rows| && rows[i].path == p }

  /** The inventory as a mapping from paths; a later row wins. */
  function ByPath(rows: seq<Row>): map<Bytes, Identity> {
    if rows == [] then map[]
    else
      var last := rows[|rows| - 1];
      ByPath(rows[..|rows| - 1])[last.path := last.id]
  }

  lemma HasPathGrows(rows: seq<Row>, p: Bytes)
    requires rows != []
    ensures HasPath(rows, p) <==> HasPath(rows[..|rows| - 1], p) || rows[|rows| - 1].path == p
  {
    var front := rows[..|rows| - 1];
    if HasPath(front, p) {
      var i :| 0 <= i < |front| && front[i].path == p;
      assert rows[i].path == p;
    }
    if HasPath(rows, p) && rows[|rows| - 1].path != p {
      var i :| 0 <= i < |rows| && rows[i].path == p;
      assert front[i].path == p;
    }
  }

  lemma {:induction false} ByPathKeys(rows: seq<Row>, p: Bytes)
    ensures p in ByPath(rows) <==> HasPath(rows, p)
  {
    if rows != [] {
      ByPathKeys(rows[..|rows| - 1], p);
      HasPathGrows(rows, p);
    }
  }

  lemma DistinctGrows(rows: seq<Row>)
    requires rows != []
    ensures var front := rows[..|rows| - 1];
            DistinctPaths(rows) <==> DistinctPaths(front) && !HasPath(front, rows[|rows| - 1].path)
  {
    var front := rows[..|rows| - 1];
    assert forall i | 0 <= i < |front| :: rows[i] == front[i];
    if HasPath(front, rows[|rows| - 1].path) {
      var i :| 0 <= i < |front| && front[i].path == rows[|rows| - 1].path;
      assert rows[i].path == rows[|rows| - 1].path;
    }
  }

  /** The mapping has as many keys as the inventory has rows exactly when no path is repeated. */
  lemma {:induction false} ByPathSize(rows: seq<Row>)
    ensures |ByPath(rows)| <= |rows| && (|ByPath(rows)| == |rows| <==> DistinctPaths(rows))
  {
    if rows != [] {
      var front := rows[..|rows| - 1];
      var last := rows[|rows| - 1];
      ByPathSize(front);
      DistinctGrows(rows);
      ByPathKeys(front, last.path);
      var m := ByPath(front);
      assert ByPath(rows).Keys == m.Keys + {last.path};
      assert |ByPath(rows)| == |ByPath(rows).Keys| && |m| == |m.Keys|;
      if last.path in m { assert m.Keys + {last.path} == m.Keys; }
    }
  }

  /** Without repeated paths the mapping holds every row. */
  lemma {:induction false} ByPathHolds(rows: seq<Row>, i: nat)
    requires DistinctPaths(rows) && i < |rows|
    ensures rows[i].path in ByPath(rows) && ByPath(rows)[rows[i].path] == rows[i].id
  {
    if i < |rows| - 1 {
      assert rows[i].path != rows[|rows| - 1].path;
      ByPathHolds(rows[..|rows| - 1], i);
    }
  }

  // ----- the diff -----

  datatype Change = Change(path: Bytes, before: Option<Identity>, after: Option<Identity>)

  datatype Status = Added | Deleted | Modified

  function StatusOf(c: Change): Status {
    if c.before.None? then Added else if c.after.None? then Deleted else Modified
  }

  function Side(m: map<Bytes, Identity>, p: Bytes): Option<Identity> {
    if p in m then Some(m[p]) else None
  }

  /** A change says what each inventory holds at its path, and the two differ. */
  predicate IsChange(a: map<Bytes, Identity>, b: map<Bytes, Identity>, c: Change) {
    c.before == Side(a, c.path) && c.after == Side(b, c.path) && c.before != c.after
  }

  function Paths(cs: seq<Change>): (ps: seq<Bytes>)
    ensures |ps| == |cs| && forall i | 0 <= i < |cs| :: ps[i] == cs[i].path
  {
    seq(|cs|, i requires 0 <= i < |cs| => cs[i].path)
  }

  /** Exactly the differing paths, in order. */
  predicate IsDiff(a: map<Bytes, Identity>, b: map<Bytes, Identity>, cs: seq<Change>) {
    StrictlySorted(Paths(cs)) &&
    (forall i | 0 <= i < |cs| :: IsChange(a, b, cs[i])) &&
    (forall p | p in a.Keys + b.Keys && Side(a, p) != Side(b, p) :: p in Paths(cs))
  }

  /** The diff restricted to the first `i` of the sorted paths. */
  predicate IsDiffUpTo(a: map<Bytes, Identity>, b: map<Bytes, Identity>, paths: seq<Bytes>, i: nat, cs: seq<Change>) {
    i <= |paths| && StrictlySorted(Paths(cs)) &&
    (forall k | 0 <= k < |cs| :: cs[k].path in paths[..i] && IsChange(a, b, cs[k])) &&
    (forall k | 0 <= k < i && Side(a, paths[k]) != Side(b, paths[k]) :: paths[k] in Paths(cs))
  }

  lemma DiffSkips(a: map<Bytes, Identity>, b: map<Bytes, Identity>, paths: seq<Bytes>, i: nat, cs: seq<Change>)
    requires IsDiffUpTo(a, b, paths, i, cs) && i < |paths| && Side(a, paths[i]) == Side(b, paths[i])
    ensures IsDiffUpTo(a, b, paths, i + 1, cs)
  {
    assert paths[..i + 1] == paths[..i] + [paths[i]];
  }

  lemma DiffAdds(a: map<Bytes, Identity>, b: map<Bytes, Identity>, paths: seq<Bytes>, i: nat, cs: seq<Change>)
    requires IsDiffUpTo(a, b, paths, i, cs) && i < |paths| && StrictlySorted(paths)
    requires Side(a, paths[i]) != Side(b, paths[i])
    ensures IsDiffUpTo(a, b, paths, i + 1, cs + [Change(paths[i], Side(a, paths[i]), Side(b, paths[i]))])
  {
    var p := paths[i];
    var ds := cs + [Change(p, Side(a, p), Side(b, p))];
    assert paths[..i + 1] == paths[..i] + [p];
    assert Paths(ds) == Paths(cs) + [p];
    SortedThrough(paths, i, cs);
    assert StrictlySorted(Paths(ds));
  }

  lemma SortedThrough(paths: seq<Bytes>, i: nat, cs: seq<Change>)
    requires i < |paths| && StrictlySorted(paths) && forall k | 0 <= k < |cs| :: cs[k].path in paths[..i]
    ensures forall k | 0 <= k < |cs| :: Less(cs[k].path, paths[i])
  {
    forall k | 0 <= k < |cs|
      ensures Less(cs[k].path, paths[i])
    {
      var j :| 0 <= j < i && paths[..i][j] == cs[k].path;
      assert paths[j] == cs[k].path;
    }
  }

  lemma DiffCompletes(a: map<Bytes, Identity>, b: map<Bytes, Identity>, paths: seq<Bytes>, cs: seq<Change>)
    requires IsDiffUpTo(a, b, paths, |paths|, cs) && Elements(paths) == a.Keys + b.Keys
    ensures IsDiff(a, b, cs)
  {
    forall p | p in a.Keys + b.Keys && Side(a, p) != Side(b, p)
      ensures p in Paths(cs)
    {
      assert p in Elements(paths);
    }
  }

  /** The loop over the sorted union of paths yields the diff; repeated paths are refused. */
  method ChangedPaths(before: seq<Row>, after: seq<Row>) returns (r: Option<seq<Change>>)
    ensures r.Some? <==> DistinctPaths(before) && DistinctPaths(after)
    ensures r.Some? ==> IsDiff(ByPath(before), ByPath(after), r.value)
  {
    var (a, b) := (ByPath(before), ByPath(after));
    ByPathSize(before);
    ByPathSize(after);
    if |a| != |before| || |b| != |after| { return None; }
    var paths := Sorted(a.Keys + b.Keys);
    var changes: seq<Change> := [];
    var i := 0;
    while i < |paths|
      invariant i <= |paths| && IsDiffUpTo(a, b, paths, i, changes)
    {
      var (x, y) := (Side(a, paths[i]), Side(b, paths[i]));
      if x != y {
        DiffAdds(a, b, paths, i, changes);
        changes := changes + [Change(paths[i], x, y)];
      } else {
        DiffSkips(a, b, paths, i, changes);
      }
      i := i + 1;
    }
    DiffCompletes(a, b, paths, changes);
    return Some(changes);
  }

  // ----- what a diff does -----

  function Apply(m: map<Bytes, Identity>, cs: seq<Change>): map<Bytes, Identity>
    decreases |cs|
  {
    if cs == [] then m
    else
      var c := cs[0];
      Apply(if c.after.Some? then m[c.path := c.after.value] else m - {c.path}, cs[1..])
  }

  function Undone(cs: seq<Change>): (us: seq<Change>)
    ensures |us| == |cs| && forall i | 0 <= i < |cs| :: us[i] == Change(cs[i].path, cs[i].after, cs[i].before)
  {
    seq(|cs|, i requires 0 <= i < |cs| => Change(cs[i].path, cs[i].after, cs[i].before))
  }

  /** After a list of changes, an untouched path is as before and a touched one as its last change says. */
  lemma {:induction false} ApplyAt(m: map<Bytes, Identity>, cs: seq<Change>, p: Bytes)
    requires StrictlySorted(Paths(cs))
    ensures p !in Paths(cs) ==> Side(Apply(m, cs), p) == Side(m, p)
    ensures forall i | 0 <= i < |cs| && cs[i].path == p :: Side(Apply(m, cs), p) == cs[i].after
    decreases |cs|
  {
    if cs != [] {
      var c := cs[0];
      var n := if c.after.Some? then m[c.path := c.after.value] else m - {c.path};
      assert Paths(cs)[1..] == Paths(cs[1..]);
      ApplyAt(n, cs[1..], p);
      assert Side(n, c.path) == c.after;
      if p == c.path {
        LessIsIrreflexive(p);
        assert p !in Paths(cs)[1..];
      } else {
        assert Side(n, p) == Side(m, p);
        assert p in Paths(cs) ==> p in Paths(cs)[1..];
      }
    }
  }

  lemma SameSides(a: map<Bytes, Identity>, b: map<Bytes, Identity>)
    requires forall p :: Side(a, p) == Side(b, p)
    ensures a == b
  {
    forall p
      ensures p in a <==> p in b
      ensures p in a ==> a[p] == b[p]
    {
      assert Side(a, p) == Side(b, p);
    }
  }

  /** Applied to the old inventory the diff gives exactly the new one, and undone it gives back the old. */
  lemma DiffApplies(a: map<Bytes, Identity>, b: map<Bytes, Identity>, cs: seq<Change>)
    requires IsDiff(a, b, cs)
    ensures Apply(a, cs) == b && Apply(b, Undone(cs)) == a
  {
    DiffGives(a, b, cs);
    var us := Undone(cs);
    assert Paths(us) == Paths(cs);
    assert IsDiff(b, a, us) by {
      forall p | p in b.Keys + a.Keys && Side(b, p) != Side(a, p)
        ensures p in Paths(us)
      {
        assert p in a.Keys + b.Keys;
      }
    }
    DiffGives(b, a, us);
  }

  lemma DiffGives(a: map<Bytes, Identity>, b: map<Bytes, Identity>, cs: seq<Change>)
    requires IsDiff(a, b, cs)
    ensures Apply(a, cs) == b
  {
    forall p
      ensures Side(Apply(a, cs), p) == Side(b, p)
    {
      ApplyAt(a, cs, p);
      if p in Paths(cs) {
        var i :| 0 <= i < |cs| && Paths(cs)[i] == p;
        assert IsChange(a, b, cs[i]);
      } else if p in a.Keys + b.Keys {
        assert Side(a, p) == Side(b, p);
      }
    }
    SameSides(Apply(a, cs), b);
  }

  /** Two inventories have one diff. */
  lemma DiffIsUnique(a: map<Bytes, Identity>, b: map<Bytes, Identity>, cs: seq<Change>, ds: seq<Change>)
    requires IsDiff(a, b, cs) && IsDiff(a, b, ds)
    ensures cs == ds
  {
    forall p
      ensures p in Elements(Paths(cs)) <==> p in Elements(Paths(ds))
    {
      ChangedExactly(a, b, cs, p);
      ChangedExactly(a, b, ds, p);
    }
    SortedListIsUnique(Paths(cs), Paths(ds));
    forall i | 0 <= i < |cs|
      ensures cs[i] == ds[i]
    {
      assert Paths(cs)[i] == Paths(ds)[i];
      assert IsChange(a, b, cs[i]) && IsChange(a, b, ds[i]);
    }
  }

  /** A path is listed exactly when the two inventories differ at it. */
  lemma ChangedExactly(a: map<Bytes, Identity>, b: map<Bytes, Identity>, cs: seq<Change>, p: Bytes)
    requires IsDiff(a, b, cs)
    ensures p in Paths(cs) <==> Side(a, p) != Side(b, p)
  {
    if p in Paths(cs) {
      var i :| 0 <= i < |cs| && Paths(cs)[i] == p;
      assert IsChange(a, b, cs[i]);
    }
    if Side(a, p) != Side(b, p) { assert p in a.Keys + b.Keys; }
  }

  /** The status of a listed change says which inventories hold the path. */
  lemma StatusTells(a: map<Bytes, Identity>, b: map<Bytes, Identity>, cs: seq<Change>, i: nat)
    requires IsDiff(a, b, cs) && i < |cs|
    ensures var p := cs[i].path;
            match StatusOf(cs[i])
            case Added => p !in a && p in b
            case Deleted => p in a && p !in b
            case Modified => p in a && p in b && a[p] != b[p]
  {
    assert IsChange(a, b, cs[i]);
  }

  // ----- the verifier's demand -----

  function HexPaths(ps: seq<Bytes>): (hs: seq<Bytes>)
    requires forall i | 0 <= i < |ps| :: IsBytes(ps[i])
    ensures |hs| == |ps| && forall i | 0 <= i < |ps| :: hs[i] == Hex(ps[i])
  {
    seq(|ps|, i requires 0 <= i < |ps| => Hex(ps[i]))
  }

  /** The verifier compares the reported paths with the sorted list of their set. */
  method SortedAndUnique(hexes: seq<Bytes>) returns (ok: bool)
    ensures ok <==> StrictlySorted(hexes)
  {
    var sorted := Sorted(Elements(hexes));
    if StrictlySorted(hexes) { SortedListIsUnique(hexes, sorted); }
    ok := hexes == sorted;
  }

  /** The paths of a diff, in hexadecimal, are strictly sorted: the verifier always accepts them. */
  lemma DiffMeetsVerifier(a: map<Bytes, Identity>, b: map<Bytes, Identity>, cs: seq<Change>)
    requires IsDiff(a, b, cs) && forall i | 0 <= i < |cs| :: IsBytes(cs[i].path)
    ensures StrictlySorted(HexPaths(Paths(cs)))
  {
    var ps := Paths(cs);
    forall i, j | 0 <= i < j < |ps|
      ensures Less(HexPaths(ps)[i], HexPaths(ps)[j])
    {
      HexPreservesOrder(ps[i], ps[j]);
    }
  }
}
