/** When the closure of a tree completes, told by what is reachable and not by the walk. */
module GitComplete {
  import opened Common
  import opened GitTree
  import opened GitWalk

  predicate Distinct<T(==)>(es: seq<T>) { forall i, j | 0 <= i < j < |es| :: es[i] != es[j] }

  function Key(src: Source, prefix: seq<Bytes>, parts: seq<Bytes>): Option<string> { src.fold(Join(prefix + parts)) }

  /** A readable tree without repeated entries. */
  predicate GoodTree(src: Source, oid: Bytes) { src.trees(oid).Some? && Distinct(src.trees(oid).value) }

  /** An entry whose path folds, and whose object can be read; a tree lies within the depth bound. */
  predicate GoodEntry(src: Source, prefix: seq<Bytes>, parts: seq<Bytes>, e: Entry) {
    && Key(src, prefix, parts).Some?
    && if KindOf(e) == Tree then |prefix| + |parts| <= MAX_DEPTH && GoodTree(src, e.oid) else src.blobs(e.oid).Some?
  }

  /** No two entries reachable from the root have paths that fold alike. */
  ghost predicate FoldsApart(src: Source, root: Bytes) {
    forall p, e, q, f |
      Reaches(src, root, p, e) && Reaches(src, root, q, f) && Key(src, [], p) == Key(src, [], q) :: p == q && e == f
  }

  ghost predicate AreLeaves(src: Source, root: Bytes, rows: seq<Row>) {
    Distinct(rows) && forall i | 0 <= i < |rows| :: IsLeaf(src, root, rows[i])
  }

  ghost predicate FewLeaves(src: Source, root: Bytes) {
    forall rows: seq<Row> | AreLeaves(src, root, rows) :: |rows| <= MAX_ENTRIES
  }

  ghost predicate AllGood(src: Source, root: Bytes) {
    forall parts, e | Reaches(src, root, parts, e) :: GoodEntry(src, [], parts, e)
  }

  ghost predicate Complete(src: Source, root: Bytes) {
    GoodTree(src, root) && AllGood(src, root) && FoldsApart(src, root) && FewLeaves(src, root)
  }

  // ----- what a completed walk has checked -----

  ghost predicate KeyBelow(src: Source, es: seq<Entry>, prefix: seq<Bytes>, k: string) {
    exists parts, e :: ReachesIn(src, es, parts, e) && Key(src, prefix, parts) == Some(k)
  }

  predicate NewKey(src: Source, prefix: seq<Bytes>, parts: seq<Bytes>, before: set<string>, after: set<string>) {
    var k := Key(src, prefix, parts);
    k.Some? && k.value !in before && k.value in after
  }

  ghost predicate ApartBelow(src: Source, es: seq<Entry>, prefix: seq<Bytes>) {
    forall p, e, q, f |
      ReachesIn(src, es, p, e) && ReachesIn(src, es, q, f) && Key(src, prefix, p) == Key(src, prefix, q) ::
      p == q && e == f
  }

  /** The keys noted from one state of the walk to a later one are those of the entries below. */
  ghost predicate Keyed(src: Source, es: seq<Entry>, prefix: seq<Bytes>, before: set<string>, after: set<string>) {
    && before <= after && Distinct(es) && ApartBelow(src, es, prefix)
    && (forall parts, e | ReachesIn(src, es, parts, e) ::
          NewKey(src, prefix, parts, before, after) && GoodEntry(src, prefix, parts, e))
    && (forall k | k in after && k !in before :: KeyBelow(src, es, prefix, k))
  }

  lemma OnlyItself(src: Source, at: Entry, parts: seq<Bytes>, e: Entry)
    requires ReachesIn(src, [at], parts, e)
    ensures parts[0] == at.name && (|parts| == 1 || KindOf(at) != Tree ==> parts == [at.name] && e == at)
  {
    assert Via(src, [at][0], parts, e);
  }

  lemma Itself(src: Source, es: seq<Entry>, i: nat)
    requires i < |es|
    ensures ReachesIn(src, es, [es[i].name], es[i])
  {
    assert Via(src, es[i], [es[i].name], es[i]);
  }

  lemma SameKey(src: Source, prefix: seq<Bytes>, name: Bytes, parts: seq<Bytes>)
    ensures Key(src, prefix + [name], parts) == Key(src, prefix, [name] + parts)
  {
    assert prefix + [name] + parts == prefix + ([name] + parts);
  }

  /** An entry strictly below `at` is one of its tree's, named without `at`. */
  lemma Inside(src: Source, at: Entry, es: seq<Entry>, prefix: seq<Bytes>, parts: seq<Bytes>, e: Entry)
    requires KindOf(at) == Tree && src.trees(at.oid) == Some(es) && |parts| > 1 && ReachesIn(src, [at], parts, e)
    ensures parts == [at.name] + parts[1..] && ReachesIn(src, es, parts[1..], e)
    ensures Key(src, prefix, parts) == Key(src, prefix + [at.name], parts[1..])
    ensures GoodEntry(src, prefix, parts, e) <==> GoodEntry(src, prefix + [at.name], parts[1..], e)
  {
    ReachesBelow(src, at, parts, e);
    assert parts == [at.name] + parts[1..];
    SameKey(src, prefix, at.name, parts[1..]);
  }

  lemma Outside(src: Source, at: Entry, es: seq<Entry>, parts: seq<Bytes>, e: Entry)
    requires KindOf(at) == Tree && src.trees(at.oid) == Some(es) && ReachesIn(src, es, parts, e)
    ensures ReachesIn(src, [at], [at.name] + parts, e)
  {
    assert ([at.name] + parts)[1..] == parts;
    assert Reaches(src, at.oid, parts, e);
    ReachesBelow(src, at, [at.name] + parts, e);
  }

  lemma ApartTree(
      src: Source, at: Entry, es: seq<Entry>, prefix: seq<Bytes>, before: set<string>, key: string, after: set<string>)
    requires KindOf(at) == Tree && src.trees(at.oid) == Some(es)
    requires Key(src, prefix, [at.name]) == Some(key) && key !in before
    requires Keyed(src, es, prefix + [at.name], before + {key}, after)
    ensures ApartBelow(src, [at], prefix)
  {
    forall p, e, q, f |
      ReachesIn(src, [at], p, e) && ReachesIn(src, [at], q, f) && Key(src, prefix, p) == Key(src, prefix, q)
      ensures p == q && e == f
    {
      OnlyItself(src, at, p, e);
      OnlyItself(src, at, q, f);
      if |p| > 1 { Inside(src, at, es, prefix, p, e); }
      if |q| > 1 { Inside(src, at, es, prefix, q, f); }
    }
  }

  lemma KeyedTree(
      src: Source, at: Entry, es: seq<Entry>, prefix: seq<Bytes>, before: set<string>, key: string, after: set<string>)
    requires KindOf(at) == Tree && src.trees(at.oid) == Some(es) && |prefix| < MAX_DEPTH
    requires Key(src, prefix, [at.name]) == Some(key) && key !in before
    requires Keyed(src, es, prefix + [at.name], before + {key}, after)
    ensures Keyed(src, [at], prefix, before, after)
  {
    ApartTree(src, at, es, prefix, before, key, after);
    forall parts, e | ReachesIn(src, [at], parts, e)
      ensures NewKey(src, prefix, parts, before, after) && GoodEntry(src, prefix, parts, e)
    {
      OnlyItself(src, at, parts, e);
      if |parts| > 1 { Inside(src, at, es, prefix, parts, e); }
    }
    forall k | k in after && k !in before
      ensures KeyBelow(src, [at], prefix, k)
    {
      if k == key {
        Itself(src, [at], 0);
      } else {
        var parts, e :| ReachesIn(src, es, parts, e) && Key(src, prefix + [at.name], parts) == Some(k);
        Outside(src, at, es, parts, e);
        SameKey(src, prefix, at.name, parts);
      }
    }
  }

  lemma KeyedLeaf(src: Source, at: Entry, prefix: seq<Bytes>, before: set<string>, key: string)
    requires KindOf(at) != Tree && src.blobs(at.oid).Some?
    requires Key(src, prefix, [at.name]) == Some(key) && key !in before
    ensures Keyed(src, [at], prefix, before, before + {key})
  {
    Itself(src, [at], 0);
    forall parts, e | ReachesIn(src, [at], parts, e)
      ensures parts == [at.name] && e == at
    {
      OnlyItself(src, at, parts, e);
    }
  }

  lemma KeyedBoth(
      src: Source, es: seq<Entry>, prefix: seq<Bytes>, before: set<string>, mid: set<string>, after: set<string>)
    requires es != [] && Keyed(src, [es[0]], prefix, before, mid) && Keyed(src, es[1..], prefix, mid, after)
    ensures Keyed(src, es, prefix, before, after)
  {
    forall j | 1 <= j < |es|
      ensures es[0] != es[j]
    {
      Itself(src, [es[0]], 0);
      Itself(src, es[1..], j - 1);
    }
    assert forall j | 1 <= j < |es| :: es[j] == es[1..][j - 1];
    forall parts, e | ReachesIn(src, es, parts, e)
      ensures NewKey(src, prefix, parts, before, after) && GoodEntry(src, prefix, parts, e)
    {
      ReachesInCons(src, es, parts, e);
    }
    forall p, e, q, f |
      ReachesIn(src, es, p, e) && ReachesIn(src, es, q, f) && Key(src, prefix, p) == Key(src, prefix, q)
      ensures p == q && e == f
    {
      ReachesInCons(src, es, p, e);
      ReachesInCons(src, es, q, f);
    }
    forall k | k in after && k !in before
      ensures KeyBelow(src, es, prefix, k)
    {
      var from := if k in mid then [es[0]] else es[1..];
      var parts, e :| ReachesIn(src, from, parts, e) && Key(src, prefix, parts) == Some(k);
      ReachesInCons(src, es, parts, e);
    }
  }

  lemma {:induction false} EntriesKeyed(
      src: Source, es: seq<Entry>, prefix: seq<Bytes>, active: set<Bytes>, seen: set<string>, rows: seq<Row>)
    requires |prefix| <= MAX_DEPTH && WalkEntries(src, es, prefix, active, seen, rows, |prefix|).Walked?
    ensures Keyed(src, es, prefix, seen, WalkEntries(src, es, prefix, active, seen, rows, |prefix|).seen)
    decreases MAX_DEPTH + 1 - |prefix|, 1, |es|
  {
    if es != [] {
      var mid := WalkEntry(src, es[0], prefix, active, seen, rows, |prefix|);
      EntryKeyed(src, es[0], prefix, active, seen, rows);
      EntriesKeyed(src, es[1..], prefix, active, mid.seen, mid.rows);
      KeyedBoth(src, es, prefix, seen, mid.seen,
                WalkEntries(src, es[1..], prefix, active, mid.seen, mid.rows, |prefix|).seen);
    }
  }

  lemma {:induction false} EntryKeyed(
      src: Source, e: Entry, prefix: seq<Bytes>, active: set<Bytes>, seen: set<string>, rows: seq<Row>)
    requires |prefix| <= MAX_DEPTH && WalkEntry(src, e, prefix, active, seen, rows, |prefix|).Walked?
    ensures Keyed(src, [e], prefix, seen, WalkEntry(src, e, prefix, active, seen, rows, |prefix|).seen)
    decreases MAX_DEPTH + 1 - |prefix|, 0, 0
  {
    var parts := prefix + [e.name];
    var key := src.fold(Join(parts)).value;
    if KindOf(e) == Tree {
      var es := src.trees(e.oid).value;
      EntriesKeyed(src, es, parts, active + {e.oid}, seen + {key}, rows);
      KeyedTree(src, e, es, prefix, seen, key,
                WalkEntries(src, es, parts, active + {e.oid}, seen + {key}, rows, |parts|).seen);
    } else {
      KeyedLeaf(src, e, prefix, seen, key);
    }
  }

  lemma {:induction false} EntriesBounded(
      src: Source, es: seq<Entry>, prefix: seq<Bytes>, active: set<Bytes>, seen: set<string>, rows: seq<Row>, depth: nat)
    requires depth <= MAX_DEPTH && |rows| <= MAX_ENTRIES
    ensures var w := WalkEntries(src, es, prefix, active, seen, rows, depth); w.Walked? ==> |w.rows| <= MAX_ENTRIES
    decreases MAX_DEPTH + 1 - depth, 1, |es|
  {
    if es != [] {
      EntryBounded(src, es[0], prefix, active, seen, rows, depth);
      var mid := WalkEntry(src, es[0], prefix, active, seen, rows, depth);
      if mid.Walked? { EntriesBounded(src, es[1..], prefix, active, mid.seen, mid.rows, depth); }
    }
  }

  lemma {:induction false} EntryBounded(
      src: Source, e: Entry, prefix: seq<Bytes>, active: set<Bytes>, seen: set<string>, rows: seq<Row>, depth: nat)
    requires depth <= MAX_DEPTH && |rows| <= MAX_ENTRIES
    ensures var w := WalkEntry(src, e, prefix, active, seen, rows, depth); w.Walked? ==> |w.rows| <= MAX_ENTRIES
    decreases MAX_DEPTH + 1 - depth, 0, 0
  {
    var key := src.fold(Join(prefix + [e.name]));
    if KindOf(e) == Tree && key.Some? && src.trees(e.oid).Some? && depth < MAX_DEPTH {
      var es := src.trees(e.oid).value;
      EntriesBounded(src, es, prefix + [e.name], active + {e.oid}, seen + {key.value}, rows, depth + 1);
    }
  }

  function Members<T(==)>(s: seq<T>): set<T> { set x | x in s }

  lemma {:induction false} MembersOfDistinct<T>(s: seq<T>)
    ensures |Members(s)| <= |s| && (Distinct(s) ==> |Members(s)| == |s|)
  {
    if s != [] {
      var (front, last) := (s[..|s| - 1], s[|s| - 1]);
      MembersOfDistinct(front);
      assert s == front + [last];
      assert Members(s) == Members(front) + {last};
      if Distinct(s) { assert last !in front; }
    }
  }

  lemma SubsetSize<T>(a: set<T>, b: set<T>)
    requires a <= b
    ensures |a| <= |b|
  {
    assert b == a + (b - a);
  }

  lemma WalkedIsComplete(src: Source, root: Bytes)
    requires Closure(src, root).Walked?
    ensures Complete(src, root)
  {
    var es := src.trees(root).value;
    var rows := Closure(src, root).rows;
    EntriesKeyed(src, es, [], {} + {root}, {}, []);
    EntriesBounded(src, es, [], {} + {root}, {}, [], 0);
    ClosureIsExact(src, root);
    assert forall p, e :: Reaches(src, root, p, e) <==> ReachesIn(src, es, p, e);
    forall leaves: seq<Row> | AreLeaves(src, root, leaves)
      ensures |leaves| <= MAX_ENTRIES
    {
      assert Members(leaves) <= Members(rows);
      SubsetSize(Members(leaves), Members(rows));
      MembersOfDistinct(leaves);
      MembersOfDistinct(rows);
    }
  }

  // ----- what completes a walk -----

  /** What is below these entries is below the tree `oid`, at parts that begin with `p`. */
  ghost predicate Leads(src: Source, oid: Bytes, p: seq<Bytes>, es: seq<Entry>) {
    forall parts, e | ReachesIn(src, es, parts, e) :: Reaches(src, oid, p + parts, e)
  }

  ghost predicate LeadsFrom(src: Source, oid: Bytes, es: seq<Entry>) { exists p: seq<Bytes> :: Leads(src, oid, p, es) }

  lemma LeadsToRest(src: Source, oid: Bytes, p: seq<Bytes>, es: seq<Entry>)
    requires es != [] && Leads(src, oid, p, es)
    ensures Leads(src, oid, p, [es[0]]) && Leads(src, oid, p, es[1..])
  {
    forall parts, e | ReachesIn(src, [es[0]], parts, e) || ReachesIn(src, es[1..], parts, e)
      ensures Reaches(src, oid, p + parts, e)
    {
      ReachesInCons(src, es, parts, e);
    }
  }

  lemma LeadsInside(src: Source, oid: Bytes, p: seq<Bytes>, at: Entry, es: seq<Entry>)
    requires Leads(src, oid, p, [at]) && KindOf(at) == Tree && src.trees(at.oid) == Some(es)
    ensures Leads(src, oid, p + [at.name], es)
  {
    forall parts, e | ReachesIn(src, es, parts, e)
      ensures Reaches(src, oid, p + [at.name] + parts, e)
    {
      Outside(src, at, es, parts, e);
      assert p + [at.name] + parts == p + ([at.name] + parts);
    }
  }

  /** Following parts to a tree and parts inside it is following both. */
  lemma {:induction false} ReachesOn(src: Source, oid: Bytes, p: seq<Bytes>, at: Entry, q: seq<Bytes>, e: Entry)
    requires Reaches(src, oid, p, at) && KindOf(at) == Tree && Reaches(src, at.oid, q, e)
    ensures Reaches(src, oid, p + q, e)
    decreases |p|
  {
    var es := src.trees(oid).value;
    var i :| 0 <= i < |es| && Via(src, es[i], p, at);
    assert (p + q)[1..] == p[1..] + q && (p + q)[0] == p[0];
    if |p| > 1 { ReachesOn(src, es[i].oid, p[1..], at, q, e); }
    assert |q| >= 1;
    assert Via(src, es[i], p + q, e);
  }

  /** A tree below itself leads to entries of any depth. */
  lemma {:induction false} CycleIsDeep(src: Source, root: Bytes, p: seq<Bytes>, at: Entry, cycle: seq<Bytes>, n: nat)
      returns (parts: seq<Bytes>)
    requires Reaches(src, root, p, at) && KindOf(at) == Tree && Reaches(src, at.oid, cycle, at)
    ensures |parts| >= n && Reaches(src, root, parts, at)
  {
    if n == 0 {
      parts := p;
    } else {
      parts := CycleIsDeep(src, root, p, at, cycle, n - 1);
      ReachesOn(src, root, parts, at, cycle, at);
      parts := parts + cycle;
    }
  }

  /** The walk meets no tree that it is inside of. */
  lemma NotActive(src: Source, root: Bytes, prefix: seq<Bytes>, at: Entry)
    requires AllGood(src, root) && Leads(src, root, prefix, [at]) && KindOf(at) == Tree
    ensures !LeadsFrom(src, at.oid, [at])
  {
    Itself(src, [at], 0);
    if LeadsFrom(src, at.oid, [at]) {
      var p: seq<Bytes> :| Leads(src, at.oid, p, [at]);
      var parts := CycleIsDeep(src, root, prefix + [at.name], at, p + [at.name], MAX_DEPTH + 1);
      assert false;
    }
  }

  /** No entry below has a path whose folding has been noted. */
  ghost predicate Fresh(src: Source, es: seq<Entry>, prefix: seq<Bytes>, seen: set<string>) {
    forall k | k in seen :: !KeyBelow(src, es, prefix, k)
  }

  /** The state of a walk that will go through: where it is, and what it has gathered. */
  ghost predicate OnCourse(
      src: Source, root: Bytes, es: seq<Entry>, prefix: seq<Bytes>, active: set<Bytes>, seen: set<string>,
      rows: seq<Row>)
  {
    && Complete(src, root) && |prefix| <= MAX_DEPTH && Distinct(es) && Leads(src, root, prefix, es)
    && (forall a | a in active :: LeadsFrom(src, a, es))
    && Fresh(src, es, prefix, seen) && Folded(src, rows, seen)
    && forall row | row in rows :: IsLeaf(src, root, row)
  }

  lemma RootKey(src: Source, prefix: seq<Bytes>, parts: seq<Bytes>)
    ensures Key(src, [], prefix + parts) == Key(src, prefix, parts)
  {
    assert [] + (prefix + parts) == prefix + parts;
  }

  /** The first entry's keys are not those of the later ones. */
  lemma FreshRest(
      src: Source, root: Bytes, es: seq<Entry>, prefix: seq<Bytes>, seen: set<string>, mid: set<string>)
    requires es != [] && Distinct(es) && FoldsApart(src, root) && Leads(src, root, prefix, es)
    requires Fresh(src, es, prefix, seen) && Keyed(src, [es[0]], prefix, seen, mid)
    ensures Fresh(src, es[1..], prefix, mid)
  {
    forall k | k in mid
      ensures !KeyBelow(src, es[1..], prefix, k)
    {
      if KeyBelow(src, es[1..], prefix, k) {
        var q, f :| ReachesIn(src, es[1..], q, f) && Key(src, prefix, q) == Some(k);
        ReachesInCons(src, es, q, f);
        var p, e :| ReachesIn(src, [es[0]], p, e) && Key(src, prefix, p) == Some(k);
        ReachesInCons(src, es, p, e);
        RestDiffers(src, root, es, prefix, p, e, q, f);
      }
    }
  }

  lemma RestDiffers(
      src: Source, root: Bytes, es: seq<Entry>, prefix: seq<Bytes>, p: seq<Bytes>, e: Entry, q: seq<Bytes>, f: Entry)
    requires es != [] && Distinct(es) && FoldsApart(src, root) && Leads(src, root, prefix, es)
    requires ReachesIn(src, [es[0]], p, e) && ReachesIn(src, es[1..], q, f)
    ensures Key(src, prefix, p) != Key(src, prefix, q)
  {
    if Key(src, prefix, p) == Key(src, prefix, q) {
      ReachesInCons(src, es, p, e);
      ReachesInCons(src, es, q, f);
      RootKey(src, prefix, p);
      RootKey(src, prefix, q);
      assert prefix + p == prefix + q;
      assert p == (prefix + p)[|prefix|..] == q;
      OnlyItself(src, es[0], p, e);
      var j :| 0 <= j < |es| - 1 && Via(src, es[1..][j], q, f);
      Itself(src, es, 0);
      Itself(src, es, j + 1);
      assert false;
    }
  }

  lemma LeafBelowRoot(src: Source, root: Bytes, es: seq<Entry>, prefix: seq<Bytes>, row: Row)
    requires Leads(src, root, prefix, es) && IsLeafRow(src, es, prefix, row)
    ensures IsLeaf(src, root, row)
  {
    var parts, e :| ReachesIn(src, es, parts, e) && KindOf(e) != Tree && RowOf(src, prefix, parts, e) == Some(row);
    assert [] + (prefix + parts) == prefix + parts;
    assert Reaches(src, root, prefix + parts, e);
  }

  lemma FirstOnCourse(
      src: Source, root: Bytes, es: seq<Entry>, prefix: seq<Bytes>, active: set<Bytes>, seen: set<string>, rows: seq<Row>)
    requires es != [] && OnCourse(src, root, es, prefix, active, seen, rows)
    ensures OnCourse(src, root, [es[0]], prefix, active, seen, rows)
  {
    LeadsToRest(src, root, prefix, es);
    forall a | a in active
      ensures LeadsFrom(src, a, [es[0]])
    {
      var p: seq<Bytes> :| Leads(src, a, p, es);
      LeadsToRest(src, a, p, es);
    }
    forall k | k in seen
      ensures !KeyBelow(src, [es[0]], prefix, k)
    {
      if KeyBelow(src, [es[0]], prefix, k) {
        var parts, e :| ReachesIn(src, [es[0]], parts, e) && Key(src, prefix, parts) == Some(k);
        ReachesInCons(src, es, parts, e);
      }
    }
  }

  lemma RestOnCourse(
      src: Source, root: Bytes, es: seq<Entry>, prefix: seq<Bytes>, active: set<Bytes>, seen: set<string>, rows: seq<Row>,
      mid: Walk)
    requires es != [] && OnCourse(src, root, es, prefix, active, seen, rows) && mid.Walked?
    requires Keyed(src, [es[0]], prefix, seen, mid.seen)
    requires Covers(src, [es[0]], prefix, |prefix|, rows, seen, mid)
    ensures OnCourse(src, root, es[1..], prefix, active, mid.seen, mid.rows)
  {
    LeadsToRest(src, root, prefix, es);
    FreshRest(src, root, es, prefix, seen, mid.seen);
    forall a | a in active
      ensures LeadsFrom(src, a, es[1..])
    {
      var p: seq<Bytes> :| Leads(src, a, p, es);
      LeadsToRest(src, a, p, es);
    }
    forall row | row in mid.rows
      ensures IsLeaf(src, root, row)
    {
      if row !in rows { LeafBelowRoot(src, root, [es[0]], prefix, row); }
    }
  }

  /** Nothing strictly below a tree folds like the tree itself. */
  lemma BelowDiffers(src: Source, root: Bytes, at: Entry, es: seq<Entry>, prefix: seq<Bytes>, parts: seq<Bytes>, e: Entry)
    requires FoldsApart(src, root) && Leads(src, root, prefix, [at])
    requires KindOf(at) == Tree && src.trees(at.oid) == Some(es) && ReachesIn(src, es, parts, e)
    ensures Key(src, prefix + [at.name], parts) != Key(src, prefix, [at.name])
  {
    var longer := [at.name] + parts;
    Outside(src, at, es, parts, e);
    Itself(src, [at], 0);
    SameKey(src, prefix, at.name, parts);
    RootKey(src, prefix, [at.name]);
    RootKey(src, prefix, longer);
    assert |prefix + longer| != |prefix + [at.name]|;
  }

  lemma FreshInside(
      src: Source, root: Bytes, at: Entry, es: seq<Entry>, prefix: seq<Bytes>, seen: set<string>, key: string)
    requires FoldsApart(src, root) && Leads(src, root, prefix, [at]) && Fresh(src, [at], prefix, seen)
    requires KindOf(at) == Tree && src.trees(at.oid) == Some(es) && Key(src, prefix, [at.name]) == Some(key)
    ensures Fresh(src, es, prefix + [at.name], seen + {key})
  {
    forall k | k in seen + {key}
      ensures !KeyBelow(src, es, prefix + [at.name], k)
    {
      if KeyBelow(src, es, prefix + [at.name], k) {
        var parts, e :| ReachesIn(src, es, parts, e) && Key(src, prefix + [at.name], parts) == Some(k);
        BelowDiffers(src, root, at, es, prefix, parts, e);
        Outside(src, at, es, parts, e);
        SameKey(src, prefix, at.name, parts);
      }
    }
  }

  lemma TreeOnCourse(
      src: Source, root: Bytes, at: Entry, es: seq<Entry>, prefix: seq<Bytes>, active: set<Bytes>, seen: set<string>,
      rows: seq<Row>, key: string)
    requires OnCourse(src, root, [at], prefix, active, seen, rows)
    requires KindOf(at) == Tree && src.trees(at.oid) == Some(es) && Distinct(es) && |prefix| < MAX_DEPTH
    requires Key(src, prefix, [at.name]) == Some(key)
    ensures OnCourse(src, root, es, prefix + [at.name], active + {at.oid}, seen + {key}, rows)
  {
    LeadsInside(src, root, prefix, at, es);
    forall a | a in active + {at.oid}
      ensures LeadsFrom(src, a, es)
    {
      if a == at.oid {
        assert forall parts: seq<Bytes> :: [] + parts == parts;
        assert Leads(src, a, [], es);
      } else {
        var p: seq<Bytes> :| Leads(src, a, p, [at]);
        LeadsInside(src, a, p, at, es);
      }
    }
    FreshInside(src, root, at, es, prefix, seen, key);
    forall i | 0 <= i < |rows|
      ensures Noted(src, rows[i].path, seen + {key})
    {
      assert Noted(src, rows[i].path, seen);
    }
  }

  /** One more leaf is within the bound. */
  lemma RoomForLeaf(
      src: Source, root: Bytes, at: Entry, prefix: seq<Bytes>, active: set<Bytes>, seen: set<string>,
      rows: seq<Row>, row: Row)
    requires OnCourse(src, root, [at], prefix, active, seen, rows) && KindOf(at) != Tree
    requires RowOf(src, prefix, [at.name], at) == Some(row)
    ensures |rows| + 1 <= MAX_ENTRIES
  {
    Itself(src, [at], 0);
    LeafBelowRoot(src, root, [at], prefix, row);
    assert Key(src, prefix, [at.name]) == src.fold(row.path);
    forall i | 0 <= i < |rows|
      ensures rows[i] != row
    {
      assert Noted(src, rows[i].path, seen);
    }
    assert AreLeaves(src, root, rows + [row]);
  }

  lemma {:induction false} EntriesComplete(
      src: Source, root: Bytes, es: seq<Entry>, prefix: seq<Bytes>, active: set<Bytes>, seen: set<string>, rows: seq<Row>)
    requires OnCourse(src, root, es, prefix, active, seen, rows)
    ensures WalkEntries(src, es, prefix, active, seen, rows, |prefix|).Walked?
    decreases MAX_DEPTH + 1 - |prefix|, 1, |es|
  {
    if es != [] {
      FirstOnCourse(src, root, es, prefix, active, seen, rows);
      EntryCompletes(src, root, es[0], prefix, active, seen, rows);
      var mid := WalkEntry(src, es[0], prefix, active, seen, rows, |prefix|);
      EntryKeyed(src, es[0], prefix, active, seen, rows);
      EntryCovered(src, es[0], prefix, active, seen, rows, |prefix|);
      RestOnCourse(src, root, es, prefix, active, seen, rows, mid);
      EntriesComplete(src, root, es[1..], prefix, active, mid.seen, mid.rows);
    }
  }

  lemma {:induction false} EntryCompletes(
      src: Source, root: Bytes, e: Entry, prefix: seq<Bytes>, active: set<Bytes>, seen: set<string>, rows: seq<Row>)
    requires OnCourse(src, root, [e], prefix, active, seen, rows)
    ensures WalkEntry(src, e, prefix, active, seen, rows, |prefix|).Walked?
    decreases MAX_DEPTH + 1 - |prefix|, 0, 0
  {
    var parts := prefix + [e.name];
    Itself(src, [e], 0);
    RootKey(src, prefix, [e.name]);
    assert Reaches(src, root, parts, e);
    assert GoodEntry(src, [], parts, e);
    var key := src.fold(Join(parts)).value;
    assert key !in seen by { assert KeyBelow(src, [e], prefix, key); }
    if KindOf(e) == Tree {
      var es := src.trees(e.oid).value;
      assert e.oid !in active by { NotActive(src, root, prefix, e); }
      TreeOnCourse(src, root, e, es, prefix, active, seen, rows, key);
      EntriesComplete(src, root, es, parts, active + {e.oid}, seen + {key}, rows);
    } else {
      RoomForLeaf(src, root, e, prefix, active, seen, rows, RowOf(src, prefix, [e.name], e).value);
    }
  }

  lemma CompleteIsWalked(src: Source, root: Bytes)
    requires Complete(src, root)
    ensures Closure(src, root).Walked?
  {
    var es := src.trees(root).value;
    assert forall parts: seq<Bytes> :: [] + parts == parts;
    assert Leads(src, root, [], es);
    EntriesComplete(src, root, es, [], {} + {root}, {}, []);
  }

  /**
   The closure of a tree completes exactly when every reachable tree and blob can be read, no tree
   repeats an entry, no reachable tree lies deeper than the bound, all reachable paths fold and do so
   apart, directories included, and there are not too many leaves.
   */
  lemma ClosureCompletesIff(src: Source, root: Bytes)
    ensures Closure(src, root).Walked? <==> Complete(src, root)
  {
    if Closure(src, root).Walked? { WalkedIsComplete(src, root); }
    if Complete(src, root) { CompleteIsWalked(src, root); }
  }
}
