/** The closure of a tree: every leaf below it, from an object source that may be cyclic. */
module GitWalk {
  import opened Common
  import opened Order
  import opened GitTree
  import G = GitObjects

  const MAX_DEPTH: nat := 1024

  datatype BlobFacts = BlobFacts(size: nat, sha256: string)

  /** What the walk learns from the object reader, and the folding it compares paths by. */
  datatype Source = Source(
    trees: Bytes -> Option<seq<Entry>>,
    blobs: Bytes -> Option<BlobFacts>,
    fold: Bytes -> Option<string>)

  type Reader = Bytes -> Option<G.Verified>

  /** A readable tree with well-formed entries, filed under its own identity. */
  function TreeAt(rd: Reader, names: Names, oid: Bytes): Option<seq<Entry>> {
    match rd(oid)
    case None => None
    case Some(v) =>
      if v.kind != "tree" || v.oid != oid || !IsBytes(v.payload) then None else Entries(names, None, v.payload)
  }

  function BlobAt(rd: Reader, sha256: Bytes -> string, oid: Bytes): Option<BlobFacts> {
    match rd(oid)
    case None => None
    case Some(v) =>
      if v.kind != "blob" || v.oid != oid then None else Some(BlobFacts(|v.payload|, sha256(v.payload)))
  }

  function SourceOf(rd: Reader, names: Names, sha256: Bytes -> string, fold: Bytes -> Option<string>): Source {
    Source(oid => TreeAt(rd, names, oid), oid => BlobAt(rd, sha256, oid), fold)
  }

  datatype Identity = Identity(mode: Bytes, kind: Kind, oid: Bytes, size: nat, sha256: string)

  datatype Row = Row(path: Bytes, id: Identity)

  function Join(parts: seq<Bytes>): Bytes {
    if parts == [] then "" else if |parts| == 1 then parts[0] else parts[0] + "/" + Join(parts[1..])
  }

  // ----- the leaves of a tree, independently of any walk -----

  /** The entry found by following the named parts down from these entries. */
  predicate ReachesIn(src: Source, es: seq<Entry>, parts: seq<Bytes>, e: Entry)
    decreases |parts|, 1
  {
    parts != [] && exists i :: 0 <= i < |es| && Via(src, es[i], parts, e)
  }

  predicate Via(src: Source, at: Entry, parts: seq<Bytes>, e: Entry)
    requires parts != []
    decreases |parts|, 0
  {
    at.name == parts[0] &&
    (if |parts| == 1 then e == at else KindOf(at) == Tree && Reaches(src, at.oid, parts[1..], e))
  }

  predicate Reaches(src: Source, oid: Bytes, parts: seq<Bytes>, e: Entry)
    decreases |parts|, 2
  {
    var es := src.trees(oid);
    es.Some? && ReachesIn(src, es.value, parts, e)
  }

  function RowOf(src: Source, prefix: seq<Bytes>, parts: seq<Bytes>, e: Entry): Option<Row> {
    var blob := src.blobs(e.oid);
    if blob.None? then None
    else Some(Row(Join(prefix + parts), Identity(e.mode, KindOf(e), e.oid, blob.value.size, blob.value.sha256)))
  }

  /** A row for a leaf below these entries. */
  ghost predicate IsLeafRow(src: Source, es: seq<Entry>, prefix: seq<Bytes>, row: Row) {
    exists parts, e :: ReachesIn(src, es, parts, e) && KindOf(e) != Tree && RowOf(src, prefix, parts, e) == Some(row)
  }

  // ----- the walk -----

  datatype Walk = Refused | Walked(rows: seq<Row>, seen: set<string>)

  function WalkTree(
      src: Source, oid: Bytes, prefix: seq<Bytes>, active: set<Bytes>, seen: set<string>, rows: seq<Row>, depth: nat)
    : Walk
    decreases MAX_DEPTH + 1 - depth, 1, 0
  {
    if depth > MAX_DEPTH || oid in active then Refused
    else
      match src.trees(oid)
      case None => Refused
      case Some(es) => WalkEntries(src, es, prefix, active + {oid}, seen, rows, depth)
  }

  function WalkEntries(
      src: Source, es: seq<Entry>, prefix: seq<Bytes>, active: set<Bytes>, seen: set<string>, rows: seq<Row>, depth: nat)
    : Walk
    requires depth <= MAX_DEPTH
    decreases MAX_DEPTH + 1 - depth, 0, |es|
  {
    if es == [] then Walked(rows, seen)
    else
      match WalkEntry(src, es[0], prefix, active, seen, rows, depth)
      case Refused => Refused
      case Walked(more, noted) => WalkEntries(src, es[1..], prefix, active, noted, more, depth)
  }

  function WalkEntry(
      src: Source, e: Entry, prefix: seq<Bytes>, active: set<Bytes>, seen: set<string>, rows: seq<Row>, depth: nat)
    : Walk
    requires depth <= MAX_DEPTH
    decreases MAX_DEPTH + 1 - depth, 0, 0
  {
    var parts := prefix + [e.name];
    var key := src.fold(Join(parts));
    if key.None? || key.value in seen then Refused
    else if KindOf(e) == Tree then WalkTree(src, e.oid, parts, active, seen + {key.value}, rows, depth + 1)
    else
      match RowOf(src, prefix, [e.name], e)
      case None => Refused
      case Some(row) =>
        if |rows| + 1 > MAX_ENTRIES then Refused else Walked(rows + [row], seen + {key.value})
  }

  // ----- what a completed walk has found -----

  /** The rows have different folded paths, all of them noted. */
  ghost predicate Folded(src: Source, rows: seq<Row>, seen: set<string>) {
    (forall i | 0 <= i < |rows| :: Noted(src, rows[i].path, seen)) &&
    (forall i, j | 0 <= i < j < |rows| :: src.fold(rows[i].path) != src.fold(rows[j].path))
  }

  predicate Noted(src: Source, path: Bytes, seen: set<string>) {
    src.fold(path).Some? && src.fold(path).value in seen
  }

  /** From one state of the walk to a later one, below these entries. */
  ghost predicate Covers(
      src: Source, es: seq<Entry>, prefix: seq<Bytes>, depth: nat, rows: seq<Row>, seen: set<string>, w: Walk)
    requires w.Walked?
  {
    rows <= w.rows && seen <= w.seen && Folded(src, w.rows, w.seen) &&
    (forall row | row in w.rows :: row in rows || IsLeafRow(src, es, prefix, row)) &&
    (forall parts, e | ReachesIn(src, es, parts, e) :: Listed(src, prefix, parts, e, depth, w.rows))
  }

  /** A reachable entry lies within the depth bound, and if it is a leaf its row is listed. */
  predicate Listed(src: Source, prefix: seq<Bytes>, parts: seq<Bytes>, e: Entry, depth: nat, rows: seq<Row>) {
    depth + |parts| <= MAX_DEPTH + 1 &&
    (KindOf(e) != Tree ==>
       RowOf(src, prefix, parts, e).Some? && RowOf(src, prefix, parts, e).value in rows)
  }

  lemma ReachesInCons(src: Source, es: seq<Entry>, parts: seq<Bytes>, e: Entry)
    requires es != []
    ensures ReachesIn(src, es, parts, e) <==> ReachesIn(src, [es[0]], parts, e) || ReachesIn(src, es[1..], parts, e)
  {
    if parts != [] {
      if ReachesIn(src, es, parts, e) {
        var i :| 0 <= i < |es| && Via(src, es[i], parts, e);
        if i == 0 {
          assert Via(src, [es[0]][0], parts, e);
        } else {
          assert Via(src, es[1..][i - 1], parts, e);
        }
      }
      if ReachesIn(src, es[1..], parts, e) {
        var i :| 0 <= i < |es| - 1 && Via(src, es[1..][i], parts, e);
        assert Via(src, es[i + 1], parts, e);
      }
    }
  }

  /** Below a tree entry, the parts are its name and parts inside it. */
  lemma ReachesBelow(src: Source, at: Entry, parts: seq<Bytes>, e: Entry)
    requires KindOf(at) == Tree && |parts| > 1
    ensures ReachesIn(src, [at], parts, e) <==> at.name == parts[0] && Reaches(src, at.oid, parts[1..], e)
  {
    if at.name == parts[0] && Reaches(src, at.oid, parts[1..], e) {
      assert Via(src, [at][0], parts, e);
    }
  }

  lemma SameRow(src: Source, prefix: seq<Bytes>, name: Bytes, parts: seq<Bytes>, e: Entry)
    ensures RowOf(src, prefix + [name], parts, e) == RowOf(src, prefix, [name] + parts, e)
  {
    assert prefix + [name] + parts == prefix + ([name] + parts);
  }

  lemma LeafRowBelow(src: Source, at: Entry, es: seq<Entry>, prefix: seq<Bytes>, row: Row)
    requires KindOf(at) == Tree && src.trees(at.oid) == Some(es) && IsLeafRow(src, es, prefix + [at.name], row)
    ensures IsLeafRow(src, [at], prefix, row)
  {
    var parts, e :| ReachesIn(src, es, parts, e) && KindOf(e) != Tree &&
                    RowOf(src, prefix + [at.name], parts, e) == Some(row);
    var longer := [at.name] + parts;
    assert longer[1..] == parts;
    assert Reaches(src, at.oid, parts, e);
    ReachesBelow(src, at, longer, e);
    SameRow(src, prefix, at.name, parts, e);
    assert ReachesIn(src, [at], longer, e);
  }

  /** What the walk of a tree entry covers, from what it covers inside. */
  lemma CoversBelow(
      src: Source, at: Entry, es: seq<Entry>, prefix: seq<Bytes>, depth: nat, rows: seq<Row>, seen: set<string>,
      key: string, w: Walk)
    requires KindOf(at) == Tree && src.trees(at.oid) == Some(es) && w.Walked? && depth <= MAX_DEPTH
    requires Covers(src, es, prefix + [at.name], depth + 1, rows, seen + {key}, w)
    ensures Covers(src, [at], prefix, depth, rows, seen, w)
  {
    forall row | row in w.rows
      ensures row in rows || IsLeafRow(src, [at], prefix, row)
    {
      if row !in rows { LeafRowBelow(src, at, es, prefix, row); }
    }
    forall parts, e | ReachesIn(src, [at], parts, e)
      ensures Listed(src, prefix, parts, e, depth, w.rows)
    {
      if |parts| == 1 {
        assert Via(src, [at][0], parts, e);
      } else {
        ReachesBelow(src, at, parts, e);
        assert ReachesIn(src, es, parts[1..], e);
        assert Listed(src, prefix + [at.name], parts[1..], e, depth + 1, w.rows);
        SameRow(src, prefix, at.name, parts[1..], e);
        assert [at.name] + parts[1..] == parts;
      }
    }
  }

  lemma CoversLeaf(
      src: Source, e: Entry, prefix: seq<Bytes>, depth: nat, rows: seq<Row>, seen: set<string>, key: string, row: Row)
    requires KindOf(e) != Tree && depth <= MAX_DEPTH && Folded(src, rows, seen)
    requires src.fold(Join(prefix + [e.name])) == Some(key) && key !in seen
    requires RowOf(src, prefix, [e.name], e) == Some(row)
    ensures Covers(src, [e], prefix, depth, rows, seen, Walked(rows + [row], seen + {key}))
  {
    var parts := [e.name];
    assert Via(src, [e][0], parts, e);
    assert ReachesIn(src, [e], parts, e);
    assert IsLeafRow(src, [e], prefix, row);
    FoldedGrows(src, rows, seen, key, row);
    forall ps, x | ReachesIn(src, [e], ps, x)
      ensures Listed(src, prefix, ps, x, depth, rows + [row])
    {
      assert Via(src, [e][0], ps, x);
      assert ps == parts;
    }
  }

  lemma FoldedGrows(src: Source, rows: seq<Row>, seen: set<string>, key: string, row: Row)
    requires Folded(src, rows, seen) && src.fold(row.path) == Some(key) && key !in seen
    ensures Folded(src, rows + [row], seen + {key})
  {
    forall i | 0 <= i < |rows|
      ensures src.fold(rows[i].path) != Some(key) && Noted(src, rows[i].path, seen + {key})
    {
      assert Noted(src, rows[i].path, seen);
    }
  }

  lemma CoversBoth(
      src: Source, es: seq<Entry>, prefix: seq<Bytes>, depth: nat, rows: seq<Row>, seen: set<string>, mid: Walk, w: Walk)
    requires es != [] && mid.Walked? && w.Walked?
    requires Covers(src, [es[0]], prefix, depth, rows, seen, mid)
    requires Covers(src, es[1..], prefix, depth, mid.rows, mid.seen, w)
    ensures Covers(src, es, prefix, depth, rows, seen, w)
  {
    forall row | row in w.rows
      ensures row in rows || IsLeafRow(src, es, prefix, row)
    {
      if row !in rows {
        var from := if row in mid.rows then [es[0]] else es[1..];
        assert IsLeafRow(src, from, prefix, row);
        var parts, e :| ReachesIn(src, from, parts, e) && KindOf(e) != Tree && RowOf(src, prefix, parts, e) == Some(row);
        ReachesInCons(src, es, parts, e);
      }
    }
    forall parts, e | ReachesIn(src, es, parts, e)
      ensures Listed(src, prefix, parts, e, depth, w.rows)
    {
      ReachesInCons(src, es, parts, e);
      assert ReachesIn(src, [es[0]], parts, e) ==> Listed(src, prefix, parts, e, depth, mid.rows);
    }
  }

  lemma {:induction false} EntriesCovered(
      src: Source, es: seq<Entry>, prefix: seq<Bytes>, active: set<Bytes>, seen: set<string>, rows: seq<Row>, depth: nat)
    requires depth <= MAX_DEPTH && Folded(src, rows, seen)
    requires WalkEntries(src, es, prefix, active, seen, rows, depth).Walked?
    ensures Covers(src, es, prefix, depth, rows, seen, WalkEntries(src, es, prefix, active, seen, rows, depth))
    decreases MAX_DEPTH + 1 - depth, 1, |es|
  {
    if es != [] {
      var mid := WalkEntry(src, es[0], prefix, active, seen, rows, depth);
      EntryCovered(src, es[0], prefix, active, seen, rows, depth);
      EntriesCovered(src, es[1..], prefix, active, mid.seen, mid.rows, depth);
      CoversBoth(src, es, prefix, depth, rows, seen, mid,
                 WalkEntries(src, es[1..], prefix, active, mid.seen, mid.rows, depth));
    }
  }

  lemma {:induction false} EntryCovered(
      src: Source, e: Entry, prefix: seq<Bytes>, active: set<Bytes>, seen: set<string>, rows: seq<Row>, depth: nat)
    requires depth <= MAX_DEPTH && Folded(src, rows, seen)
    requires WalkEntry(src, e, prefix, active, seen, rows, depth).Walked?
    ensures Covers(src, [e], prefix, depth, rows, seen, WalkEntry(src, e, prefix, active, seen, rows, depth))
    decreases MAX_DEPTH + 1 - depth, 0, 0
  {
    var parts := prefix + [e.name];
    var key := src.fold(Join(parts)).value;
    if KindOf(e) == Tree {
      assert forall i | 0 <= i < |rows| :: Noted(src, rows[i].path, seen) ==> Noted(src, rows[i].path, seen + {key});
      var es := src.trees(e.oid).value;
      EntriesCovered(src, es, parts, active + {e.oid}, seen + {key}, rows, depth + 1);
      CoversBelow(src, e, es, prefix, depth, rows, seen, key,
                  WalkEntries(src, es, parts, active + {e.oid}, seen + {key}, rows, depth + 1));
    } else {
      CoversLeaf(src, e, prefix, depth, rows, seen, key, RowOf(src, prefix, [e.name], e).value);
    }
  }

  // ----- main results -----

  function Closure(src: Source, root: Bytes): Walk {
    WalkTree(src, root, [], {}, {}, [], 0)
  }

  /** The path from the root names a leaf, and this is its row. */
  ghost predicate IsLeaf(src: Source, root: Bytes, row: Row) {
    exists parts, e :: Reaches(src, root, parts, e) && KindOf(e) != Tree && RowOf(src, [], parts, e) == Some(row)
  }

  /**
   A completed closure lists exactly the leaves reachable from the root, each once, under paths that
   stay different after folding; and nothing reachable lies deeper than the bound, so nothing
   reachable is on a cycle.
   */
  lemma ClosureIsExact(src: Source, root: Bytes)
    requires Closure(src, root).Walked?
    ensures var rows := Closure(src, root).rows;
            (forall row :: row in rows <==> IsLeaf(src, root, row)) &&
            (forall i, j | 0 <= i < j < |rows| :: src.fold(rows[i].path) != src.fold(rows[j].path))
    ensures forall parts, e | Reaches(src, root, parts, e) :: |parts| <= MAX_DEPTH + 1
  {
    var es := src.trees(root).value;
    EntriesCovered(src, es, [], {} + {root}, {}, [], 0);
    var w := Closure(src, root);
    assert Covers(src, es, [], 0, [], {}, w);
    forall row
      ensures row in w.rows <==> IsLeaf(src, root, row)
    {
      if row in w.rows {
        var parts, e :| ReachesIn(src, es, parts, e) && KindOf(e) != Tree && RowOf(src, [], parts, e) == Some(row);
        assert Reaches(src, root, parts, e);
      }
      if IsLeaf(src, root, row) {
        var parts, e :| Reaches(src, root, parts, e) && KindOf(e) != Tree && RowOf(src, [], parts, e) == Some(row);
        assert Listed(src, [], parts, e, 0, w.rows);
      }
    }
    forall parts, e | Reaches(src, root, parts, e)
      ensures |parts| <= MAX_DEPTH + 1
    {
      assert Listed(src, [], parts, e, 0, w.rows);
    }
  }
}
