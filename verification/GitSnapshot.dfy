/** From two commits' trees to their sorted inventories and the diff between them. */
module GitSnapshot {
  import opened Common
  import opened Order
  import opened Text
  import opened GitTree
  import opened GitWalk
  import opened GitComplete
  import opened GitClosure

  function RowPaths(rows: seq<Row>): (ps: seq<Bytes>)
    ensures |ps| == |rows| && forall i | 0 <= i < |rows| :: ps[i] == rows[i].path
  {
    seq(|rows|, i requires 0 <= i < |rows| => rows[i].path)
  }

  /** The same rows in path order. */
  method SortRows(rows: seq<Row>) returns (sorted: seq<Row>)
    requires DistinctPaths(rows)
    ensures StrictlySorted(RowPaths(sorted)) && forall row :: row in sorted <==> row in rows
  {
    var m := ByPath(rows);
    var paths := Sorted(m.Keys);
    forall i | 0 <= i < |paths|
      ensures paths[i] in m
    {
      assert paths[i] in Elements(paths);
    }
    sorted := seq(|paths|, i requires 0 <= i < |paths| => Row(paths[i], m[paths[i]]));
    assert RowPaths(sorted) == paths;
    forall row
      ensures row in sorted <==> row in rows
    {
      SortedHolds(rows, m, paths, sorted, row);
    }
  }

  lemma SortedHolds(rows: seq<Row>, m: map<Bytes, Identity>, paths: seq<Bytes>, sorted: seq<Row>, row: Row)
    requires DistinctPaths(rows) && m == ByPath(rows) && Elements(paths) == m.Keys && |sorted| == |paths|
    requires forall i | 0 <= i < |paths| :: paths[i] in m && sorted[i] == Row(paths[i], m[paths[i]])
    ensures row in sorted <==> row in rows
  {
    if row in rows {
      var i :| 0 <= i < |rows| && rows[i] == row;
      ByPathHolds(rows, i);
      assert row.path in Elements(paths);
      var k :| 0 <= k < |paths| && paths[k] == row.path;
      assert sorted[k] == row;
    }
    if row in sorted {
      var k :| 0 <= k < |sorted| && sorted[k] == row;
      ByPathKeys(rows, row.path);
      var i :| 0 <= i < |rows| && rows[i].path == row.path;
      ByPathHolds(rows, i);
    }
  }

  lemma SortedPathsDiffer(rows: seq<Row>)
    requires StrictlySorted(RowPaths(rows))
    ensures DistinctPaths(rows)
  {
    forall i, j | 0 <= i < j < |rows|
      ensures rows[i].path != rows[j].path
    {
      assert Less(RowPaths(rows)[i], RowPaths(rows)[j]);
      LessIsIrreflexive(rows[i].path);
    }
  }

  /** The sorted inventory of a complete tree: exactly its reachable leaves, each once. */
  method Snapshot(src: Source, root: Bytes) returns (r: Option<seq<Row>>)
    ensures r.Some? <==> Complete(src, root)
    ensures r.Some? ==> StrictlySorted(RowPaths(r.value)) && forall row :: row in r.value <==> IsLeaf(src, root, row)
  {
    ClosureCompletesIff(src, root);
    var walk := new TreeWalk(src);
    var ok := walk.Tree(root, [], 0);
    if !ok { return None; }
    assert Closure(src, root) == Walked(walk.rows, walk.seen);
    ClosureIsExact(src, root);
    var sorted := SortRows(walk.rows);
    return Some(sorted);
  }

  predicate AllNamesBytes(es: seq<Entry>) { forall i | 0 <= i < |es| :: IsBytes(es[i].name) }

  ghost predicate BytesOnly(src: Source) {
    forall oid :: src.trees(oid).Some? ==> AllNamesBytes(src.trees(oid).value)
  }

  /** In trees read from raw payloads every name is bytes. */
  lemma RawNamesAreBytes(rd: Reader, names: Names, sha256: Bytes -> string, fold: Bytes -> Option<string>)
    ensures BytesOnly(SourceOf(rd, names, sha256, fold))
  {
    forall oid: Bytes | TreeAt(rd, names, oid).Some?
      ensures AllNamesBytes(TreeAt(rd, names, oid).value)
    {
      EntryNamesAreBytes(names, rd(oid).value.payload);
    }
  }

  lemma EntryNamesAreBytes(names: Names, payload: Bytes)
    requires IsBytes(payload) && Entries(names, None, payload).Some?
    ensures AllNamesBytes(Entries(names, None, payload).value)
  {
    var es := Entries(names, None, payload).value;
    ReadsOnlyWritten(names, None, payload, es);
    forall i | 0 <= i < |es|
      ensures IsBytes(es[i].name)
    {
      LaterKeys(names, None, es, i);
    }
  }

  /** A tree is read exactly when the object is a tree filed under its name and holds these entries in canonical form. */
  lemma TreeAtIff(rd: Reader, names: Names, oid: Bytes, es: seq<Entry>)
    ensures TreeAt(rd, names, oid) == Some(es) <==>
              && rd(oid).Some? && rd(oid).value.kind == "tree" && rd(oid).value.oid == oid
              && IsBytes(rd(oid).value.payload) && Canonical(names, es) && AllHex(es)
              && rd(oid).value.payload == GitTree.WriteAll(es)
  {
    if rd(oid).Some? && IsBytes(rd(oid).value.payload) { EntriesIffWritten(names, rd(oid).value.payload, es); }
  }

  /** Every listed leaf is a blob; its row tells path, mode and identity of the entry, size and digest of the bytes. */
  lemma LeafRowTells(
      rd: Reader, names: Names, sha256: Bytes -> string, fold: Bytes -> Option<string>, root: Bytes, row: Row)
      returns (parts: seq<Bytes>, e: Entry)
    requires IsLeaf(SourceOf(rd, names, sha256, fold), root, row)
    ensures Reaches(SourceOf(rd, names, sha256, fold), root, parts, e) && e.mode != "40000"
    ensures row.path == Join(parts) && row.id.mode == e.mode && row.id.oid == e.oid
    ensures row.id.kind == if e.mode == "120000" then Symlink else Blob
    ensures rd(e.oid).Some? && rd(e.oid).value.kind == "blob" && rd(e.oid).value.oid == e.oid
    ensures row.id.size == |rd(e.oid).value.payload| && row.id.sha256 == sha256(rd(e.oid).value.payload)
  {
    var src := SourceOf(rd, names, sha256, fold);
    parts, e :| Reaches(src, root, parts, e) && KindOf(e) != Kind.Tree && RowOf(src, [], parts, e) == Some(row);
    assert [] + parts == parts;
  }

  /** So is every path. */
  lemma {:induction false} PartsAreBytes(src: Source, oid: Bytes, parts: seq<Bytes>, e: Entry)
    requires BytesOnly(src) && Reaches(src, oid, parts, e)
    ensures IsBytes(Join(parts))
    decreases |parts|
  {
    var es := src.trees(oid).value;
    assert AllNamesBytes(es);
    var i :| 0 <= i < |es| && Via(src, es[i], parts, e);
    if |parts| > 1 { PartsAreBytes(src, es[i].oid, parts[1..], e); }
  }

  predicate AllPlain(es: seq<Entry>) { forall i | 0 <= i < |es| :: '/' !in es[i].name }

  /** No name in any tree has a slash. */
  ghost predicate PlainNames(src: Source) {
    forall oid :: src.trees(oid).Some? ==> AllPlain(src.trees(oid).value)
  }

  lemma {:induction false} JoinIsJoined(parts: seq<Bytes>)
    requires parts != []
    ensures Join(parts) == Joined(parts, '/')
  {
    if |parts| > 1 { JoinIsJoined(parts[1..]); }
  }

  lemma {:induction false} PartsArePlain(src: Source, oid: Bytes, parts: seq<Bytes>, e: Entry)
    requires PlainNames(src) && Reaches(src, oid, parts, e)
    ensures parts != [] && Without(parts, '/') && parts[|parts| - 1] == e.name
    decreases |parts|
  {
    var es := src.trees(oid).value;
    assert AllPlain(es);
    var i :| 0 <= i < |es| && Via(src, es[i], parts, e);
    if |parts| > 1 {
      PartsArePlain(src, es[i].oid, parts[1..], e);
      assert parts == [parts[0]] + parts[1..];
    }
  }

  /** A path tells the names it was made of: split at its slashes it gives them back. */
  lemma PathTellsParts(src: Source, root: Bytes, parts: seq<Bytes>, e: Entry)
    requires PlainNames(src) && Reaches(src, root, parts, e)
    ensures Split(Join(parts), '/') == parts
  {
    PartsArePlain(src, root, parts, e);
    JoinIsJoined(parts);
    SplitJoined(parts, '/');
  }

  /** In trees read from raw payloads no name has a slash. */
  lemma RawNamesArePlain(rd: Reader, names: Names, sha256: Bytes -> string, fold: Bytes -> Option<string>)
    ensures PlainNames(SourceOf(rd, names, sha256, fold))
  {
    forall oid: Bytes | TreeAt(rd, names, oid).Some?
      ensures AllPlain(TreeAt(rd, names, oid).value)
    {
      var es := TreeAt(rd, names, oid).value;
      TreeAtIff(rd, names, oid, es);
      assert forall i | 0 <= i < |es| :: EntryOk(names, es[i]);
    }
  }

  lemma LeafPathIsBytes(src: Source, root: Bytes, row: Row)
    requires BytesOnly(src) && IsLeaf(src, root, row)
    ensures IsBytes(row.path)
  {
    var parts, e :| Reaches(src, root, parts, e) && KindOf(e) != Kind.Tree && RowOf(src, [], parts, e) == Some(row);
    PartsAreBytes(src, root, parts, e);
    assert [] + parts == parts;
  }

  /** Changed paths are paths of leaves. */
  lemma ChangedPathIsBytes(
      src: Source, baseline: Bytes, candidate: Bytes, a: map<Bytes, Identity>, b: map<Bytes, Identity>, c: Change)
    requires BytesOnly(src) && Lists(src, baseline, a) && Lists(src, candidate, b) && IsChange(a, b, c)
    ensures IsBytes(c.path)
  {
    if c.before.Some? {
      LeafPathIsBytes(src, baseline, Row(c.path, c.before.value));
    } else {
      LeafPathIsBytes(src, candidate, Row(c.path, c.after.value));
    }
  }

  /**
   The binder's diff of two trees of one object reader: when both trees are complete there is one, and only then;
   it lists exactly the paths whose leaf differs, strictly sorted in hexadecimal as the verifier
   demands, and turns the old inventory into the new one.
   */
  method DiffTrees(
      rd: Reader, names: Names, sha256: Bytes -> string, fold: Bytes -> Option<string>, baseline: Bytes, candidate: Bytes)
    returns (r: Option<seq<Change>>)
    ensures var src := SourceOf(rd, names, sha256, fold);
            r.Some? <==> Complete(src, baseline) && Complete(src, candidate)
    ensures r.Some? ==>
              var src := SourceOf(rd, names, sha256, fold);
              exists a, b :: Lists(src, baseline, a) && Lists(src, candidate, b) && IsDiff(a, b, r.value) &&
                             Apply(a, r.value) == b
    ensures r.Some? ==>
              (forall i | 0 <= i < |r.value| :: IsBytes(r.value[i].path)) && StrictlySorted(HexPaths(Paths(r.value)))
  {
    var src := SourceOf(rd, names, sha256, fold);
    var before := Snapshot(src, baseline);
    if before.None? { return None; }
    var after := Snapshot(src, candidate);
    if after.None? { return None; }
    SortedPathsDiffer(before.value);
    SortedPathsDiffer(after.value);
    r := ChangedPaths(before.value, after.value);
    ghost var (a, b) := (ByPath(before.value), ByPath(after.value));
    DiffApplies(a, b, r.value);
    InventoryLists(src, baseline, before.value);
    InventoryLists(src, candidate, after.value);
    RawNamesAreBytes(rd, names, sha256, fold);
    forall i | 0 <= i < |r.value|
      ensures IsBytes(r.value[i].path)
    {
      ChangedPathIsBytes(src, baseline, candidate, a, b, r.value[i]);
    }
    DiffMeetsVerifier(a, b, r.value);
  }

  /** The mapping holds exactly the leaves of the tree. */
  ghost predicate Lists(src: Source, root: Bytes, m: map<Bytes, Identity>) {
    forall p, id :: Side(m, p) == Some(id) <==> IsLeaf(src, root, Row(p, id))
  }

  lemma InventoryLists(src: Source, root: Bytes, rows: seq<Row>)
    requires DistinctPaths(rows) && forall row :: row in rows <==> IsLeaf(src, root, row)
    ensures Lists(src, root, ByPath(rows))
  {
    var m := ByPath(rows);
    forall p, id
      ensures Side(m, p) == Some(id) <==> IsLeaf(src, root, Row(p, id))
    {
      assert Row(p, id) in rows <==> IsLeaf(src, root, Row(p, id));
      if Row(p, id) in rows {
        var i :| 0 <= i < |rows| && rows[i] == Row(p, id);
        ByPathHolds(rows, i);
      }
      if p in m {
        ByPathKeys(rows, p);
        var i :| 0 <= i < |rows| && rows[i].path == p;
        ByPathHolds(rows, i);
      }
    }
  }
}
