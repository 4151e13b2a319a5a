/** Raw tree payloads: the entry parser as the exact inverse of the tree writer. */
module GitTree {
  import opened Common
  import opened Order
  import opened Text

  const TREE_MODE: Bytes := "40000"
  const LINK_MODE: Bytes := "120000"

  predicate IsMode(mode: Bytes) { mode == "40000" || mode == "100644" || mode == "100755" || mode == "120000" }

  datatype Kind = Tree | Symlink | Blob

  datatype Entry = Entry(mode: Bytes, name: Bytes, oid: Bytes)

  function KindOf(e: Entry): Kind {
    if e.mode == TREE_MODE then Tree else if e.mode == LINK_MODE then Symlink else Blob
  }

  /** Git sorts a tree as if its name ended in a slash. */
  function SortKey(e: Entry): Bytes {
    if e.mode == TREE_MODE then e.name + "/" else e.name
  }

  /** The text rules on names: valid UTF-8, not a dot name, and not `.git` under case folding. */
  type Names = Bytes -> bool

  predicate NameOk(names: Names, name: Bytes) {
    name != "" && '/' !in name && '\0' !in name && names(name)
  }

  // ----- the writer -----

  predicate EntryOk(names: Names, e: Entry) {
    IsMode(e.mode) && NameOk(names, e.name) && IsBytes(e.name) && |e.oid| == 40 && IsHexText(e.oid)
  }

  predicate InOrder(previous: Option<Bytes>, e: Entry) {
    previous.Some? ==> Less(previous.value, SortKey(e))
  }

  /** Well-formed entries, each after the one before it. */
  predicate TreeOk(names: Names, previous: Option<Bytes>, es: seq<Entry>)
    decreases |es|
  {
    es == [] ||
    (EntryOk(names, es[0]) && InOrder(previous, es[0]) && TreeOk(names, Some(SortKey(es[0])), es[1..]))
  }

  function Framed(mode: Bytes, name: Bytes, tail: Bytes): Bytes {
    mode + " " + (name + "\0" + tail)
  }

  /** The entry with its object ID as twenty raw bytes, and what follows it. */
  function Written(e: Entry, rest: Bytes): Bytes
    requires IsHexText(e.oid)
  {
    Framed(e.mode, e.name, Unhex(e.oid) + rest)
  }

  predicate AllHex(es: seq<Entry>) {
    es == [] || (IsHexText(es[0].oid) && AllHex(es[1..]))
  }

  function WriteAll(es: seq<Entry>): Bytes
    requires AllHex(es)
  {
    if es == [] then "" else Written(es[0], WriteAll(es[1..]))
  }

  // ----- the parser -----

  datatype Fields = Unframed | Fields(mode: Bytes, name: Bytes, tail: Bytes)

  function Unframe(payload: Bytes): (f: Fields)
    ensures f.Fields? ==> |f.tail| < |payload| && f.tail == payload[|payload| - |f.tail|..]
  {
    var modeEnd := Find(payload, ' ');
    if modeEnd < 0 then Unframed
    else
      var after := payload[modeEnd + 1..];
      var nameEnd := Find(after, '\0');
      if nameEnd < 0 then Unframed
      else Fields(payload[..modeEnd], after[..nameEnd], after[nameEnd + 1..])
  }

  lemma UnframeIffFramed(payload: Bytes, mode: Bytes, name: Bytes, tail: Bytes)
    ensures Unframe(payload) == Fields(mode, name, tail) <==>
            payload == Framed(mode, name, tail) && ' ' !in mode && '\0' !in name
  {
    if payload == Framed(mode, name, tail) && ' ' !in mode && '\0' !in name {
      FindAt(mode, ' ', name + "\0" + tail);
      FindAt(name, '\0', tail);
    }
    if Unframe(payload) == Fields(mode, name, tail) {
      FindBack(payload, ' ');
      FindBack(payload[Find(payload, ' ') + 1..], '\0');
    }
  }

  datatype Taken = Bad | Took(entry: Entry, rest: Bytes)

  /** One entry from the front of the payload. */
  function Take(names: Names, payload: Bytes): (t: Taken)
    requires IsBytes(payload)
    ensures t.Took? ==> |t.rest| < |payload| && IsBytes(t.rest) && t.rest == payload[|payload| - |t.rest|..]
  {
    match Unframe(payload)
    case Unframed => Bad
    case Fields(mode, name, tail) =>
      if !NameOk(names, name) || !IsMode(mode) || |tail| < 20 then Bad
      else Took(Entry(mode, name, Hex(tail[..20])), tail[20..])
  }

  function Entries(names: Names, previous: Option<Bytes>, payload: Bytes): Option<seq<Entry>>
    requires IsBytes(payload)
    decreases |payload|
  {
    if payload == "" then Some([])
    else
      match Take(names, payload)
      case Bad => None
      case Took(e, rest) =>
        if !InOrder(previous, e) then None
        else Prepend([e], Entries(names, Some(SortKey(e)), rest))
  }

  function Prepend(es: seq<Entry>, more: Option<seq<Entry>>): Option<seq<Entry>> {
    match more
    case None => None
    case Some(fs) => Some(es + fs)
  }

  lemma PrependTwice(es: seq<Entry>, e: Entry, more: Option<seq<Entry>>)
    ensures Prepend(es, Prepend([e], more)) == Prepend(es + [e], more)
    ensures Prepend([], more) == more
  {
    if more.Some? {
      assert es + ([e] + more.value) == es + [e] + more.value;
      assert [] + more.value == more.value;
    }
  }

  lemma PrependBack(e: Entry, more: Option<seq<Entry>>, es: seq<Entry>)
    requires Prepend([e], more) == Some(es)
    ensures es != [] && es[0] == e && more == Some(es[1..])
  {
    assert es[1..] == more.value;
  }

  lemma EntriesStep(names: Names, previous: Option<Bytes>, payload: Bytes, e: Entry, rest: Bytes)
    requires IsBytes(payload) && Take(names, payload) == Took(e, rest)
    ensures Entries(names, previous, payload) ==
            if InOrder(previous, e) then Prepend([e], Entries(names, Some(SortKey(e)), rest)) else None
  {
  }

  lemma SuffixOfSuffix(s: Bytes, offset: nat, k: nat)
    requires offset + k <= |s|
    ensures s[offset..][k..] == s[offset + k..]
  {
  }

  /** The loop over offsets computes the entries of the whole payload. */
  method TreeEntries(names: Names, payload: Bytes) returns (r: Option<seq<Entry>>)
    requires IsBytes(payload)
    ensures r == Entries(names, None, payload)
  {
    var entries: seq<Entry> := [];
    var offset := 0;
    var previous: Option<Bytes> := None;
    var left := payload[offset..];
    assert left == payload;
    ghost var goal := Entries(names, None, payload);
    PrependTwice(entries, Entry("", "", ""), goal);
    while offset < |payload|
      invariant 0 <= offset <= |payload| && left == payload[offset..] && IsBytes(left)
      invariant goal == Prepend(entries, Entries(names, previous, left))
    {
      var taken := Take(names, left);
      if taken.Bad? { return None; }
      var e := taken.entry;
      EntriesStep(names, previous, left, e, taken.rest);
      if !InOrder(previous, e) { return None; }
      PrependTwice(entries, e, Entries(names, Some(SortKey(e)), taken.rest));
      SuffixOfSuffix(payload, offset, |left| - |taken.rest|);
      previous := Some(SortKey(e));
      entries := entries + [e];
      offset := offset + |left| - |taken.rest|;
      left := taken.rest;
    }
    assert entries + [] == entries;
    return Some(entries);
  }

  // ----- exact inverses -----

  lemma PlainMode(mode: Bytes)
    requires IsMode(mode)
    ensures ' ' !in mode
  {
  }

  lemma TakesWritten(names: Names, e: Entry, rest: Bytes)
    requires EntryOk(names, e) && IsBytes(Written(e, rest))
    ensures Take(names, Written(e, rest)) == Took(e, rest)
  {
    var tail := Unhex(e.oid) + rest;
    PlainMode(e.mode);
    UnframeIffFramed(Written(e, rest), e.mode, e.name, tail);
    assert tail[..20] == Unhex(e.oid) && tail[20..] == rest;
    HexUnhex(e.oid);
  }

  lemma TakesOnlyWritten(names: Names, payload: Bytes, e: Entry, rest: Bytes)
    requires IsBytes(payload) && Take(names, payload) == Took(e, rest)
    ensures EntryOk(names, e) && payload == Written(e, rest)
  {
    var f := Unframe(payload);
    UnframeIffFramed(payload, f.mode, f.name, f.tail);
    FramedBytes(f.mode, f.name, f.tail);
    UnhexHex(f.tail[..20]);
    assert f.tail == f.tail[..20] + rest;
  }

  lemma FramedBytes(mode: Bytes, name: Bytes, tail: Bytes)
    ensures IsBytes(Framed(mode, name, tail)) <==> IsBytes(mode) && IsBytes(name) && IsBytes(tail)
  {
    var s := Framed(mode, name, tail);
    assert mode == s[..|mode|];
    assert name == s[|mode| + 1..][..|name|];
    assert tail == s[|mode| + 1..][|name| + 1..];
  }

  lemma {:induction false} WrittenIsBytes(names: Names, previous: Option<Bytes>, es: seq<Entry>)
    requires TreeOk(names, previous, es)
    ensures AllHex(es)
    ensures IsBytes(WriteAll(es))
    decreases |es|
  {
    if es != [] {
      WrittenIsBytes(names, Some(SortKey(es[0])), es[1..]);
      assert IsBytes(es[0].mode);
      FramedBytes(es[0].mode, es[0].name, Unhex(es[0].oid) + WriteAll(es[1..]));
    }
  }

  lemma {:induction false} ReadsWritten(names: Names, previous: Option<Bytes>, es: seq<Entry>)
    requires TreeOk(names, previous, es)
    requires AllHex(es) && IsBytes(WriteAll(es))
    ensures Entries(names, previous, WriteAll(es)) == Some(es)
    decreases |es|
  {
    if es != [] {
      var (e, more) := (es[0], es[1..]);
      assert es == [e] + more;
      WrittenIsBytes(names, Some(SortKey(e)), more);
      TakesWritten(names, e, WriteAll(more));
      EntriesStep(names, previous, Written(e, WriteAll(more)), e, WriteAll(more));
      ReadsWritten(names, Some(SortKey(e)), more);
    }
  }

  lemma {:induction false} ReadsOnlyWritten(names: Names, previous: Option<Bytes>, payload: Bytes, es: seq<Entry>)
    requires IsBytes(payload) && Entries(names, previous, payload) == Some(es)
    ensures TreeOk(names, previous, es)
    ensures AllHex(es) && payload == WriteAll(es)
    decreases |payload|
  {
    if payload != "" {
      var (e, rest) := (Take(names, payload).entry, Take(names, payload).rest);
      TakesOnlyWritten(names, payload, e, rest);
      EntriesStep(names, previous, payload, e, rest);
      var more := es[1..];
      assert Entries(names, Some(SortKey(e)), rest) == Some(more) by {
        PrependBack(e, Entries(names, Some(SortKey(e)), rest), es);
      }
      ReadsOnlyWritten(names, Some(SortKey(e)), rest, more);
    }
  }

  lemma {:induction false} LaterKeys(names: Names, previous: Option<Bytes>, es: seq<Entry>, i: nat)
    requires TreeOk(names, previous, es) && i < |es|
    ensures EntryOk(names, es[i]) && InOrder(previous, es[i])
    decreases |es|
  {
    if i > 0 {
      LaterKeys(names, Some(SortKey(es[0])), es[1..], i - 1);
      if previous.Some? { LessIsTransitive(previous.value, SortKey(es[0]), SortKey(es[i])); }
    }
  }

  // ----- Git order -----

  /** Git order: by name, where the name of a directory counts with a slash at its end. */
  predicate Before(a: Entry, b: Entry) {
    Less(a.name + (if a.mode == "40000" then "/" else ""), b.name + (if b.mode == "40000" then "/" else ""))
  }

  /** A path of or below an entry: inside a directory it goes on after a slash. */
  function PathUnder(e: Entry, rest: Bytes): Bytes {
    if KindOf(e) == Tree then e.name + "/" + rest else e.name
  }

  /** What is less stays less when both go on, unless the first one is where the second goes on. */
  lemma {:induction false} LessGoesOn(a: Bytes, b: Bytes, x: Bytes, y: Bytes)
    requires Less(a, b) && (x == "" || !(a <= b))
    ensures Less(a + x, b + y)
  {
    if a != "" && a[0] == b[0] {
      assert a <= b <==> a[1..] <= b[1..];
      LessGoesOn(a[1..], b[1..], x, y);
      assert (a + x)[1..] == a[1..] + x && (b + y)[1..] == b[1..] + y;
    }
  }

  /** Git order is the order of the paths: everything under the earlier entry comes before all under the later. */
  lemma BeforeIffPaths(a: Entry, b: Entry)
    requires '/' !in a.name && '/' !in b.name
    ensures Before(a, b) <==> forall x, y :: Less(PathUnder(a, x), PathUnder(b, y))
  {
    var (s, t) := (PathUnder(a, ""), PathUnder(b, ""));
    EmptyPath(a);
    EmptyPath(b);
    if Before(a, b) {
      forall x, y
        ensures Less(PathUnder(a, x), PathUnder(b, y))
      {
        PathsFollow(a, b, x, y);
      }
    } else {
      assert !Less(s, t);
    }
  }

  lemma EmptyPath(e: Entry)
    ensures PathUnder(e, "") == e.name + (if e.mode == "40000" then "/" else "")
  {
  }

  lemma PathsFollow(a: Entry, b: Entry, x: Bytes, y: Bytes)
    requires '/' !in a.name && '/' !in b.name && Before(a, b)
    ensures Less(PathUnder(a, x), PathUnder(b, y))
  {
    var (s, t) := (PathUnder(a, ""), PathUnder(b, ""));
    EmptyPath(a);
    EmptyPath(b);
    var (u, v) := (if KindOf(a) == Tree then x else "", if KindOf(b) == Tree then y else "");
    assert PathUnder(a, x) == s + u && PathUnder(b, y) == t + v;
    if KindOf(a) == Tree && s <= t {
      SlashEnds(a.name, t);
      LessIsIrreflexive(s);
    }
    LessGoesOn(s, t, u, v);
  }

  /** A name and a slash begin only themselves among names that may end in a slash. */
  lemma SlashEnds(name: Bytes, t: Bytes)
    requires name + "/" <= t && (forall i | 0 <= i < |t| - 1 :: t[i] != '/')
    ensures t == name + "/"
  {
    assert t[|name|] == '/';
  }

  /** Well-formed entries in Git order. */
  predicate Canonical(names: Names, es: seq<Entry>) {
    (forall i | 0 <= i < |es| :: EntryOk(names, es[i])) && forall i, j | 0 <= i < j < |es| :: Before(es[i], es[j])
  }

  lemma KeyIs(e: Entry)
    ensures SortKey(e) == e.name + (if e.mode == "40000" then "/" else "")
  {
  }

  /** Accepted entries are in Git order, all pairs of them. */
  lemma {:induction false} KeysIncrease(names: Names, previous: Option<Bytes>, es: seq<Entry>, i: nat, j: nat)
    requires TreeOk(names, previous, es) && i < j < |es|
    ensures Before(es[i], es[j])
    decreases |es|
  {
    if i == 0 {
      LaterKeys(names, Some(SortKey(es[0])), es[1..], j - 1);
      KeyIs(es[0]);
      KeyIs(es[j]);
    } else {
      KeysIncrease(names, Some(SortKey(es[0])), es[1..], i - 1, j - 1);
    }
  }

  lemma {:induction false} CanonicalIsOk(names: Names, previous: Option<Bytes>, es: seq<Entry>)
    requires Canonical(names, es) && (es != [] ==> InOrder(previous, es[0]))
    ensures TreeOk(names, previous, es)
    decreases |es|
  {
    if es != [] {
      var rest := es[1..];
      assert forall i | 0 <= i < |rest| :: rest[i] == es[i + 1];
      if rest != [] {
        KeyIs(es[0]);
        KeyIs(es[1]);
        assert Before(es[0], es[1]);
      }
      CanonicalIsOk(names, Some(SortKey(es[0])), rest);
    }
  }

  lemma OkIffCanonical(names: Names, es: seq<Entry>)
    ensures TreeOk(names, None, es) <==> Canonical(names, es)
  {
    if Canonical(names, es) { CanonicalIsOk(names, None, es); }
    if TreeOk(names, None, es) {
      forall i | 0 <= i < |es|
        ensures EntryOk(names, es[i])
      {
        LaterKeys(names, None, es, i);
      }
      forall i, j | 0 <= i < j < |es|
        ensures Before(es[i], es[j])
      {
        KeysIncrease(names, None, es, i, j);
      }
    }
  }

  /**
   A payload is accepted exactly when it is the serialisation of the entries it yields, these are well
   formed, and every two of them are in Git order.
   */
  lemma EntriesIffWritten(names: Names, payload: Bytes, es: seq<Entry>)
    requires IsBytes(payload)
    ensures Entries(names, None, payload) == Some(es) <==>
            Canonical(names, es) && AllHex(es) && payload == WriteAll(es)
  {
    OkIffCanonical(names, es);
    if TreeOk(names, None, es) {
      WrittenIsBytes(names, None, es);
      ReadsWritten(names, None, es);
    }
    if Entries(names, None, payload) == Some(es) { ReadsOnlyWritten(names, None, payload, es); }
  }
}
